/** What event_process_active (net/event.c:224-257) and the callbacks that it calls do, as
    relations between values: which callbacks are called, how often, and what each call in
    them changes. */
module Callbacks {
  import opened EventTypes
  import opened ReactorState

  /** How often the callback of an active event is to be called. */
  function CallsOf(n: map<Ptr, nat>, e: Ptr): nat {
    if e in n then n[e] else 0
  }

  /** A call that may take an event off an active queue and end its loop. */
  predicate Breaks(a: Action) {
    a.Del? || (a.Add? && a.tv.Some?)
  }

  predicate Breaking(actions: seq<Action>) {
    exists i {:trigger actions[i]} :: 0 <= i < |actions| && Breaks(actions[i])
  }

  /** One event that has run: every call of its callback, with what the callback has done. */
  datatype Turn = Turn(ev: Ptr, calls: seq<seq<Action>>)

  function Events(turns: seq<Turn>): seq<Ptr> {
    if turns == [] then [] else Events(turns[..|turns| - 1]) + [turns[|turns| - 1].ev]
  }

  /** All calls in their order. */
  function AllCalls(turns: seq<Turn>): seq<seq<Action>> {
    if turns == [] then [] else AllCalls(turns[..|turns| - 1]) + turns[|turns| - 1].calls
  }

  lemma CallsMore(turns: seq<Turn>, t: Turn)
    ensures AllCalls(turns + [t]) == AllCalls(turns) + t.calls
  {
    assert (turns + [t])[..|turns + [t]| - 1] == turns;
  }

  /** The events of the log that have run. */
  function Ran(log: seq<Leaving>): seq<Ptr> {
    if log == [] then []
    else Ran(log[..|log| - 1]) + (if log[|log| - 1].ran then [log[|log| - 1].ev] else [])
  }

  /** ev_ncalls, and the events whose ev_pncalls is set. */
  datatype Due = Due(n: map<Ptr, nat>, p: set<Ptr>) {

    /** event_active asks for k calls of e. */
    function Begun(e: Ptr, k: nat): Due {
      Due(n[e := k], p - {e})
    }

    /** The calls of e that are under way are not the last. */
    predicate Looping(e: Ptr) {
      e in n && n[e] != 0 && e in p
    }
  }

  /** What happens to the reactor. */
  datatype Happening =
    | Call(action: Action)
    | Internal(ev: Ptr)
    | Activate(ev: Ptr, res: set<Ev>, calls: nat)
    | Reported(ready: Ready)
    | Expire(now: Timeval)
    | Back(off: Timeval)
    | Process(script: seq<seq<Action>>)

  /** The event base with the timeouts, the calls that are due, and the variable that ev_pncalls
      points to. */
  datatype Machine = Machine(b: Base, key: map<Ptr, Timeval>, due: Due, loop: nat)
  {
    predicate Looping(e: Ptr) {
      due.Looping(e)
    }

    // ---- one call inside a callback ----

    /** event_add: with a timeout the event is queued anew with the time tv from now. */
    ghost predicate Added(e: Ptr, tv: Option<Timeval>, now: Timeval, k: nat, m1: Machine)
      requires b.Known(e)
    {
      && (tv.Some? ==> b.Retimed(e).Known(e) && k <= |b.Retimed(e).timers|)
      && var s := b.Timed(e, tv.Some?, k);
      && s.Known(e) && (s.WantsSlot(e) ==> s.Insertable(e))
      && m1.b == s.Enrolled(e) && m1.due == due
      && m1.key == (if tv.Some? then key[e := now.Add(tv.value)] else key)
      && m1.loop == if tv.Some? && b.Replaced(e) && Looping(e) then 0 else loop
    }

    /** The call a leads to m1; one that the program must not make does nothing. */
    ghost predicate Acted(a: Action, m1: Machine) {
      && b.Valid() && m1.b.Valid()
      && if !b.Allowed(a) then m1 == this else
         match a
         case Set(e, f, evs) =>
           m1 == this.(b := b.Initialised(e, f, evs), due := due.Begun(e, 0))
         case Add(e, tv, now) => exists k: nat :: Added(e, tv, now, k, m1)
         case Del(e) =>
           && (b.On(e, Inserted) ==> 0 <= b.fd[e] < |b.slots|)
           && m1 == this.(b := b.Deleted(e), loop := if Looping(e) then 0 else loop)
         case Priority(e, p) => m1 == this.(b := b.Prioritised(e, p))
    }

    /** The active queues lose no event but e, and gain none. */
    ghost predicate Loses(e: Ptr, m1: Machine) {
      m1.b.activequeues == b.activequeues || Left(b.activequeues, e, m1.b.activequeues)
    }

    /** Whatever is active was active before, to be called as often; no event becomes internal. */
    ghost predicate Stays(m1: Machine) {
      && m1.b.internal <= b.internal
      && forall x {:trigger m1.b.On(x, Active)} ::
        m1.b.On(x, Active) ==> b.On(x, Active) && CallsOf(m1.due.n, x) == CallsOf(due.n, x)
    }

    /** What a call about e leaves alone. */
    ghost predicate Spared(e: Ptr, m1: Machine) {
      && (forall x {:trigger m1.Looping(x)} :: x != e ==> (m1.Looping(x) <==> Looping(x)))
      && b.OthersKept(m1.b, e) && (e in b.flags ==> e in m1.b.flags)
    }

    /** A call takes at most its own event off an active queue, and only event_del and event_add
        with a timeout do; it makes no event active, and changes nothing for another event. */
    lemma ActedContained(a: Action, m1: Machine)
      requires Acted(a, m1)
      ensures Loses(a.ev, m1) && Stays(m1) && Spared(a.ev, m1)
      ensures !Breaks(a) ==> m1.b.activequeues == b.activequeues && m1.loop == loop
      ensures m1.loop == loop || m1.loop == 0
      ensures a.Del? && a.ev in b.flags && Looping(a.ev) ==> m1.loop == 0
      ensures !a.Set? ==> m1.due == due
    {
      assert b.QueuedAt(a.ev);
      if b.Allowed(a) {
        match a
        case Set(e, f, evs) => SetContained(a, m1);
        case Add(e, tv, now) => AddContained(a, m1);
        case Del(e) => DelContained(a, m1);
        case Priority(e, p) => b.PrioritisedValid(e, p);
      }
    }

    lemma SetContained(a: Action, m1: Machine)
      requires Acted(a, m1) && b.Allowed(a) && a.Set?
      ensures Stays(m1) && Spared(a.ev, m1) && m1.b.activequeues == b.activequeues
    {
    }

    lemma DelContained(a: Action, m1: Machine)
      requires Acted(a, m1) && b.Allowed(a) && a.Del?
      ensures Loses(a.ev, m1) && Stays(m1) && Spared(a.ev, m1)
    {
      b.DeletedLeft(a.ev);
      b.DeletedKeepsOthers(a.ev);
      b.DeletedFieldsHold(a.ev);
      b.DeletedValid(a.ev);
      OthersActive(a.ev, m1);
    }

    /** Activity of the other events, from their records. */
    lemma OthersActive(e: Ptr, m1: Machine)
      requires b.OthersKept(m1.b, e)
      ensures forall x {:trigger m1.b.On(x, Active)} :: x != e ==> (m1.b.On(x, Active) <==> b.On(x, Active))
    {
      forall x | x != e ensures m1.b.On(x, Active) <==> b.On(x, Active) {
        assert m1.b.Record(x) == b.Record(x);
      }
    }

    lemma AddContained(a: Action, m1: Machine)
      requires Acted(a, m1) && b.Allowed(a) && a.Add?
      ensures Loses(a.ev, m1) && Stays(m1) && Spared(a.ev, m1)
      ensures a.tv.None? ==> m1.b.activequeues == b.activequeues
    {
      var k :| Added(a.ev, a.tv, a.now, k, m1);
      AddedActive(a.ev, a.tv.Some?, k);
      b.AddedLeft(a.ev, a.tv.Some?, k);
      b.AddedKeepsOthers(a.ev, a.tv.Some?, k);
      OthersActive(a.ev, m1);
    }

    lemma AddedActive(e: Ptr, timed: bool, k: nat)
      requires b.Known(e) && (timed ==> b.Retimed(e).Known(e) && k <= |b.Retimed(e).timers|)
      requires var s := b.Timed(e, timed, k); s.Known(e) && (s.WantsSlot(e) ==> s.Insertable(e))
      ensures var s := b.Timed(e, timed, k).Enrolled(e);
        && (s.On(e, Active) ==> b.On(e, Active)) && (!timed ==> s.activequeues == b.activequeues)
        && s.internal == b.internal && s.fd == b.fd
    {
      TimedActive(e, timed, k);
      EnrolledActive(b.Timed(e, timed, k), e);
    }

    lemma TimedActive(e: Ptr, timed: bool, k: nat)
      requires b.Known(e) && (timed ==> b.Retimed(e).Known(e) && k <= |b.Retimed(e).timers|)
      ensures var s := b.Timed(e, timed, k);
        && (s.On(e, Active) ==> b.On(e, Active)) && (!timed ==> s == b) && s.internal == b.internal && s.fd == b.fd
    {
    }

    static lemma EnrolledActive(s: Base, e: Ptr)
      requires s.Known(e) && (s.WantsSlot(e) ==> s.Insertable(e))
      ensures var t := s.Enrolled(e);
        && (t.On(e, Active) <==> s.On(e, Active)) && t.activequeues == s.activequeues
        && t.internal == s.internal && t.fd == s.fd
    {
    }

    /** What event_add has achieved: with a timeout the event is in the tree for that time, among
        the others as they were, and no longer active because of an earlier timeout; unless it
        is active its descriptor is watched, or else its signal. */
    lemma AddedMeans(e: Ptr, tv: Option<Timeval>, now: Timeval, k: nat, m1: Machine)
      requires b.Valid() && b.Known(e) && Added(e, tv, now, k, m1) && m1.b.Valid()
      ensures tv.Some? ==> m1.b.On(e, Timeout) && e in m1.key && m1.key[e] == now.Add(tv.value)
      ensures tv.None? ==> m1.b.timers == b.timers && m1.key == key
      ensures Without(m1.b.timers, e) == Without(b.timers, e)
      ensures m1.b.On(e, Active) <==> b.On(e, Active) && !(tv.Some? && EvTimeout in b.res[e])
      ensures (EvRead in b.events[e] || EvWrite in b.events[e]) && !m1.b.On(e, Active) ==> m1.b.On(e, Inserted)
      ensures EvSignal in b.events[e] && EvRead !in b.events[e] && EvWrite !in b.events[e] ==> m1.b.On(e, Signal)
      ensures m1.b.events == b.events && m1.b.fd == b.fd && m1.b.pri == b.pri && m1.b.res == b.res
    {
      TimedMeans(e, tv.Some?, k);
      EnrolledMeans(b.Timed(e, tv.Some?, k), e);
    }

    lemma TimedMeans(e: Ptr, timed: bool, k: nat)
      requires b.Valid() && b.Known(e) && (timed ==> b.Retimed(e).Known(e) && k <= |b.Retimed(e).timers|)
      ensures var s := b.Timed(e, timed, k);
        && s.Known(e) && (timed ==> s.On(e, Timeout)) && (!timed ==> s == b)
        && Without(s.timers, e) == Without(b.timers, e)
        && (s.On(e, Active) <==> b.On(e, Active) && !(timed && EvTimeout in b.res[e]))
        && s.events == b.events && s.fd == b.fd && s.pri == b.pri && s.res == b.res
    {
      if timed {
        b.RetimedReady(e);
        assert b.QueuedAt(e);
        var t := b.Retimed(e).timers;
        RetimedTimers(e);
        WithoutPlaced(t, k, e);
        WithoutAbsent(t, e);
      }
    }

    lemma RetimedTimers(e: Ptr)
      requires b.Valid() && b.Known(e)
      ensures b.Retimed(e).timers == Without(b.timers, e) && e !in Without(b.timers, e)
    {
      assert b.QueuedAt(e);
      WithoutElements(b.timers, e);
      if !b.On(e, Timeout) { WithoutAbsent(b.timers, e); }
    }

    static lemma WithoutPlaced(t: seq<Ptr>, k: nat, e: Ptr)
      requires k <= |t| && e !in t
      ensures Without(t[..k] + [e] + t[k..], e) == t
    {
      WithoutLeft(t[..k] + [e], t[k..], e);
      WithoutLeft(t[..k], [e], e);
      assert Without([e], e) == [];
      assert t[..k] + [] + t[k..] == t;
    }

    static lemma EnrolledMeans(s: Base, e: Ptr)
      requires s.Known(e) && (s.WantsSlot(e) ==> s.Insertable(e))
      ensures var t := s.Enrolled(e);
        && (t.On(e, Active) <==> s.On(e, Active)) && (t.On(e, Timeout) <==> s.On(e, Timeout)) && t.timers == s.timers
        && ((EvRead in s.events[e] || EvWrite in s.events[e]) && !s.On(e, Active) ==> t.On(e, Inserted))
        && (EvSignal in s.events[e] && EvRead !in s.events[e] && EvWrite !in s.events[e] ==> t.On(e, Signal))
        && t.events == s.events && t.fd == s.fd && t.pri == s.pri && t.res == s.res
    {
    }

    // ---- one call of a callback ----

    /** The callback performs the actions one after the other. */
    ghost predicate Performed(actions: seq<Action>, m1: Machine)
      decreases |actions|
    {
      if actions == [] then m1 == this else
        var n := |actions| - 1;
        exists p: Machine {:trigger p.Acted(actions[n], m1)} :: Performed(actions[..n], p) && p.Acted(actions[n], m1)
    }

    lemma PerformedMore(actions: seq<Action>, p: Machine, a: Action, m1: Machine)
      requires Performed(actions, p) && p.Acted(a, m1)
      ensures Performed(actions + [a], m1)
    {
      var all := actions + [a];
      assert all[..|all| - 1] == actions;
      assert p.Acted(all[|all| - 1], m1);
    }

    /** No active queue has grown. */
    ghost predicate Fewer(m1: Machine) {
      && |m1.b.activequeues| == |b.activequeues|
      && forall j {:trigger m1.b.activequeues[j]} :: 0 <= j < |b.activequeues| ==>
           |m1.b.activequeues[j]| <= |b.activequeues[j]|
    }

    lemma LosesFewer(e: Ptr, m1: Machine)
      requires Loses(e, m1)
      ensures Fewer(m1)
    {
      forall j | 0 <= j < |b.activequeues| ensures |m1.b.activequeues[j]| <= |b.activequeues[j]| {
        WithoutShorter(b.activequeues[j], e);
      }
    }

    /** What the actions of a callback make of the active queues and of the loop. */
    ghost predicate Bounded(breaks: bool, m1: Machine) {
      && m1.b.Valid() && Stays(m1) && Fewer(m1)
      && (m1.loop == loop || (m1.loop == 0 && breaks))
      && (!breaks ==> m1.b.activequeues == b.activequeues)
    }

    lemma {:induction false} PerformedBounded(actions: seq<Action>, m1: Machine)
      requires b.Valid() && Performed(actions, m1)
      ensures Bounded(Breaking(actions), m1)
      decreases |actions|
    {
      if actions != [] {
        var n := |actions| - 1;
        var p: Machine :| Performed(actions[..n], p) && p.Acted(actions[n], m1);
        PerformedBounded(actions[..n], p);
        p.ActedContained(actions[n], m1);
        p.LosesFewer(actions[n].ev, m1);
        BreakingMore(actions);
      }
    }

    static lemma BreakingMore(actions: seq<Action>)
      requires actions != []
      ensures var n := |actions| - 1; Breaking(actions) <==> Breaking(actions[..n]) || Breaks(actions[n])
    {
      var n := |actions| - 1;
      forall i | 0 <= i < n ensures actions[..n][i] == actions[i] {
      }
      if Breaking(actions) {
        var i :| 0 <= i < |actions| && Breaks(actions[i]);
        if i < n { assert Breaks(actions[..n][i]); }
      }
      if Breaking(actions[..n]) {
        var i :| 0 <= i < n && Breaks(actions[..n][i]);
        assert Breaks(actions[i]);
      }
    }

    /** A callback that deletes its own event ends the loop of its calls. */
    lemma {:induction false} PerformedCancels(actions: seq<Action>, e: Ptr, m1: Machine)
      requires b.Valid() && Performed(actions, m1) && e in b.flags && Looping(e)
      ensures Cancels(actions, e, |actions|) ==> m1.loop == 0
      ensures Steady(actions, e, |actions|) ==> e in m1.b.flags && m1.Looping(e)
      decreases |actions|
    {
      if actions != [] {
        var n := |actions| - 1;
        var p: Machine :| Performed(actions[..n], p) && p.Acted(actions[n], m1);
        PerformedBounded(actions[..n], p);
        PerformedCancels(actions[..n], e, p);
        OneMoreAction(actions, e);
        p.ActedContained(actions[n], m1);
        assert e != actions[n].ev ==> m1.b.Record(e) == p.b.Record(e);
      }
    }

    static lemma OneMoreAction(actions: seq<Action>, e: Ptr)
      requires actions != []
      ensures var n := |actions| - 1;
        && (Cancels(actions, e, n + 1) <==>
              Cancels(actions[..n], e, n) || (actions[n] == Del(e) && Steady(actions[..n], e, n)))
        && (Steady(actions, e, n + 1) <==> Steady(actions[..n], e, n) && !(actions[n].Set? && actions[n].ev == e))
    {
      var n := |actions| - 1;
      var c := actions[..n];
      forall i | 0 <= i < n ensures c[i] == actions[i] {
      }
      if Cancels(c, e, n) {
        var i :| 0 <= i < n && c[i] == Del(e) && Steady(c, e, i);
        assert actions[i] == Del(e) && Steady(actions, e, i);
      }
      if Cancels(actions, e, n + 1) {
        var i :| 0 <= i < n + 1 && actions[i] == Del(e) && Steady(actions, e, i);
        assert Steady(c, e, i);
        if i < n { assert c[i] == Del(e); }
      }
      if actions[n] == Del(e) && Steady(c, e, n) {
        assert Steady(actions, e, n);
      }
    }

    // ---- the calls of one event ----

    /** ncalls is decremented and stored in the event. */
    function Counted(e: Ptr): Machine
      requires loop > 0
    {
      this.(loop := loop - 1, due := due.(n := due.n[e := loop - 1]))
    }

    /** Then the callback is called. */
    ghost predicate CalledOnce(e: Ptr, actions: seq<Action>, m1: Machine) {
      loop > 0 && Counted(e).Performed(actions, m1)
    }

    ghost predicate Called(e: Ptr, calls: seq<seq<Action>>, m1: Machine)
      decreases |calls|
    {
      if calls == [] then m1 == this else
        var n := |calls| - 1;
        exists p: Machine {:trigger p.CalledOnce(e, calls[n], m1)} ::
          Called(e, calls[..n], p) && p.CalledOnce(e, calls[n], m1)
    }

    lemma CalledMore(e: Ptr, calls: seq<seq<Action>>, p: Machine, actions: seq<Action>, m1: Machine)
      requires Called(e, calls, p) && p.CalledOnce(e, actions, m1)
      ensures Called(e, calls + [actions], m1)
    {
      var all := calls + [actions];
      assert all[..|all| - 1] == calls;
      assert p.CalledOnce(e, all[|all| - 1], m1);
    }

    lemma CalledOnceBounded(e: Ptr, actions: seq<Action>, m1: Machine)
      requires b.Valid() && !b.On(e, Active) && CalledOnce(e, actions, m1)
      ensures m1.b.Valid() && Stays(m1) && Fewer(m1)
      ensures m1.loop == loop - 1 || (m1.loop == 0 && Breaking(actions))
      ensures !Breaking(actions) ==> m1.b.activequeues == b.activequeues
    {
      var m := Counted(e);
      m.PerformedBounded(actions, m1);
      assert forall x {:trigger m1.b.On(x, Active)} :: m1.b.On(x, Active) ==> m.b.On(x, Active);
    }

    /** Each call is one of those that were due; that fewer are made is because of the last
        one. */
    lemma {:induction false} CalledBounded(e: Ptr, calls: seq<seq<Action>>, m1: Machine)
      requires b.Valid() && !b.On(e, Active) && Called(e, calls, m1)
      ensures m1.b.Valid() && Stays(m1) && Fewer(m1)
      ensures |calls| <= loop
      ensures m1.loop == loop - |calls| || (m1.loop == 0 && calls != [] && Breaking(calls[|calls| - 1]))
      ensures !AnyBreaking(calls) ==> m1.b.activequeues == b.activequeues
      decreases |calls|
    {
      if calls != [] {
        var n := |calls| - 1;
        var p: Machine :| Called(e, calls[..n], p) && p.CalledOnce(e, calls[n], m1);
        CalledBounded(e, calls[..n], p);
        p.CalledOnceBounded(e, calls[n], m1);
        if AnyBreaking(calls[..n]) {
          var c :| 0 <= c < n && Breaking(calls[..n][c]);
          assert Breaking(calls[c]);
        }
      }
    }

    /** None of the first n calls sets e anew. */
    static ghost predicate Undisturbed(calls: seq<seq<Action>>, e: Ptr, n: nat) {
      forall c {:trigger calls[c]} :: 0 <= c < n && c < |calls| ==> Steady(calls[c], e, |calls[c]|)
    }

    /** None of the first n calls deletes the event, unless an earlier one has set it anew. */
    static ghost predicate Uncancelled(calls: seq<seq<Action>>, e: Ptr, n: nat) {
      forall c {:trigger calls[c]} :: 0 <= c < n && c < |calls| && Undisturbed(calls, e, c) ==>
        !Cancels(calls[c], e, |calls[c]|)
    }

    static lemma OneMoreCall(calls: seq<seq<Action>>, e: Ptr)
      requires calls != []
      ensures var n := |calls| - 1;
        && (Undisturbed(calls, e, n) <==> Undisturbed(calls[..n], e, n))
        && (Undisturbed(calls, e, n + 1) <==> Undisturbed(calls, e, n) && Steady(calls[n], e, |calls[n]|))
        && (Uncancelled(calls, e, n) <==> Uncancelled(calls[..n], e, n))
        && (Uncancelled(calls, e, n + 1) <==>
              Uncancelled(calls, e, n) && (Undisturbed(calls, e, n) ==> !Cancels(calls[n], e, |calls[n]|)))
    {
      var n := |calls| - 1;
      assert forall c {:trigger calls[..n][c]} {:trigger calls[c]} :: 0 <= c < n ==> calls[..n][c] == calls[c];
      forall k: nat | k <= n ensures Undisturbed(calls, e, k) <==> Undisturbed(calls[..n], e, k) {
      }
    }

    /** After a call that deletes the event none follows, provided that no call sets the event
        anew. */
    lemma {:induction false} CalledCancels(e: Ptr, calls: seq<seq<Action>>, m1: Machine)
      requires b.Valid() && !b.On(e, Active) && e in b.flags && e in due.p && Called(e, calls, m1)
      ensures Undisturbed(calls, e, |calls|) && m1.loop > 0 ==> e in m1.b.flags && e in m1.due.p
      ensures m1.loop > 0 ==> Uncancelled(calls, e, |calls|)
      ensures calls != [] ==> Uncancelled(calls, e, |calls| - 1)
      decreases |calls|
    {
      if calls != [] {
        var n := |calls| - 1;
        var p: Machine :| Called(e, calls[..n], p) && p.CalledOnce(e, calls[n], m1);
        CalledBounded(e, calls[..n], p);
        CalledCancels(e, calls[..n], p);
        OneMoreCall(calls, e);
        p.CalledOnceBounded(e, calls[n], m1);
        if e in p.b.flags && e in p.due.p { p.CalledOnceCancels(e, calls[n], m1); }
      }
    }

    lemma CalledOnceCancels(e: Ptr, actions: seq<Action>, m1: Machine)
      requires b.Valid() && !b.On(e, Active) && e in b.flags && e in due.p && CalledOnce(e, actions, m1)
      ensures m1.loop > 0 ==> !Cancels(actions, e, |actions|)
      ensures m1.loop > 0 && Steady(actions, e, |actions|) ==> e in m1.b.flags && e in m1.due.p
    {
      var m := Counted(e);
      m.PerformedBounded(actions, m1);
      if m.loop > 0 { m.PerformedCancels(actions, e, m1); }
    }

    // ---- the turn of one event ----

    /** The first event of queue i leaves it, and its calls are about to begin. */
    function Launched(e: Ptr): Machine
      requires b.Known(e)
    {
      this.(b := b.Removed(e, Active), loop := CallsOf(due.n, e), due := due.(p := due.p + {e}))
    }

    ghost predicate TurnTaken(i: int, t: Turn, m1: Machine) {
      && 0 <= i < |b.activequeues| && b.activequeues[i] != [] && t.ev == b.activequeues[i][0]
      && b.On(t.ev, Active) && b.Known(t.ev) && Launched(t.ev).Called(t.ev, t.calls, m1) && m1.loop == 0
    }

    /** The callback is called as often as event_active has said, or a call has taken the rest
        of the calls off. */
    static ghost predicate Exact(n: map<Ptr, nat>, t: Turn) {
      && |t.calls| <= CallsOf(n, t.ev)
      && (|t.calls| < CallsOf(n, t.ev) ==> t.calls != [] && Breaking(t.calls[|t.calls| - 1]))
      && (t.calls != [] ==> Uncancelled(t.calls, t.ev, |t.calls| - 1))
    }

    lemma LaunchedBounded(e: Ptr)
      requires b.Valid() && b.On(e, Active) && b.Known(e)
      ensures var m := Launched(e);
        && m.b.Valid() && !m.b.On(e, Active) && e in m.b.flags && e in m.due.p && Stays(m) && Fewer(m)
        && Left(b.activequeues, e, m.b.activequeues)
    {
      b.RemovedValid(e, Active);
      b.LeftOnRemoval(e);
      LosesFewer(e, Launched(e));
    }

    lemma TurnBounded(i: int, t: Turn, m1: Machine)
      requires b.Valid() && TurnTaken(i, t, m1)
      ensures m1.b.Valid() && Stays(m1) && Fewer(m1) && |m1.b.activequeues[i]| < |b.activequeues[i]|
      ensures Exact(due.n, t)
      ensures !AnyBreaking(t.calls) ==> Left(b.activequeues, t.ev, m1.b.activequeues)
    {
      LaunchedBounded(t.ev);
      Launched(t.ev).CalledBounded(t.ev, t.calls, m1);
      Launched(t.ev).CalledCancels(t.ev, t.calls, m1);
      WithoutShorter(b.activequeues[i], t.ev);
      assert Launched(t.ev).b.activequeues[i] == Without(b.activequeues[i], t.ev);
    }

    // ---- the loop over a queue ----

    ghost predicate TurnsTaken(i: int, turns: seq<Turn>, m1: Machine)
      decreases |turns|
    {
      if turns == [] then m1 == this else
        var n := |turns| - 1;
        exists p: Machine {:trigger p.TurnTaken(i, turns[n], m1)} ::
          TurnsTaken(i, turns[..n], p) && p.TurnTaken(i, turns[n], m1)
    }

    lemma TurnsMore(i: int, turns: seq<Turn>, p: Machine, t: Turn, m1: Machine)
      requires TurnsTaken(i, turns, p) && p.TurnTaken(i, t, m1)
      ensures TurnsTaken(i, turns + [t], m1)
    {
      var all := turns + [t];
      assert all[..|all| - 1] == turns;
      assert p.TurnTaken(i, all[|all| - 1], m1);
    }

    static ghost predicate AllExact(n: map<Ptr, nat>, turns: seq<Turn>) {
      forall j {:trigger turns[j]} :: 0 <= j < |turns| ==> Exact(n, turns[j])
    }

    static lemma AllExactMore(n: map<Ptr, nat>, turns: seq<Turn>)
      requires turns != [] && AllExact(n, turns[..|turns| - 1]) && Exact(n, turns[|turns| - 1])
      ensures AllExact(n, turns)
    {
      assert forall j {:trigger turns[j]} :: 0 <= j < |turns| - 1 ==> turns[j] == turns[..|turns| - 1][j];
    }

    static lemma ExactAlike(a: map<Ptr, nat>, b: map<Ptr, nat>, t: Turn)
      requires Exact(a, t) && CallsOf(a, t.ev) == CallsOf(b, t.ev)
      ensures Exact(b, t)
    {
    }

    /** Every event that runs is called exactly as often as event_active said before the loop
        began, unless one of its own calls ends that. */
    lemma {:induction false} TurnsExact(i: int, turns: seq<Turn>, m1: Machine)
      requires b.Valid() && TurnsTaken(i, turns, m1)
      ensures m1.b.Valid() && Stays(m1) && Fewer(m1) && AllExact(due.n, turns)
      decreases |turns|
    {
      if turns != [] {
        var n := |turns| - 1;
        var p: Machine :| TurnsTaken(i, turns[..n], p) && p.TurnTaken(i, turns[n], m1);
        TurnsExact(i, turns[..n], p);
        p.TurnBounded(i, turns[n], m1);
        StaysOn(p, m1);
        assert p.b.On(turns[n].ev, Active);
        ExactAlike(p.due.n, due.n, turns[n]);
        AllExactMore(due.n, turns);
      }
    }

    lemma StaysOn(p: Machine, m1: Machine)
      requires Stays(p) && p.Stays(m1) && Fewer(p) && p.Fewer(m1)
      ensures Stays(m1) && Fewer(m1)
    {
    }

    // ---- the events that leave the active queues ----

    lemma ActedDrains(a: Action, m1: Machine, aq: seq<seq<Ptr>>, i: int, log: seq<Leaving>) returns (log1: seq<Leaving>)
      requires Acted(a, m1) && Draining(aq, i, log, b.activequeues)
      ensures Draining(aq, i, log1, m1.b.activequeues) && Ran(log1) == Ran(log)
    {
      ActedContained(a, m1);
      log1 := log;
      if m1.b.activequeues != b.activequeues {
        log1 := log + [Leaving(a.ev, false)];
        DrainedOne(aq, i, log, b.activequeues, Leaving(a.ev, false), m1.b.activequeues);
      }
    }

    lemma {:induction false} PerformedDrains(actions: seq<Action>, m1: Machine,
                                             aq: seq<seq<Ptr>>, i: int, log: seq<Leaving>)
      returns (log1: seq<Leaving>)
      requires Performed(actions, m1) && Draining(aq, i, log, b.activequeues)
      ensures Draining(aq, i, log1, m1.b.activequeues) && Ran(log1) == Ran(log)
      decreases |actions|
    {
      log1 := log;
      if actions != [] {
        var n := |actions| - 1;
        var p: Machine :| Performed(actions[..n], p) && p.Acted(actions[n], m1);
        log1 := PerformedDrains(actions[..n], p, aq, i, log);
        log1 := p.ActedDrains(actions[n], m1, aq, i, log1);
      }
    }

    lemma {:induction false} CalledDrains(e: Ptr, calls: seq<seq<Action>>, m1: Machine,
                                          aq: seq<seq<Ptr>>, i: int, log: seq<Leaving>)
      returns (log1: seq<Leaving>)
      requires Called(e, calls, m1) && Draining(aq, i, log, b.activequeues)
      ensures Draining(aq, i, log1, m1.b.activequeues) && Ran(log1) == Ran(log)
      decreases |calls|
    {
      log1 := log;
      if calls != [] {
        var n := |calls| - 1;
        var p: Machine :| Called(e, calls[..n], p) && p.CalledOnce(e, calls[n], m1);
        log1 := CalledDrains(e, calls[..n], p, aq, i, log);
        var m := p.Counted(e);
        log1 := m.PerformedDrains(calls[n], m1, aq, i, log1);
      }
    }

    lemma TurnDrains(i: int, t: Turn, m1: Machine, aq: seq<seq<Ptr>>, log: seq<Leaving>) returns (log1: seq<Leaving>)
      requires b.Valid() && TurnTaken(i, t, m1) && Draining(aq, i, log, b.activequeues)
      ensures Draining(aq, i, log1, m1.b.activequeues) && Ran(log1) == Ran(log) + [t.ev]
    {
      LaunchedBounded(t.ev);
      log1 := log + [Leaving(t.ev, true)];
      assert Ran(log1) == Ran(log) + [t.ev] by { assert log1[..|log1| - 1] == log; }
      DrainedOne(aq, i, log, b.activequeues, Leaving(t.ev, true), Launched(t.ev).b.activequeues);
      log1 := Launched(t.ev).CalledDrains(t.ev, t.calls, m1, aq, i, log1);
    }

    /** While queue i is processed every event that leaves an active queue either runs, when all
        before it on queue i have left, or has been taken off by a call; the others stay. */
    lemma {:induction false} TurnsDrain(i: int, turns: seq<Turn>, m1: Machine) returns (log: seq<Leaving>)
      requires b.Valid() && TurnsTaken(i, turns, m1) && 0 <= i < |b.activequeues|
      ensures Draining(b.activequeues, i, log, m1.b.activequeues) && Ran(log) == Events(turns)
      decreases |turns|
    {
      if turns == [] {
        log := [];
        RemainingNow(b.activequeues);
      } else {
        var n := |turns| - 1;
        var p: Machine :| TurnsTaken(i, turns[..n], p) && p.TurnTaken(i, turns[n], m1);
        TurnsExact(i, turns[..n], p);
        log := TurnsDrain(i, turns[..n], p);
        log := p.TurnDrains(i, turns[n], m1, b.activequeues, log);
      }
    }

    // ---- how often every callback is called ----

    /** An event that is still active has not been called; one that was is called at most as
        often as event_active has said, and exactly so often when it has left and no call
        breaks a loop. Other events are not called. */
    ghost predicate Made(e: Ptr, made: nat, gentle: bool, m1: Machine) {
      && (m1.b.On(e, Active) || !b.On(e, Active) ==> made == 0)
      && (b.On(e, Active) ==> made <= CallsOf(due.n, e))
      && (gentle && b.On(e, Active) && !m1.b.On(e, Active) ==> made == CallsOf(due.n, e))
    }

    lemma {:induction false} TurnsCalls(i: int, turns: seq<Turn>, e: Ptr, m1: Machine)
      requires b.Valid() && TurnsTaken(i, turns, m1)
      ensures Made(e, CallsMade(turns, e), Gentle(turns), m1)
      decreases |turns|
    {
      if turns != [] {
        var n := |turns| - 1;
        var t := turns[n];
        var p: Machine :| TurnsTaken(i, turns[..n], p) && p.TurnTaken(i, t, m1);
        TurnsExact(i, turns[..n], p);
        TurnsCalls(i, turns[..n], e, p);
        GentleMore(turns);
        p.TurnCalls(i, t, e, m1);
        assert p.b.On(e, Active) ==> b.On(e, Active) && CallsOf(p.due.n, e) == CallsOf(due.n, e);
      }
    }

    lemma TurnCalls(i: int, t: Turn, e: Ptr, m1: Machine)
      requires b.Valid() && TurnTaken(i, t, m1)
      ensures Made(e, if t.ev == e then |t.calls| else 0, !AnyBreaking(t.calls), m1)
      ensures m1.b.On(e, Active) ==> b.On(e, Active)
    {
      TurnBounded(i, t, m1);
      LaunchedBounded(t.ev);
      Launched(t.ev).CalledBounded(t.ev, t.calls, m1);
      assert m1.b.On(e, Active) ==> Launched(t.ev).b.On(e, Active);
      if !AnyBreaking(t.calls) {
        ActiveAgain(t.ev, e, m1);
        if t.calls != [] { assert !Breaking(t.calls[|t.calls| - 1]); }
      }
    }

    /** Of the events in the active queues only e has gone. */
    lemma ActiveAgain(e: Ptr, x: Ptr, m1: Machine)
      requires b.Valid() && m1.b.Valid() && Left(b.activequeues, e, m1.b.activequeues) && Fewer(m1)
      ensures x != e && b.On(x, Active) ==> m1.b.On(x, Active)
    {
      assert b.QueuedAt(x) && m1.b.QueuedAt(x);
      if x != e && b.On(x, Active) {
        var i := b.pri[x];
        assert x in b.activequeues[i];
        WithoutElements(b.activequeues[i], e);
        assert x in m1.b.activequeues[i];
      }
    }

    /** If no call breaks a loop the first events of queue i run, each as often as event_active
        has said, and the other queues are as before. */
    lemma {:induction false} GentleTurns(i: int, turns: seq<Turn>, m1: Machine)
      requires b.Valid() && TurnsTaken(i, turns, m1) && Gentle(turns) && 0 <= i < |b.activequeues|
      ensures |m1.b.activequeues| == |b.activequeues| && b.activequeues[i] == Events(turns) + m1.b.activequeues[i]
      ensures forall j :: 0 <= j < |b.activequeues| && j != i ==> m1.b.activequeues[j] == b.activequeues[j]
      ensures |AllCalls(turns)| == SumCalls(due.n, Events(turns))
      decreases |turns|
    {
      if turns != [] {
        var n := |turns| - 1;
        var t := turns[n];
        var p: Machine :| TurnsTaken(i, turns[..n], p) && p.TurnTaken(i, t, m1);
        GentleMore(turns);
        GentleTurns(i, turns[..n], p);
        TurnsExact(i, turns[..n], p);
        p.GentleTurn(i, t, m1);
        assert p.b.On(t.ev, Active) ==> CallsOf(p.due.n, t.ev) == CallsOf(due.n, t.ev);
        SumMore(due.n, Events(turns[..n]), t.ev);
        Regrouped(Events(turns[..n]), [t.ev], m1.b.activequeues[i]);
      }
    }

    lemma GentleTurn(i: int, t: Turn, m1: Machine)
      requires b.Valid() && TurnTaken(i, t, m1) && !AnyBreaking(t.calls)
      ensures |m1.b.activequeues| == |b.activequeues| && b.activequeues[i] == [t.ev] + m1.b.activequeues[i]
      ensures forall j :: 0 <= j < |b.activequeues| && j != i ==> m1.b.activequeues[j] == b.activequeues[j]
      ensures |t.calls| == CallsOf(due.n, t.ev)
    {
      TurnBounded(i, t, m1);
      if t.calls != [] { assert !Breaking(t.calls[|t.calls| - 1]); }
      assert b.QueuedAt(t.ev);
      forall j | 0 <= j < |b.activequeues| && j != i ensures m1.b.activequeues[j] == b.activequeues[j] {
        assert t.ev in b.activequeues[i];
        WithoutAbsent(b.activequeues[j], t.ev);
      }
    }

    // ---- several rounds ----

    /** One call of event_process_active: the first queue that is not empty, until it is. */
    ghost predicate RoundTaken(r: Round, m1: Machine) {
      && b.countActive != 0 && FirstActive(r.queue, b.activequeues)
      && TurnsTaken(r.queue, r.turns, m1) && |m1.b.activequeues| == |b.activequeues| && m1.b.activequeues[r.queue] == []
    }

    ghost predicate RoundsTaken(rounds: seq<Round>, m1: Machine)
      decreases |rounds|
    {
      if rounds == [] then m1 == this else
        var n := |rounds| - 1;
        exists p: Machine {:trigger p.RoundTaken(rounds[n], m1)} ::
          RoundsTaken(rounds[..n], p) && p.RoundTaken(rounds[n], m1)
    }

    lemma RoundsMore(rounds: seq<Round>, p: Machine, r: Round, m1: Machine)
      requires RoundsTaken(rounds, p) && p.RoundTaken(r, m1)
      ensures RoundsTaken(rounds + [r], m1)
    {
      var all := rounds + [r];
      assert all[..|all| - 1] == rounds;
      assert p.RoundTaken(all[|all| - 1], m1);
    }

    /** Over all rounds, too, no callback is called more often than event_active has said, and
        each exactly so often if no call breaks a loop. */
    lemma {:induction false} RoundsCalls(rounds: seq<Round>, e: Ptr, m1: Machine)
      requires b.Valid() && RoundsTaken(rounds, m1)
      ensures m1.b.Valid() && Stays(m1) && Made(e, CallsInRounds(rounds, e), AllGentle(rounds), m1)
      decreases |rounds|
    {
      if rounds != [] {
        var n := |rounds| - 1;
        var p: Machine :| RoundsTaken(rounds[..n], p) && p.RoundTaken(rounds[n], m1);
        RoundsCalls(rounds[..n], e, p);
        p.TurnsExact(rounds[n].queue, rounds[n].turns, m1);
        p.TurnsCalls(rounds[n].queue, rounds[n].turns, e, m1);
        AllGentleMore(rounds);
        assert p.b.On(e, Active) ==> b.On(e, Active) && CallsOf(p.due.n, e) == CallsOf(due.n, e);
      }
    }

    /** A round makes the active queues shorter. */
    lemma RoundShrinks(r: Round, m1: Machine)
      requires b.Valid() && RoundTaken(r, m1)
      ensures Length(m1.b.activequeues) < Length(b.activequeues)
    {
      TurnsExact(r.queue, r.turns, m1);
      ShorterAt(b.activequeues, m1.b.activequeues, r.queue);
    }

    // ---- whole runs ----

    /** event_active from outside. */
    function Activated(e: Ptr, r: set<Ev>, calls: nat): Machine
      requires b.Known(e)
    {
      this.(b := b.Activated(e, r), due := if b.On(e, Active) then due else due.Begun(e, calls))
    }

    /** timeout_process at `now`, when the first k timers are due. */
    ghost predicate Expires(now: Timeval, k: nat, m1: Machine) {
      && DueUpTo(b.timers, key, now, k) && b.Expired(b.timers[..k], m1.b) && m1.key == key
      && OnceEach(due, b.timers[..k], m1.due) && (m1.loop == loop || m1.loop == 0)
    }

    /** epoll_dispatch for one descriptor of the table. */
    ghost predicate Serves(ready: Ready, m1: Machine)
      requires b.Valid() && 0 <= ready.fd < |b.slots|
    {
      && m1.b == b.Delivered(ready.fd, ready.Reads(), ready.Writes()) && m1.key == key
      && m1.due == DeliveredDue(b, due, ready.fd, ready.Reads(), ready.Writes())
      && (m1.loop == loop || m1.loop == 0)
    }

    /** timeout_correct */
    ghost predicate Shifted(off: Timeval, m1: Machine) {
      && m1 == this.(key := m1.key) && m1.key.Keys == key.Keys
      && forall e {:trigger m1.key[e]} :: e in key ==>
           m1.key[e] == if b.On(e, Timeout) then key[e].Sub(off) else key[e]
    }

    ghost predicate Processed(script: seq<seq<Action>>, turns: seq<Turn>, m1: Machine) {
      if b.countActive == 0 then m1 == this && turns == [] else
        FromScript(script, 0, AllCalls(turns)) && exists i :: RoundTaken(Round(i, turns), m1)
    }

    /** What happens when s happens, and which events run. */
    ghost predicate Happened(s: Happening, turns: seq<Turn>, m1: Machine) {
      && b.Valid() && m1.b.Valid() && (!s.Process? ==> turns == [])
      && match s
         case Call(a) => Acted(a, m1)
         case Internal(e) => m1 == if b.Unlinked(e) then this.(b := b.(internal := b.internal + {e})) else this
         case Activate(e, r, calls) => m1 == if b.Known(e) then Activated(e, r, calls) else this
         case Reported(ready) => if 0 <= ready.fd < |b.slots| then Serves(ready, m1) else m1 == this
         case Expire(now) => if now.Normal() then exists k: nat :: Expires(now, k, m1) else m1 == this
         case Back(off) => if off.Normal() then Shifted(off, m1) else m1 == this
         case Process(script) => Processed(script, turns, m1)
    }

    ghost predicate Follows(steps: seq<Happening>, runs: seq<seq<Turn>>, m1: Machine)
      decreases |steps|
    {
      && |runs| == |steps|
      && if steps == [] then m1 == this else
           var n := |steps| - 1;
           exists p: Machine {:trigger p.Happened(steps[n], runs[n], m1)} ::
             Follows(steps[..n], runs[..n], p) && p.Happened(steps[n], runs[n], m1)
    }

    lemma FollowsMore(steps: seq<Happening>, runs: seq<seq<Turn>>, p: Machine, s: Happening, turns: seq<Turn>,
                      m1: Machine)
      requires Follows(steps, runs, p) && p.Happened(s, turns, m1)
      ensures Follows(steps + [s], runs + [turns], m1)
    {
      var all, allRuns := steps + [s], runs + [turns];
      var n := |steps|;
      assert all[..n] == steps && allRuns[..n] == runs;
      assert p.Happened(all[n], allRuns[n], m1);
    }

    /** The calls of e that are still to come. */
    function Pending(e: Ptr): nat {
      if b.On(e, Active) then CallsOf(due.n, e) else 0
    }

    /** The calls of e that s asks for. */
    function Asked(s: Happening, e: Ptr): nat {
      match s
      case Activate(x, r, calls) => if x == e && b.Known(e) && !b.On(e, Active) then calls else 0
      case Reported(ready) =>
        if 0 <= ready.fd < |b.slots| && b.Got(ready.fd, ready.Reads(), ready.Writes(), e) != {} then 1 else 0
      case Expire(now) => if b.On(e, Timeout) && e in key && !now.Less(key[e]) then 1 else 0
      case _ => 0
    }

    /** No callback is called unless something has asked for the call. */
    lemma StepCalls(s: Happening, turns: seq<Turn>, m1: Machine, e: Ptr)
      requires Happened(s, turns, m1)
      ensures CallsMade(turns, e) + m1.Pending(e) <= Pending(e) + Asked(s, e)
    {
      match s
      case Call(a) => ActedContained(a, m1);
      case Internal(_) =>
      case Activate(_, _, _) =>
      case Reported(ready) =>
        if 0 <= ready.fd < |b.slots| { ServedCalls(ready, e, m1); }
      case Expire(now) =>
        if now.Normal() {
          var k: nat :| Expires(now, k, m1);
          ExpiredCalls(now, k, e, m1);
        }
      case Back(_) =>
      case Process(script) =>
        if b.countActive != 0 {
          var i :| RoundTaken(Round(i, turns), m1);
          TurnsExact(i, turns, m1);
          TurnsCalls(i, turns, e, m1);
        }
    }

    lemma ServedCalls(ready: Ready, e: Ptr, m1: Machine)
      requires b.Valid() && m1.b.Valid() && 0 <= ready.fd < |b.slots| && Serves(ready, m1)
      ensures m1.Pending(e) <= Pending(e) + Asked(Reported(ready), e)
    {
      assert b.QueuedAt(e) && m1.b.flags.Keys == b.flags.Keys;
      if e !in b.flags {
        assert !m1.b.On(e, Active);
      } else {
        b.DeliveredEvents(ready.fd, ready.Reads(), ready.Writes(), e);
        DeliveredOnce(b, due, ready.fd, ready.Reads(), ready.Writes(), e);
      }
    }

    lemma ExpiredCalls(now: Timeval, k: nat, e: Ptr, m1: Machine)
      requires b.Valid() && Expires(now, k, m1)
      ensures m1.Pending(e) <= Pending(e) + Asked(Expire(now), e)
    {
      assert b.QueuedAt(e);
      if e in b.timers[..k] {
        var i :| 0 <= i < k && b.timers[..k][i] == e;
        assert b.timers[i] == e;
      }
    }

    /** Over a whole run, too, the calls made and still to come are no more than those to come
        at first and those asked for since: one for every pass of timeout_process or readiness
        of a descriptor, and as many as event_active says. */
    lemma {:induction false} RunCalls(steps: seq<Happening>, runs: seq<seq<Turn>>, m1: Machine, e: Ptr)
      requires Follows(steps, runs, m1)
      ensures AllMade(runs, e) + m1.Pending(e) <= Pending(e) + AllAsked(steps, e)
      decreases |steps|
    {
      if steps != [] {
        var n := |steps| - 1;
        var p: Machine :| Follows(steps[..n], runs[..n], p) && p.Happened(steps[n], runs[n], m1);
        RunCalls(steps[..n], runs[..n], p, e);
        p.StepCalls(steps[n], runs[n], m1, e);
      }
    }

    /** When no event that counts is active any more, every event that was and that counts has
        been called exactly as often as event_active has said, if no call breaks a loop. */
    lemma AllCalled(rounds: seq<Round>, e: Ptr, m1: Machine)
      requires b.Valid() && RoundsTaken(rounds, m1) && AllGentle(rounds) && m1.b.countActive == 0
      requires b.On(e, Active) && e !in b.internal
      ensures CallsInRounds(rounds, e) == CallsOf(due.n, e)
    {
      RoundsCalls(rounds, e, m1);
      assert m1.b.QueuedAt(e);
      if m1.b.On(e, Active) { CountedActive(m1.b.activequeues, m1.b.pri[e], e, m1.b.internal); }
    }
  }

  function AllMade(runs: seq<seq<Turn>>, e: Ptr): nat {
    if runs == [] then 0 else AllMade(runs[..|runs| - 1], e) + CallsMade(runs[|runs| - 1], e)
  }

  function AllAsked(steps: seq<Happening>, e: Ptr): nat {
    if steps == [] then 0 else AllAsked(steps[..|steps| - 1], e) + MostAsked(steps[|steps| - 1], e)
  }

  /** The most calls of e that a step asks for in any state. */
  function MostAsked(s: Happening, e: Ptr): nat {
    match s
    case Activate(x, _, calls) => if x == e then calls else 0
    case Reported(_) => 1
    case Expire(_) => 1
    case _ => 0
  }

  /** The number of places taken on all queues. */
  function Length(qs: seq<seq<Ptr>>): nat {
    if qs == [] then 0 else |qs[0]| + Length(qs[1..])
  }

  lemma {:induction false} Shorter(a: seq<seq<Ptr>>, b: seq<seq<Ptr>>)
    requires |a| == |b| && forall j {:trigger b[j]} :: 0 <= j < |a| ==> |b[j]| <= |a[j]|
    ensures Length(b) <= Length(a)
  {
    if a != [] { Shorter(a[1..], b[1..]); }
  }

  lemma {:induction false} ShorterAt(a: seq<seq<Ptr>>, b: seq<seq<Ptr>>, i: int)
    requires |a| == |b| && forall j {:trigger b[j]} :: 0 <= j < |a| ==> |b[j]| <= |a[j]|
    requires 0 <= i < |a| && |b[i]| < |a[i]|
    ensures Length(b) < Length(a)
  {
    if i == 0 { Shorter(a[1..], b[1..]); } else { ShorterAt(a[1..], b[1..], i - 1); }
  }

  // ---- what the callbacks do ----

  /** The n-th call of a callback performs script[n]. */
  function Scripted(script: seq<seq<Action>>, n: nat): seq<Action> {
    if n < |script| then script[n] else []
  }

  /** The calls are those of the script from the n-th one on. */
  ghost predicate FromScript(script: seq<seq<Action>>, n: nat, calls: seq<seq<Action>>) {
    forall c {:trigger calls[c]} :: 0 <= c < |calls| ==> calls[c] == Scripted(script, n + c)
  }

  lemma FromScriptMore(script: seq<seq<Action>>, n: nat, a: seq<seq<Action>>, b: seq<seq<Action>>)
    requires FromScript(script, n, a) && FromScript(script, n + |a|, b)
    ensures FromScript(script, n, a + b)
  {
  }

  lemma ScriptMore(script: seq<seq<Action>>, turns: seq<Turn>, t: Turn)
    requires FromScript(script, 0, AllCalls(turns)) && FromScript(script, |AllCalls(turns)|, t.calls)
    ensures FromScript(script, 0, AllCalls(turns + [t]))
    ensures |AllCalls(turns + [t])| == |AllCalls(turns)| + |t.calls|
  {
    CallsMore(turns, t);
    FromScriptMore(script, 0, AllCalls(turns), t.calls);
  }

  /** The first k timers of o are due at `now`, the others are not. */
  ghost predicate DueUpTo(o: seq<Ptr>, key: map<Ptr, Timeval>, now: Timeval, k: nat) {
    && k <= |o|
    && forall i {:trigger o[i]} :: 0 <= i < |o| ==> o[i] in key && (i < k <==> !now.Less(key[o[i]]))
  }

  /** A callback does what the script says, so it breaks no loop if the script does not. */
  lemma {:induction false} GentleScript(script: seq<seq<Action>>, turns: seq<Turn>)
    requires FromScript(script, 0, AllCalls(turns)) && !AnyBreaking(script)
    ensures Gentle(turns)
  {
    if turns != [] {
      var n := |turns| - 1;
      var a, t := AllCalls(turns[..n]), turns[n];
      assert AllCalls(turns) == a + t.calls;
      forall c | 0 <= c < |a| ensures a[c] == Scripted(script, c) {
        assert AllCalls(turns)[c] == a[c];
      }
      GentleScript(script, turns[..n]);
      forall c | 0 <= c < |t.calls| ensures !Breaking(t.calls[c]) {
        assert AllCalls(turns)[|a| + c] == t.calls[c];
        assert t.calls[c] == Scripted(script, |a| + c);
      }
      forall j | 0 <= j < |turns| ensures !AnyBreaking(turns[j].calls) {
        if j < n { assert turns[..n][j] == turns[j]; }
      }
    }
  }

  lemma GentleNext(script: seq<seq<Action>>, rounds: seq<Round>, r: Round)
    requires FromScript(script, 0, AllCalls(r.turns))
    ensures !AnyBreaking(script) && AllGentle(rounds) ==> AllGentle(rounds + [r])
  {
    if !AnyBreaking(script) { GentleScript(script, r.turns); }
  }

  // ---- how many calls event_active asks for ----

  /** timeout_process asks for one call of every timer of x. */
  function FiredDue(d: Due, x: seq<Ptr>): Due {
    if x == [] then d else FiredDue(d, x[..|x| - 1]).Begun(x[|x| - 1], 1)
  }

  lemma FiredMore(d: Due, x: seq<Ptr>, e: Ptr)
    ensures FiredDue(d, x + [e]) == FiredDue(d, x).Begun(e, 1)
  {
    assert (x + [e])[..|x + [e]| - 1] == x;
  }

  lemma {:induction false} FiredOnce(d: Due, x: seq<Ptr>, e: Ptr)
    ensures CallsOf(FiredDue(d, x).n, e) == if e in x then 1 else CallsOf(d.n, e)
    ensures e in FiredDue(d, x).p <==> e in d.p && e !in x
  {
    if x != [] {
      FiredOnce(d, x[..|x| - 1], e);
      assert x == x[..|x| - 1] + [x[|x| - 1]];
    }
  }

  /** The events of x are to be called once, the others as often as before. */
  ghost predicate OnceEach(d: Due, x: seq<Ptr>, d1: Due) {
    && (forall e {:trigger CallsOf(d1.n, e)} :: CallsOf(d1.n, e) == if e in x then 1 else CallsOf(d.n, e))
    && (forall e {:trigger e in d1.p} :: e in d1.p <==> e in d.p && e !in x)
  }

  lemma AllFiredOnce(d: Due, x: seq<Ptr>)
    ensures OnceEach(d, x, FiredDue(d, x))
  {
    forall e {
      FiredOnce(d, x, e);
    }
  }

  /** epoll_dispatch asks for one call of an event that is not active. */
  function RaisedDue(s: Base, d: Due, e: Ptr): Due {
    if e == NULL || s.On(e, Active) then d else d.Begun(e, 1)
  }

  ghost function ServedDue(s: Base, d: Due, r: Ptr, w: Ptr): Due
    requires s.Valid() && (r != NULL ==> s.Known(r)) && (w != NULL ==> s.Known(w))
  {
    var c := s.Cleared(r).Cleared(if w == r then NULL else w);
    RaisedDue(c.Raised(r, EvRead), RaisedDue(c, d, r), w)
  }

  ghost function DeliveredDue(s: Base, d: Due, i: int, reads_: bool, writes_: bool): Due
    requires s.Valid() && 0 <= i < |s.slots|
  {
    s.EntryKnown(i);
    ServedDue(s, d, if reads_ then s.slots[i].evread else NULL, if writes_ then s.slots[i].evwrite else NULL)
  }

  /** Every event that gets something is called once, but if it has EV_PERSIST and is active
      already it is called as often as before. */
  lemma DeliveredOnce(s: Base, d: Due, i: int, reads_: bool, writes_: bool, e: Ptr)
    requires s.Valid() && 0 <= i < |s.slots| && s.Known(e)
    ensures var d1 := DeliveredDue(s, d, i, reads_, writes_);
      if s.Got(i, reads_, writes_, e) != {} && !(s.On(e, Active) && EvPersist in s.events[e]) then
        CallsOf(d1.n, e) == 1 && e !in d1.p
      else
        CallsOf(d1.n, e) == CallsOf(d.n, e) && (e in d1.p <==> e in d.p)
  {
    s.EntryKnown(i);
    var r := if reads_ then s.slots[i].evread else NULL;
    var w := if writes_ then s.slots[i].evwrite else NULL;
    ServedOnce(s, d, r, w, e);
    Base.GotNothing(e == r, e == w, s.Got(i, reads_, writes_, e));
  }

  lemma ServedOnce(s: Base, d: Due, r: Ptr, w: Ptr, e: Ptr)
    requires s.Valid() && (r != NULL ==> s.Known(r)) && (w != NULL ==> s.Known(w)) && s.Known(e)
    ensures var d1 := ServedDue(s, d, r, w);
      if (e == r || e == w) && !(s.On(e, Active) && EvPersist in s.events[e]) then
        CallsOf(d1.n, e) == 1 && e !in d1.p
      else
        CallsOf(d1.n, e) == CallsOf(d.n, e) && (e in d1.p <==> e in d.p)
  {
    s.ClearedBoth(r, w, e);
    RaisedOnce(s.Cleared(r).Cleared(if w == r then NULL else w), d, r, w, e);
  }

  lemma RaisedOnce(c: Base, d: Due, r: Ptr, w: Ptr, e: Ptr)
    requires c.Valid() && (r != NULL ==> c.Known(r)) && (w != NULL ==> c.Known(w)) && c.Known(e)
    ensures var d1 := RaisedDue(c.Raised(r, EvRead), RaisedDue(c, d, r), w);
      if (e == r || e == w) && !c.On(e, Active) then
        CallsOf(d1.n, e) == 1 && e !in d1.p
      else
        CallsOf(d1.n, e) == CallsOf(d.n, e) && (e in d1.p <==> e in d.p)
  {
    c.RaisedAt(r, EvRead, e);
  }

  /** An event without EV_PERSIST leaves its queues before it is made active. */
  function Dropped(s: Base, e: Ptr, q: seq<Ptr>): seq<Ptr> {
    if e != NULL && e in s.events && EvPersist !in s.events[e] then Without(q, e) else q
  }

  /** What e adds to the active queue of priority j. */
  function Joining(s: Base, e: Ptr, j: int): seq<Ptr>
    requires e != NULL ==> s.Known(e)
  {
    if e != NULL && !(s.On(e, Active) && EvPersist in s.events[e]) && s.pri[e] == j then [e] else []
  }

  /** The event for reading joins the end of its active queue before that for writing does. */
  lemma ServedQueues(s: Base, r: Ptr, w: Ptr, j: int)
    requires s.Valid() && (r != NULL ==> s.Known(r)) && (w != NULL ==> s.Known(w)) && 0 <= j < |s.activequeues|
    ensures s.Served(r, w).activequeues[j] ==
      Dropped(s, if w == r then NULL else w, Dropped(s, r, s.activequeues[j]))
      + Joining(s, r, j) + (if w == r then [] else Joining(s, w, j))
  {
    var w1 := if w == r then NULL else w;
    ClearedQueue(s, r, j);
    ClearedQueue(s.Cleared(r), w1, j);
    var c := s.Cleared(r).Cleared(w1);
    if r != NULL { s.ClearedBoth(r, w, r); }
    if w != NULL { s.ClearedBoth(r, w, w); }
    RaisedQueue(c, r, EvRead, j);
    RaisedQueue(c.Raised(r, EvRead), w, EvWrite, j);
    if w != NULL { c.RaisedAt(r, EvRead, w); }
  }

  lemma ClearedQueue(s: Base, e: Ptr, j: int)
    requires s.Valid() && (e != NULL ==> s.Known(e)) && 0 <= j < |s.activequeues|
    ensures s.Cleared(e).activequeues[j] == Dropped(s, e, s.activequeues[j])
  {
    if e != NULL {
      s.DeletedValid(e);
      s.DeletedLeft(e);
    }
  }

  lemma RaisedQueue(s: Base, e: Ptr, d: Ev, j: int)
    requires s.Valid() && (e != NULL ==> s.Known(e)) && 0 <= j < |s.activequeues|
    ensures s.Raised(e, d).activequeues[j] == s.activequeues[j] +
      (if e != NULL && !s.On(e, Active) && s.pri[e] == j then [e] else [])
  {
  }

  ghost function DispatchedDue(s: Base, d: Due, ready: seq<Ready>): Due
    requires s.Valid() && s.InTable(ready)
  {
    if ready == [] then d else
      var n := |ready| - 1;
      DeliveredDue(s.Dispatched(ready[..n]), DispatchedDue(s, d, ready[..n]), ready[n].fd,
                   ready[n].Reads(), ready[n].Writes())
  }

  lemma DispatchedDueStep(s: Base, d: Due, ready: seq<Ready>, i: nat)
    requires s.Valid() && s.InTable(ready) && i < |ready| && s.InTable(ready[..i]) && s.InTable(ready[..i + 1])
    ensures DispatchedDue(s, d, ready[..i + 1]) ==
      DeliveredDue(s.Dispatched(ready[..i]), DispatchedDue(s, d, ready[..i]), ready[i].fd,
                   ready[i].Reads(), ready[i].Writes())
  {
    assert ready[..i + 1][..i] == ready[..i];
  }

  /** One call of event_process_active. */
  datatype Round = Round(queue: int, turns: seq<Turn>)

  ghost predicate FirstActive(i: int, aq: seq<seq<Ptr>>) {
    0 <= i < |aq| && aq[i] != [] && forall j :: 0 <= j < i ==> aq[j] == []
  }

  /** The number of calls of the callback of e. */
  function CallsMade(turns: seq<Turn>, e: Ptr): nat {
    if turns == [] then 0
    else CallsMade(turns[..|turns| - 1], e) + (if turns[|turns| - 1].ev == e then |turns[|turns| - 1].calls| else 0)
  }

  function CallsInRounds(rounds: seq<Round>, e: Ptr): nat {
    if rounds == [] then 0 else CallsInRounds(rounds[..|rounds| - 1], e) + CallsMade(rounds[|rounds| - 1].turns, e)
  }

  function SumCalls(n: map<Ptr, nat>, q: seq<Ptr>): nat {
    if q == [] then 0 else SumCalls(n, q[..|q| - 1]) + CallsOf(n, q[|q| - 1])
  }

  lemma SumMore(n: map<Ptr, nat>, q: seq<Ptr>, e: Ptr)
    ensures SumCalls(n, q + [e]) == SumCalls(n, q) + CallsOf(n, e)
  {
    assert (q + [e])[..|q + [e]| - 1] == q;
  }

  predicate AnyBreaking(calls: seq<seq<Action>>) {
    exists c {:trigger calls[c]} :: 0 <= c < |calls| && Breaking(calls[c])
  }

  /** No call in any callback breaks a loop. */
  predicate Gentle(turns: seq<Turn>) {
    forall j {:trigger turns[j]} :: 0 <= j < |turns| ==> !AnyBreaking(turns[j].calls)
  }

  predicate AllGentle(rounds: seq<Round>) {
    forall j {:trigger rounds[j]} :: 0 <= j < |rounds| ==> Gentle(rounds[j].turns)
  }

  lemma GentleMore(turns: seq<Turn>)
    requires turns != []
    ensures Gentle(turns) ==> Gentle(turns[..|turns| - 1]) && !AnyBreaking(turns[|turns| - 1].calls)
  {
    var n := |turns| - 1;
    assert forall j {:trigger turns[..n][j]} :: 0 <= j < n ==> turns[..n][j] == turns[j];
  }

  lemma AllGentleMore(rounds: seq<Round>)
    requires rounds != []
    ensures AllGentle(rounds) ==> AllGentle(rounds[..|rounds| - 1]) && Gentle(rounds[|rounds| - 1].turns)
  {
    var n := |rounds| - 1;
    assert forall j {:trigger rounds[..n][j]} :: 0 <= j < n ==> rounds[..n][j] == rounds[j];
  }

  /** An active event that counts is counted. */
  lemma {:induction false} CountedActive(qs: seq<seq<Ptr>>, i: int, e: Ptr, internal: set<Ptr>)
    requires 0 <= i < |qs| && e in qs[i] && e !in internal
    ensures CountAll(qs, internal) > 0
  {
    if i == 0 { CountedIn(qs[0], e, internal); } else { CountedActive(qs[1..], i - 1, e, internal); }
  }

  lemma {:induction false} CountedIn(q: seq<Ptr>, e: Ptr, internal: set<Ptr>)
    requires e in q && e !in internal
    ensures Count(q, internal) > 0
  {
    if q[0] != e { CountedIn(q[1..], e, internal); }
  }

  /** The active queues were aq at first; the events of the log have left them, those of
      queue i that ran in their turn. */
  ghost predicate Draining(aq: seq<seq<Ptr>>, i: int, log: seq<Leaving>, now: seq<seq<Ptr>>) {
    && 0 <= i < |aq| && (forall j :: 0 <= j < |aq| ==> NoRepeats(aq[j]))
    && Remaining(aq, log, now) && InTurn(aq[i], log)
  }

  lemma DrainedOne(aq: seq<seq<Ptr>>, i: int, log: seq<Leaving>, aq1: seq<seq<Ptr>>, l: Leaving, aq2: seq<seq<Ptr>>)
    requires Draining(aq, i, log, aq1) && Left(aq1, l.ev, aq2)
    requires l.ran ==> aq1[i] != [] && aq1[i][0] == l.ev
    ensures Draining(aq, i, log + [l], aq2)
    ensures !l.ran ==> Ran(log + [l]) == Ran(log)
  {
    assert (log + [l])[..|log + [l]| - 1] == log;
    RemainingAfter(aq, log, aq1, l, aq2);
    InTurnAfter(aq[i], log, l);
  }
}

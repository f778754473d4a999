/** The bookkeeping of net/event.c and net/epoll.c as values: which event is on which queue,
    the two counters, the table of descriptors and the interest set of the kernel. */
module ReactorState {
  import opened EventTypes

  /** The EV_ bits of net/event.h:54-58. */
  datatype Ev = EvTimeout | EvRead | EvWrite | EvSignal | EvPersist

  /** The EVLIST_ bits that name a queue (net/event.h:44-47). */
  datatype Queue = Timeout | Inserted | Signal | Active

  /** One entry of the fds table (net/epoll.c:67-70). */
  datatype Slot = Slot(evread: Ptr, evwrite: Ptr) {
    function Mask(): set<Ev> {
      (if evread != NULL then {EvRead} else {}) + (if evwrite != NULL then {EvWrite} else {})
    }
  }

  /** The bits of epoll_wait, and one descriptor that it reports. HUP and ERR count as both
      directions. */
  datatype What = EpollIn | EpollOut | EpollErr | EpollHup
  datatype Ready = Ready(fd: int, what: set<What>) {
    predicate Reads() { what * {EpollIn, EpollErr, EpollHup} != {} }
    predicate Writes() { what * {EpollOut, EpollErr, EpollHup} != {} }
  }

  datatype Option<T> = None | Some(value: T)

  /** What a callback may do: event_set, event_add, event_del and event_priority_set. */
  datatype Action =
    | Set(ev: Ptr, fd: int, events: set<Ev>)
    | Add(ev: Ptr, tv: Option<Timeval>, now: Timeval)
    | Del(ev: Ptr)
    | Priority(ev: Ptr, pri: int)

  // ---- counting ----

  /** The events of s that count, the internal ones being left out. */
  function Count(s: seq<Ptr>, internal: set<Ptr>): nat {
    if s == [] then 0 else (if s[0] in internal then 0 else 1) + Count(s[1..], internal)
  }

  function CountAll(qs: seq<seq<Ptr>>, internal: set<Ptr>): nat {
    if qs == [] then 0 else Count(qs[0], internal) + CountAll(qs[1..], internal)
  }

  lemma {:induction false} CountAppend(a: seq<Ptr>, b: seq<Ptr>, internal: set<Ptr>)
    ensures Count(a + b, internal) == Count(a, internal) + Count(b, internal)
  {
    if a == [] {
      assert a + b == b;
    } else {
      assert (a + b)[1..] == a[1..] + b;
      CountAppend(a[1..], b, internal);
    }
  }

  lemma CountOne(s: seq<Ptr>, e: Ptr, internal: set<Ptr>)
    ensures Count(s + [e], internal) == Count(s, internal) + (if e in internal then 0 else 1)
  {
    CountAppend(s, [e], internal);
    assert Count([e], internal) == if e in internal then 0 else 1;
  }

  lemma CountPlaced(s: seq<Ptr>, k: nat, e: Ptr, internal: set<Ptr>)
    requires k <= |s|
    ensures Count(s[..k] + [e] + s[k..], internal) == Count(s, internal) + (if e in internal then 0 else 1)
  {
    CountAppend(s[..k] + [e], s[k..], internal);
    CountOne(s[..k], e, internal);
    CountAppend(s[..k], s[k..], internal);
    assert s[..k] + s[k..] == s;
  }

  lemma {:induction false} CountWithout(s: seq<Ptr>, e: Ptr, internal: set<Ptr>)
    requires e in s
    ensures Count(Without(s, e), internal) == Count(s, internal) - (if e in internal then 0 else 1)
  {
    if s[0] != e {
      CountWithout(s[1..], e, internal);
      assert ([s[0]] + Without(s[1..], e))[1..] == Without(s[1..], e);
    }
  }

  lemma {:induction false} CountAlike(s: seq<Ptr>, e: Ptr, a: set<Ptr>, b: set<Ptr>)
    requires e !in s
    requires forall x {:trigger x in a} {:trigger x in b} :: x != e ==> (x in a <==> x in b)
    ensures Count(s, a) == Count(s, b)
  {
    if s != [] { CountAlike(s[1..], e, a, b); }
  }

  lemma {:induction false} CountAllAlike(qs: seq<seq<Ptr>>, e: Ptr, a: set<Ptr>, b: set<Ptr>)
    requires forall i {:trigger qs[i]} :: 0 <= i < |qs| ==> e !in qs[i]
    requires forall x {:trigger x in a} {:trigger x in b} :: x != e ==> (x in a <==> x in b)
    ensures CountAll(qs, a) == CountAll(qs, b)
  {
    if qs != [] {
      CountAlike(qs[0], e, a, b);
      CountAllAlike(qs[1..], e, a, b);
    }
  }

  lemma {:induction false} CountAllUpdate(qs: seq<seq<Ptr>>, i: nat, q: seq<Ptr>, internal: set<Ptr>)
    requires i < |qs|
    ensures CountAll(qs[i := q], internal) == CountAll(qs, internal) - Count(qs[i], internal) + Count(q, internal)
  {
    if i > 0 {
      assert qs[i := q][1..] == qs[1..][i - 1 := q];
      CountAllUpdate(qs[1..], i - 1, q, internal);
    } else {
      assert qs[0 := q][1..] == qs[1..];
    }
  }

  lemma {:induction false} CountAllPositive(qs: seq<seq<Ptr>>, internal: set<Ptr>)
    requires CountAll(qs, internal) > 0
    ensures exists i :: 0 <= i < |qs| && qs[i] != []
  {
    if qs[0] == [] {
      CountAllPositive(qs[1..], internal);
      var i :| 0 <= i < |qs[1..]| && qs[1..][i] != [];
      assert qs[i + 1] != [];
    }
  }

  lemma {:induction false} EmptyCount(qs: seq<seq<Ptr>>, internal: set<Ptr>)
    requires forall i {:trigger qs[i]} :: 0 <= i < |qs| ==> qs[i] == []
    ensures CountAll(qs, internal) == 0
  {
    if qs != [] { EmptyCount(qs[1..], internal); }
  }

  lemma MaskEmpty(slot: Slot)
    ensures slot.Mask() == {} <==> slot.evread == NULL && slot.evwrite == NULL
    ensures EvRead in slot.Mask() <==> slot.evread != NULL
    ensures EvWrite in slot.Mask() <==> slot.evwrite != NULL
  {
    if slot.evread != NULL { assert EvRead in slot.Mask(); }
    if slot.evwrite != NULL { assert EvWrite in slot.Mask(); }
  }

  // ---- taking several events off a queue ----

  function Minus(s: seq<Ptr>, x: seq<Ptr>): seq<Ptr> {
    if s == [] then [] else (if s[0] in x then [] else [s[0]]) + Minus(s[1..], x)
  }

  lemma {:induction false} MinusElements(s: seq<Ptr>, x: seq<Ptr>)
    ensures forall e {:trigger e in Minus(s, x)} :: e in Minus(s, x) <==> e in s && e !in x
  {
    if s != [] { MinusElements(s[1..], x); }
  }

  lemma {:induction false} MinusNothing(s: seq<Ptr>)
    ensures Minus(s, []) == s
  {
    if s != [] { MinusNothing(s[1..]); }
  }

  lemma {:induction false} MinusOneMore(s: seq<Ptr>, x: seq<Ptr>, e: Ptr)
    requires NoRepeats(s)
    ensures Minus(s, x + [e]) == if e in s && e !in x then Without(Minus(s, x), e) else Minus(s, x)
  {
    if s != [] {
      MinusOneMore(s[1..], x, e);
      MinusElements(s[1..], x);
      assert s == [s[0]] + s[1..];
      if s[0] in x {
        assert Minus(s, x) == Minus(s[1..], x);
        assert Minus(s, x + [e]) == Minus(s[1..], x + [e]);
      } else {
        assert Minus(s, x) == [s[0]] + Minus(s[1..], x);
        assert Minus(s, x)[1..] == Minus(s[1..], x);
        if s[0] == e {
          assert e !in s[1..];
        } else {
          assert Minus(s, x + [e]) == [s[0]] + Minus(s[1..], x + [e]);
        }
      }
    }
  }

  /** The events of x with priority i, in the order of x. */
  function OfPriority(x: seq<Ptr>, pri: map<Ptr, int>, i: int): seq<Ptr> {
    if x == [] then [] else
      OfPriority(x[..|x| - 1], pri, i)
      + (if x[|x| - 1] in pri && pri[x[|x| - 1]] == i then [x[|x| - 1]] else [])
  }

  lemma {:induction false} OfPriorityElements(x: seq<Ptr>, pri: map<Ptr, int>, i: int)
    ensures forall e {:trigger e in OfPriority(x, pri, i)} ::
      e in OfPriority(x, pri, i) <==> e in x && e in pri && pri[e] == i
  {
    if x != [] {
      OfPriorityElements(x[..|x| - 1], pri, i);
      assert x == x[..|x| - 1] + [x[|x| - 1]];
    }
  }

  /** x is in increasing order of (timeout, address). */
  ghost predicate Ascending(x: seq<Ptr>, key: map<Ptr, Timeval>) {
    && (forall i {:trigger x[i]} :: 0 <= i < |x| ==> x[i] in key)
    && (forall i, j {:trigger x[i], x[j]} :: 0 <= i < j < |x| ==> Compare(key[x[i]], x[i], key[x[j]], x[j]) < 0)
  }

  /** The timers that fire reach each active queue in that order. */
  lemma {:induction false} OfPriorityAscending(x: seq<Ptr>, pri: map<Ptr, int>, i: int, key: map<Ptr, Timeval>)
    requires Ascending(x, key)
    ensures Ascending(OfPriority(x, pri, i), key)
  {
    if x != [] {
      var r := x[..|x| - 1];
      OfPriorityAscending(r, pri, i, key);
      OfPriorityElements(r, pri, i);
      var w := OfPriority(r, pri, i);
      forall a | 0 <= a < |w| ensures w[a] in key && Compare(key[w[a]], w[a], key[x[|x| - 1]], x[|x| - 1]) < 0 {
        assert w[a] in w;
        var b :| 0 <= b < |r| && r[b] == w[a];
        assert x[b] == w[a];
      }
    }
  }

  lemma {:induction false} WithoutLeft(a: seq<Ptr>, b: seq<Ptr>, e: Ptr)
    ensures Without(a + b, e) == if e in a then Without(a, e) + b else a + Without(b, e)
  {
    if a == [] {
      assert a + b == b;
    } else {
      assert (a + b)[1..] == a[1..] + b && (a + b)[0] == a[0];
      WithoutLeft(a[1..], b, e);
      Regrouped([a[0]], if e in a[1..] then Without(a[1..], e) else a[1..], if e in a[1..] then b else Without(b, e));
    }
  }

  lemma Regrouped(a: seq<Ptr>, b: seq<Ptr>, c: seq<Ptr>)
    ensures a + (b + c) == (a + b) + c
  {
  }

  lemma {:induction false} WithoutAbsent(s: seq<Ptr>, e: Ptr)
    requires e !in s
    ensures Without(s, e) == s
  {
    if s != [] { WithoutAbsent(s[1..], e); }
  }

  // ---- leaving the active queues ----

  /** aq after e has left it. */
  ghost predicate Left(aq: seq<seq<Ptr>>, e: Ptr, aq1: seq<seq<Ptr>>) {
    |aq1| == |aq| && forall i {:trigger aq1[i]} :: 0 <= i < |aq| ==> aq1[i] == Without(aq[i], e)
  }

  /** No action before the n-th one is an event_set of e. */
  predicate Steady(actions: seq<Action>, e: Ptr, n: nat) {
    forall j {:trigger actions[j]} :: 0 <= j < n && j < |actions| ==> !(actions[j].Set? && actions[j].ev == e)
  }

  /** One of the first n actions deletes e, and e was not set anew before. */
  predicate Cancels(actions: seq<Action>, e: Ptr, n: nat) {
    exists i {:trigger actions[i]} :: 0 <= i < n && i < |actions| && actions[i] == Del(e) && Steady(actions, e, i)
  }

  /** An event left its active queue, to be run or because event_del or event_add took it off. */
  datatype Leaving = Leaving(ev: Ptr, ran: bool)

  function Gone(log: seq<Leaving>): seq<Ptr> {
    if log == [] then [] else Gone(log[..|log| - 1]) + [log[|log| - 1].ev]
  }

  /** The active queues aq0 without the events of the log. */
  ghost predicate Remaining(aq0: seq<seq<Ptr>>, log: seq<Leaving>, aq: seq<seq<Ptr>>) {
    |aq| == |aq0| && forall i {:trigger aq[i]} :: 0 <= i < |aq0| ==> aq[i] == Minus(aq0[i], Gone(log))
  }

  /** Every event that ran was, at its turn, the first of q that had not left. */
  ghost predicate InTurn(q: seq<Ptr>, log: seq<Leaving>) {
    forall j {:trigger log[j]} :: 0 <= j < |log| && log[j].ran ==>
      Minus(q, Gone(log[..j])) != [] && Minus(q, Gone(log[..j]))[0] == log[j].ev
  }

  lemma RemainingNow(aq: seq<seq<Ptr>>)
    ensures Remaining(aq, [], aq)
  {
    forall i | 0 <= i < |aq| ensures aq[i] == Minus(aq[i], []) {
      MinusNothing(aq[i]);
    }
  }

  lemma RemainingAfter(aq0: seq<seq<Ptr>>, log: seq<Leaving>, aq: seq<seq<Ptr>>, l: Leaving, aq1: seq<seq<Ptr>>)
    requires Remaining(aq0, log, aq) && Left(aq, l.ev, aq1)
    requires forall i :: 0 <= i < |aq0| ==> NoRepeats(aq0[i])
    ensures Remaining(aq0, log + [l], aq1)
  {
    assert (log + [l])[..|log + [l]| - 1] == log;
    var x := Gone(log);
    forall i | 0 <= i < |aq0| ensures aq1[i] == Minus(aq0[i], x + [l.ev]) {
      MinusOneMore(aq0[i], x, l.ev);
      MinusElements(aq0[i], x);
      assert aq[i] == Minus(aq0[i], x);
      if l.ev !in aq[i] { WithoutAbsent(aq[i], l.ev); }
    }
  }

  lemma InTurnAfter(q: seq<Ptr>, log: seq<Leaving>, l: Leaving)
    requires InTurn(q, log)
    requires l.ran ==> Minus(q, Gone(log)) != [] && Minus(q, Gone(log))[0] == l.ev
    ensures InTurn(q, log + [l])
  {
    var w := log + [l];
    forall j | 0 <= j < |w| && w[j].ran ensures Minus(q, Gone(w[..j])) != [] && Minus(q, Gone(w[..j]))[0] == w[j].ev {
      if j < |log| { assert w[..j] == log[..j]; } else { assert w[..j] == log; }
    }
  }

  lemma {:induction false} WithoutShorter(s: seq<Ptr>, e: Ptr)
    ensures |Without(s, e)| == if e in s then |s| - 1 else |s|
  {
    if s != [] { WithoutShorter(s[1..], e); }
  }

  lemma MovedToEnd(a: seq<Ptr>, p: seq<Ptr>, e: Ptr)
    requires e !in p
    ensures Without(a + p, e) + [e] == (if e in a then Without(a, e) else a) + (p + [e])
  {
    WithoutLeft(a, p, e);
    WithoutAbsent(p, e);
    var b := if e in a then Without(a, e) else a;
    assert Without(a + p, e) == b + p;
    assert (b + p) + [e] == b + (p + [e]);
  }

  /** What one more fired event does to the active queue of priority i. */
  lemma FiredToEnd(q: seq<Ptr>, x: seq<Ptr>, e: Ptr, pri: map<Ptr, int>, i: int)
    requires NoRepeats(q) && e !in x && e in pri && (e in q ==> pri[e] == i)
    ensures Minus(q, x + [e]) + OfPriority(x + [e], pri, i)
      == if pri[e] == i then Without(Minus(q, x) + OfPriority(x, pri, i), e) + [e]
        else Minus(q, x) + OfPriority(x, pri, i)
  {
    FiredFrom(q, x, e);
    OfPriorityMore(x, e, pri, i);
    OfPriorityElements(x, pri, i);
    if i == pri[e] {
      MovedToEnd(Minus(q, x), OfPriority(x, pri, i), e);
    }
  }

  lemma FiredFrom(q: seq<Ptr>, x: seq<Ptr>, e: Ptr)
    requires NoRepeats(q) && e !in x
    ensures Minus(q, x + [e]) == if e in Minus(q, x) then Without(Minus(q, x), e) else Minus(q, x)
    ensures e in Minus(q, x) <==> e in q
  {
    MinusOneMore(q, x, e);
    MinusElements(q, x);
  }

  lemma OfPriorityMore(x: seq<Ptr>, e: Ptr, pri: map<Ptr, int>, i: int)
    requires e in pri
    ensures OfPriority(x + [e], pri, i) == OfPriority(x, pri, i) + (if pri[e] == i then [e] else [])
  {
    assert (x + [e])[..|x + [e]| - 1] == x;
  }

  datatype Base = Base(
      // the fields of every struct event: ev_fd, ev_events, ev_flags, ev_pri, ev_res
      fd: map<Ptr, int>,
      events: map<Ptr, set<Ev>>,
      flags: map<Ptr, set<Queue>>,
      pri: map<Ptr, int>,
      res: map<Ptr, set<Ev>>,
      internal: set<Ptr>,              // the events with EVLIST_INTERNAL
      timers: seq<Ptr>,                // the timer tree in its order
      eventqueue: seq<Ptr>,
      signalqueue: seq<Ptr>,
      activequeues: seq<seq<Ptr>>,
      count: int,                      // event_count
      countActive: int,                // event_count_active
      slots: seq<Slot>,                // the fds table of net/epoll.c
      kernel: map<int, set<Ev>>)       // the interest set of the epoll descriptor
  {
    predicate On(e: Ptr, q: Queue) {
      e in flags && q in flags[e]
    }

    predicate Known(e: Ptr) {
      && e in fd && e in events && e in flags && e in pri && e in res
      && 0 <= pri[e] < |activequeues| && e != NULL
    }

    function Weight(e: Ptr): int {
      if e in internal then 0 else 1
    }

    // ---- what every operation keeps ----

    /** e is on exactly the queues that its flags name. */
    ghost predicate QueuedAt(e: Ptr) {
      && (e in flags ==> Known(e))
      && (e in timers <==> On(e, Timeout))
      && (e in eventqueue <==> On(e, Inserted))
      && (e in signalqueue <==> On(e, Signal))
      && (forall i :: 0 <= i < |activequeues| ==> (e in activequeues[i] <==> On(e, Active) && pri[e] == i))
    }

    /** No event is on a queue twice. */
    ghost predicate Single() {
      && NoRepeats(timers) && NoRepeats(eventqueue) && NoRepeats(signalqueue)
      && (forall i :: 0 <= i < |activequeues| ==> NoRepeats(activequeues[i]))
    }

    ghost predicate Queued() {
      && |activequeues| > 0
      && Single()
      && (forall e {:trigger QueuedAt(e)} :: QueuedAt(e))
    }

    /** The counters are the numbers of memberships of the events that count. */
    ghost predicate Counted() {
      && countActive == CountAll(activequeues, internal)
      && count == Count(timers, internal) + Count(eventqueue, internal) + Count(signalqueue, internal)
                  + CountAll(activequeues, internal)
    }

    /** Every inserted event is in the table under its descriptor, in its directions. */
    ghost predicate InsertedAt(e: Ptr) {
      && (On(e, Signal) ==> e in events && EvSignal in events[e])
      && (On(e, Inserted) ==>
        && e != NULL && e in events && e in fd && EvSignal !in events[e]
        && (EvRead in events[e] || EvWrite in events[e])
        && 0 <= fd[e] < |slots|
        && (EvRead in events[e] ==> slots[fd[e]].evread == e)
        && (EvWrite in events[e] ==> slots[fd[e]].evwrite == e))
    }

    /** The table holds nothing else, and the kernel's interest is what the table holds. */
    ghost predicate SlotAt(i: int)
      requires 0 <= i < |slots|
    {
      var r, w := slots[i].evread, slots[i].evwrite;
      && (r != NULL ==> On(r, Inserted) && r in events && EvRead in events[r] && r in fd && fd[r] == i)
      && (w != NULL ==> On(w, Inserted) && w in events && EvWrite in events[w] && w in fd && fd[w] == i)
      && (i in kernel <==> slots[i].Mask() != {})
      && (i in kernel ==> kernel[i] == slots[i].Mask())
    }

    ghost predicate Mirrored() {
      && (forall e {:trigger InsertedAt(e)} :: InsertedAt(e))
      && (forall i {:trigger SlotAt(i)} :: 0 <= i < |slots| ==> SlotAt(i))
      && (forall i {:trigger i in kernel} :: i in kernel ==> 0 <= i < |slots|)
    }

    ghost predicate Valid() {
      Queued() && Counted() && Mirrored()
    }

    lemma EmptyValid()
      requires flags == map[] && timers == eventqueue == signalqueue == [] && count == countActive == 0 &&
        kernel == map[]
      requires |activequeues| > 0 && forall i {:trigger activequeues[i]} :: 0 <= i < |activequeues| ==>
        activequeues[i] == []
      requires forall i {:trigger slots[i]} :: 0 <= i < |slots| ==> slots[i] == Slot(NULL, NULL)
      ensures Valid()
    {
      EmptyCount(activequeues, internal);
      forall i | 0 <= i < |slots| ensures SlotAt(i) {
        MaskEmpty(slots[i]);
      }
    }

    // ---- event_queue_remove and event_queue_insert (net/event.c:711-796) ----

    function Removed(e: Ptr, q: Queue): Base
      requires Known(e)
    {
      var s := this.(flags := flags[e := flags[e] - {q}], count := count - Weight(e));
      match q
      case Timeout => s.(timers := Without(timers, e))
      case Inserted => s.(eventqueue := Without(eventqueue, e))
      case Signal => s.(signalqueue := Without(signalqueue, e))
      case Active => s.(activequeues := activequeues[pri[e] := Without(activequeues[pri[e]], e)],
                        countActive := countActive - Weight(e))
    }

    /** The place k matters for the timer tree only; the other queues grow at their tail. */
    function InsertedInto(e: Ptr, q: Queue, k: nat): Base
      requires Known(e) && k <= |timers|
    {
      var s := this.(flags := flags[e := flags[e] + {q}], count := count + Weight(e));
      match q
      case Timeout => s.(timers := timers[..k] + [e] + timers[k..])
      case Inserted => s.(eventqueue := eventqueue + [e])
      case Signal => s.(signalqueue := signalqueue + [e])
      case Active => s.(activequeues := activequeues[pri[e] := activequeues[pri[e]] + [e]],
                        countActive := countActive + Weight(e))
    }

    lemma RemovedSingle(e: Ptr, q: Queue)
      requires Single() && Known(e)
      ensures Removed(e, q).Single()
    {
      WithoutElements(timers, e);
      WithoutElements(eventqueue, e);
      WithoutElements(signalqueue, e);
      WithoutElements(activequeues[pri[e]], e);
    }

    lemma RemovedQueuedAt(e: Ptr, q: Queue, x: Ptr)
      requires Single() && Known(e) && QueuedAt(e) && QueuedAt(x) && On(e, q)
      ensures Removed(e, q).QueuedAt(x)
    {
      match q
      case Timeout => WithoutElements(timers, e);
      case Inserted => WithoutElements(eventqueue, e);
      case Signal => WithoutElements(signalqueue, e);
      case Active => WithoutElements(activequeues[pri[e]], e);
    }

    lemma RemovedQueued(e: Ptr, q: Queue)
      requires Queued() && On(e, q)
      ensures Known(e) && Removed(e, q).Queued()
    {
      assert QueuedAt(e);
      RemovedSingle(e, q);
      forall x ensures Removed(e, q).QueuedAt(x) {
        assert QueuedAt(x);
        RemovedQueuedAt(e, q, x);
      }
    }

    lemma RemovedCounted(e: Ptr, q: Queue)
      requires Queued() && Counted() && On(e, q)
      ensures Known(e) && Removed(e, q).Counted()
    {
      assert QueuedAt(e);
      match q
      case Timeout => CountWithout(timers, e, internal);
      case Inserted => CountWithout(eventqueue, e, internal);
      case Signal => CountWithout(signalqueue, e, internal);
      case Active =>
        var a := Without(activequeues[pri[e]], e);
        CountWithout(activequeues[pri[e]], e, internal);
        CountAllUpdate(activequeues, pri[e], a, internal);
    }

    lemma InsertedSingle(e: Ptr, q: Queue, k: nat)
      requires Single() && QueuedAt(e) && Known(e) && !On(e, q) && k <= |timers|
      ensures InsertedInto(e, q, k).Single()
    {
    }

    lemma InsertedQueuedAt(e: Ptr, q: Queue, k: nat, x: Ptr)
      requires Known(e) && QueuedAt(x) && k <= |timers|
      ensures InsertedInto(e, q, k).QueuedAt(x)
    {
      assert timers == timers[..k] + timers[k..];
    }

    lemma InsertedQueued(e: Ptr, q: Queue, k: nat)
      requires Queued() && Known(e) && !On(e, q) && k <= |timers|
      ensures InsertedInto(e, q, k).Queued()
    {
      assert QueuedAt(e);
      InsertedSingle(e, q, k);
      forall x ensures InsertedInto(e, q, k).QueuedAt(x) {
        assert QueuedAt(x);
        InsertedQueuedAt(e, q, k, x);
      }
    }

    lemma InsertedCounted(e: Ptr, q: Queue, k: nat)
      requires Counted() && Known(e) && k <= |timers|
      ensures InsertedInto(e, q, k).Counted()
    {
      match q
      case Timeout => CountPlaced(timers, k, e, internal);
      case Inserted => CountOne(eventqueue, e, internal);
      case Signal => CountOne(signalqueue, e, internal);
      case Active =>
        CountOne(activequeues[pri[e]], e, internal);
        CountAllUpdate(activequeues, pri[e], activequeues[pri[e]] + [e], internal);
    }

    // ---- epoll_add and epoll_del (net/epoll.c:261-358) ----

    /** The directions of e join the entry of its descriptor, in the table and in the kernel. */
    function EpollAdded(e: Ptr): Base
      requires Known(e) && 0 <= fd[e] < |slots|
    {
      var slot := slots[fd[e]];
      var slot1 := Slot(if EvRead in events[e] then e else slot.evread,
                        if EvWrite in events[e] then e else slot.evwrite);
      this.(slots := slots[fd[e] := slot1], kernel := kernel[fd[e] := slot1.Mask()])
    }

    /** The directions of e leave the entry; an empty entry leaves the kernel. */
    function EpollDeleted(e: Ptr): Base
      requires Known(e) && 0 <= fd[e] < |slots|
    {
      var slot := slots[fd[e]];
      var slot1 := Slot(if EvRead in events[e] then NULL else slot.evread,
                        if EvWrite in events[e] then NULL else slot.evwrite);
      this.(slots := slots[fd[e] := slot1],
            kernel := if slot1.Mask() == {} then kernel - {fd[e]} else kernel[fd[e] := slot1.Mask()])
    }

    /** e can be put into the table: it is not there, and its directions are free. */
    predicate Insertable(e: Ptr) {
      && Known(e) && (EvRead in events[e] || EvWrite in events[e]) && EvSignal !in events[e]
      && 0 <= fd[e] < |slots|
      && (EvRead in events[e] ==> slots[fd[e]].evread == NULL)
      && (EvWrite in events[e] ==> slots[fd[e]].evwrite == NULL)
    }

    /** Other queues than eventqueue do not concern the table. */
    lemma OtherQueueMirrored(s: Base, e: Ptr)
      requires Mirrored()
      requires s.fd == fd && s.events == events && s.slots == slots && s.kernel == kernel
      requires forall x, q {:trigger s.On(x, q)} :: q == Inserted || (q == Signal && x != e) ==>
        (s.On(x, q) <==> On(x, q))
      requires s.On(e, Signal) ==> e in events && EvSignal in events[e]
      ensures s.Mirrored()
    {
      forall x ensures s.InsertedAt(x) {
        assert InsertedAt(x);
        assert s.On(x, Inserted) <==> On(x, Inserted);
        assert x != e ==> (s.On(x, Signal) <==> On(x, Signal));
      }
      forall i | 0 <= i < |slots| ensures s.SlotAt(i) {
        assert SlotAt(i);
        assert s.On(slots[i].evread, Inserted) <==> On(slots[i].evread, Inserted);
        assert s.On(slots[i].evwrite, Inserted) <==> On(slots[i].evwrite, Inserted);
      }
    }

    lemma AddedMirrored(e: Ptr)
      requires Mirrored() && Insertable(e) && !On(e, Inserted)
      ensures InsertedInto(e, Inserted, 0).EpollAdded(e).Mirrored()
    {
      var s := InsertedInto(e, Inserted, 0).EpollAdded(e);
      MaskEmpty(s.slots[fd[e]]);
      forall x ensures s.InsertedAt(x) {
        assert InsertedAt(x);
        assert InsertedAt(e);
      }
      forall i | 0 <= i < |slots| ensures s.SlotAt(i) {
        assert SlotAt(i);
      }
    }

    /** epoll_add keeps the table exactly if the directions of the event are free: an event
        that is in one of them would lose its entry. */
    lemma AddedMirroredExactly(e: Ptr)
      requires Valid() && Known(e) && !On(e, Inserted) && 0 <= fd[e] < |slots| && EvSignal !in events[e]
      requires EvRead in events[e] || EvWrite in events[e]
      ensures InsertedInto(e, Inserted, 0).EpollAdded(e).Mirrored() <==> Insertable(e)
    {
      if Insertable(e) {
        AddedMirrored(e);
      } else {
        assert SlotAt(fd[e]);
        var slot := slots[fd[e]];
        var r := if EvRead in events[e] && slot.evread != NULL then slot.evread else slot.evwrite;
        assert InsertedAt(r);
        assert r != e && r != NULL;
        assert !InsertedInto(e, Inserted, 0).EpollAdded(e).InsertedAt(r);
      }
    }

    lemma DeletedMirrored(e: Ptr)
      requires Mirrored() && Known(e) && On(e, Inserted)
      ensures 0 <= fd[e] < |slots| && Removed(e, Inserted).EpollDeleted(e).Mirrored()
    {
      assert InsertedAt(e);
      var s := Removed(e, Inserted).EpollDeleted(e);
      MaskEmpty(s.slots[fd[e]]);
      forall x ensures s.InsertedAt(x) {
        assert InsertedAt(x);
      }
      forall i | 0 <= i < |slots| ensures s.SlotAt(i) {
        assert SlotAt(i);
      }
    }

    // ---- event_del and event_active (net/event.c:578-641) ----

    /** event_del takes e off every queue, in this order, and out of the table. */
    function Deleted(e: Ptr): Base
      requires Known(e)
      requires On(e, Inserted) ==> 0 <= fd[e] < |slots|
    {
      Halted(e).Withdrawn(e)
    }

    function Halted(e: Ptr): Base
      requires Known(e)
    {
      var s1 := if On(e, Timeout) then Removed(e, Timeout) else this;
      if s1.On(e, Active) then s1.Removed(e, Active) else s1
    }

    lemma HaltedValid(e: Ptr)
      requires Valid() && Known(e)
      ensures Halted(e).Valid() && Halted(e).Known(e) && !Halted(e).On(e, Timeout) && !Halted(e).On(e, Active)
      ensures On(e, Timeout) ==> Removed(e, Timeout).Valid() && Removed(e, Timeout).Known(e)
      ensures forall q {:trigger Halted(e).On(e, q)} :: q == Inserted || q == Signal ==>
        (Halted(e).On(e, q) <==> On(e, q))
    {
      var s1 := if On(e, Timeout) then Removed(e, Timeout) else this;
      if On(e, Timeout) { RemovedValid(e, Timeout); }
      if s1.On(e, Active) { s1.RemovedValid(e, Active); }
    }

    function Withdrawn(e: Ptr): Base
      requires Known(e)
      requires On(e, Inserted) ==> 0 <= fd[e] < |slots|
    {
      if On(e, Inserted) then Removed(e, Inserted).EpollDeleted(e)
      else if On(e, Signal) then Removed(e, Signal)
      else this
    }

    predicate Unlinked(e: Ptr) {
      Known(e) && !On(e, Timeout) && !On(e, Inserted) && !On(e, Signal) && !On(e, Active)
    }

    lemma RemovedValid(e: Ptr, q: Queue)
      requires Valid() && On(e, q) && q != Inserted
      ensures Known(e) && Removed(e, q).Valid()
    {
      RemovedQueued(e, q);
      RemovedCounted(e, q);
      assert QueuedAt(e);
      assert InsertedAt(e);
      OtherQueueMirrored(Removed(e, q), e);
    }

    lemma InsertedValid(e: Ptr, q: Queue, k: nat)
      requires Valid() && Known(e) && !On(e, q) && q != Inserted && k <= |timers|
      requires q == Signal ==> EvSignal in events[e]
      ensures InsertedInto(e, q, k).Valid()
    {
      InsertedQueued(e, q, k);
      InsertedCounted(e, q, k);
      assert InsertedAt(e);
      OtherQueueMirrored(InsertedInto(e, q, k), e);
    }

    lemma AddedValid(e: Ptr)
      requires Valid() && Insertable(e) && !On(e, Inserted)
      ensures InsertedInto(e, Inserted, 0).EpollAdded(e).Valid()
    {
      var s := InsertedInto(e, Inserted, 0);
      InsertedQueued(e, Inserted, 0);
      InsertedCounted(e, Inserted, 0);
      AddedMirrored(e);
      s.TableQueued(s.EpollAdded(e));
    }

    lemma DeletedInsertedValid(e: Ptr)
      requires Valid() && On(e, Inserted)
      ensures Known(e) && 0 <= fd[e] < |slots| && Removed(e, Inserted).EpollDeleted(e).Valid()
    {
      assert QueuedAt(e);
      assert InsertedAt(e);
      RemovedQueued(e, Inserted);
      RemovedCounted(e, Inserted);
      DeletedMirrored(e);
      Removed(e, Inserted).TableQueued(Removed(e, Inserted).EpollDeleted(e));
    }

    /** The table does not concern the queues. */
    lemma TableQueued(s: Base)
      requires s == this.(slots := s.slots, kernel := s.kernel) && Queued() && Counted()
      ensures s.Queued() && s.Counted()
    {
      forall x ensures s.QueuedAt(x) {
        assert QueuedAt(x);
      }
    }

    /** After event_del the event is on no queue and in no entry of the table. */
    lemma DeletedValid(e: Ptr)
      requires Valid() && Known(e)
      ensures On(e, Inserted) ==> 0 <= fd[e] < |slots|
      ensures Deleted(e).Valid() && Deleted(e).Unlinked(e)
    {
      assert InsertedAt(e);
      HaltedValid(e);
      Halted(e).WithdrawnValid(e);
    }

    lemma WithdrawnValid(e: Ptr)
      requires Valid() && Known(e)
      ensures On(e, Inserted) ==> 0 <= fd[e] < |slots|
      ensures Withdrawn(e).Valid() && Withdrawn(e).Known(e)
      ensures !Withdrawn(e).On(e, Inserted) && !Withdrawn(e).On(e, Signal)
      ensures forall q {:trigger Withdrawn(e).On(e, q)} :: q == Timeout || q == Active ==>
        (Withdrawn(e).On(e, q) <==> On(e, q))
    {
      assert InsertedAt(e);
      if On(e, Inserted) {
        DeletedInsertedValid(e);
      } else if On(e, Signal) {
        RemovedValid(e, Signal);
      }
    }

    /** event_active adds r to the result of an active event, or queues the event with r. */
    function Activated(e: Ptr, r: set<Ev>): Base
      requires Known(e)
    {
      if On(e, Active) then this.(res := res[e := res[e] + r])
      else this.(res := res[e := r]).InsertedInto(e, Active, 0)
    }

    lemma ResultValid(e: Ptr, r: set<Ev>)
      requires Valid() && Known(e)
      ensures this.(res := res[e := r]).Valid()
    {
      var s := this.(res := res[e := r]);
      forall x ensures s.QueuedAt(x) {
        assert QueuedAt(x);
      }
      assert s.Single();
      assert InsertedAt(e);
      OtherQueueMirrored(s, e);
    }

    lemma ActivatedValid(e: Ptr, r: set<Ev>)
      requires Valid() && Known(e)
      ensures Activated(e, r).Valid()
    {
      if On(e, Active) {
        ResultValid(e, res[e] + r);
      } else {
        ResultValid(e, r);
        this.(res := res[e := r]).InsertedValid(e, Active, 0);
      }
    }

    // ---- event_add (net/event.c:512-576) ----

    /** event_add with a timeout first takes the event off the tree, and off its active queue
        if it is active because of a timeout. */
    function Retimed(e: Ptr): Base
      requires Known(e)
    {
      var s1 := if On(e, Timeout) then Removed(e, Timeout) else this;
      if s1.On(e, Active) && EvTimeout in res[e] then s1.Removed(e, Active) else s1
    }

    /** event_add with a timeout takes e off its active queue. */
    predicate Replaced(e: Ptr) {
      On(e, Active) && e in res && EvTimeout in res[e]
    }

    lemma RetimedValid(e: Ptr)
      requires Valid() && Known(e)
      ensures Retimed(e).Valid() && Retimed(e).Known(e) && !Retimed(e).On(e, Timeout)
      ensures forall q {:trigger Retimed(e).On(e, q)} :: q == Inserted || q == Signal ==>
        (Retimed(e).On(e, q) <==> On(e, q))
    {
      var s1 := if On(e, Timeout) then Removed(e, Timeout) else this;
      if On(e, Timeout) { RemovedValid(e, Timeout); }
      if s1.On(e, Active) && EvTimeout in res[e] { s1.RemovedValid(e, Active); }
    }

    /** With or without a timeout, whose place in the tree is k. */
    function Timed(e: Ptr, timed: bool, k: nat): Base
      requires Known(e) && (timed ==> Retimed(e).Known(e) && k <= |Retimed(e).timers|)
    {
      if timed then Retimed(e).InsertedInto(e, Timeout, k) else this
    }

    /** The event can be added: its directions are free if event_add will want them. It will
        not want them while the event is active, unless a timeout made it so and event_add is
        to replace that timeout. */
    predicate AddReady(e: Ptr, timed: bool)
      requires Known(e)
    {
      (EvRead in events[e] || EvWrite in events[e]) && !On(e, Inserted)
      && !(On(e, Active) && !(timed && EvTimeout in res[e]))
      ==> Insertable(e)
    }

    /** event_set is for events on no queue, event_add and event_del for events that event_set
        has filled in, event_add also for free directions of a descriptor in the table. */
    predicate Allowed(a: Action) {
      match a
      case Set(e, f, evs) => e != NULL && (e in flags ==> Unlinked(e))
      case Add(e, tv, now) => Known(e) && now.Normal() && (tv.Some? ==> tv.value.Normal()) && AddReady(e, tv.Some?)
      case Del(e) => Known(e)
      case Priority(e, p) => Known(e)
    }

    lemma TimedReady(e: Ptr, timed: bool, k: nat)
      requires Valid() && Known(e) && (timed ==> Retimed(e).Known(e) && k <= |Retimed(e).timers|) && AddReady(e, timed)
      ensures var s := Timed(e, timed, k); s.Known(e) && (s.WantsSlot(e) ==> s.Insertable(e))
    {
      if timed { RetimedReady(e); }
    }

    lemma RetimedReady(e: Ptr)
      requires Valid() && Known(e)
      ensures var s := Retimed(e);
        && s.Known(e) && s.fd == fd && s.events == events && s.slots == slots
        && (s.On(e, Inserted) <==> On(e, Inserted))
        && (s.On(e, Active) <==> On(e, Active) && EvTimeout !in res[e])
    {
    }

    /** What event_add does about descriptors and signals. */
    predicate WantsSlot(e: Ptr)
      requires Known(e)
    {
      (EvRead in events[e] || EvWrite in events[e]) && !On(e, Inserted) && !On(e, Active)
    }

    predicate WantsSignal(e: Ptr)
      requires Known(e)
    {
      !WantsSlot(e) && EvSignal in events[e] && !On(e, Signal)
    }

    function Enrolled(e: Ptr): Base
      requires Known(e) && (WantsSlot(e) ==> Insertable(e))
    {
      if WantsSlot(e) then InsertedInto(e, Inserted, 0).EpollAdded(e)
      else if WantsSignal(e) then InsertedInto(e, Signal, 0)
      else this
    }

    lemma EnrolledValid(e: Ptr)
      requires Valid() && Known(e) && (WantsSlot(e) ==> Insertable(e))
      ensures Enrolled(e).Valid()
    {
      if WantsSlot(e) {
        AddedValid(e);
      } else if WantsSignal(e) {
        InsertedValid(e, Signal, 0);
      }
    }

    // ---- event_set (net/event.c:441-456) ----

    function Initialised(e: Ptr, f: int, evs: set<Ev>): Base {
      this.(fd := fd[e := f], events := events[e := evs], flags := flags[e := {}], internal := internal - {e},
            pri := pri[e := |activequeues| / 2], res := if e in res then res else res[e := {}])
    }

    lemma InitialisedValid(e: Ptr, f: int, evs: set<Ev>)
      requires Valid() && e != NULL && (e in flags ==> Unlinked(e))
      ensures Initialised(e, f, evs).Valid() && Initialised(e, f, evs).Unlinked(e)
    {
      var s := Initialised(e, f, evs);
      assert QueuedAt(e);
      forall x ensures s.QueuedAt(x) {
        assert QueuedAt(x);
      }
      assert s.Single();
      forall x ensures s.InsertedAt(x) {
        assert InsertedAt(x);
      }
      forall i | 0 <= i < |slots| ensures s.SlotAt(i) {
        assert SlotAt(i);
      }
      CountsAlike(e, internal, s.internal);
    }

    // ---- event_priority_set (net/event.c:475-485) ----

    /** An active event keeps its priority, and no event gets one without a queue. */
    function Prioritised(e: Ptr, p: int): Base
      requires Known(e)
    {
      if On(e, Active) || p < 0 || p >= |activequeues| then this else this.(pri := pri[e := p])
    }

    lemma PrioritisedValid(e: Ptr, p: int)
      requires Valid() && Known(e)
      ensures Prioritised(e, p).Valid() && OthersKept(Prioritised(e, p), e)
    {
      var s := Prioritised(e, p);
      forall x ensures s.QueuedAt(x) {
        assert QueuedAt(x);
      }
      assert s.Single();
      assert InsertedAt(e);
      OtherQueueMirrored(s, e);
    }

    /** Whether an event on no queue is internal does not matter to the counters. */
    lemma CountsAlike(e: Ptr, a: set<Ptr>, b: set<Ptr>)
      requires QueuedAt(e) && !On(e, Timeout) && !On(e, Inserted) && !On(e, Signal) && !On(e, Active)
      requires forall x {:trigger x in a} {:trigger x in b} :: x != e ==> (x in a <==> x in b)
      ensures Count(timers, a) == Count(timers, b) && Count(eventqueue, a) == Count(eventqueue, b)
      ensures Count(signalqueue, a) == Count(signalqueue, b) && CountAll(activequeues, a) == CountAll(activequeues, b)
    {
      CountAlike(timers, e, a, b);
      CountAlike(eventqueue, e, a, b);
      CountAlike(signalqueue, e, a, b);
      CountAllAlike(activequeues, e, a, b);
    }

    /** evsignal_init marks the event of the signal socket (net/signal.c:111). */
    lemma InternalValid(e: Ptr)
      requires Valid() && Unlinked(e)
      ensures this.(internal := internal + {e}).Valid()
    {
      var s := this.(internal := internal + {e});
      assert QueuedAt(e);
      forall x ensures s.QueuedAt(x) {
        assert QueuedAt(x);
      }
      assert s.Single();
      CountsAlike(e, internal, s.internal);
      OtherQueueMirrored(s, e);
    }

    lemma RetimedStepsValid(e: Ptr)
      requires Valid() && Known(e)
      ensures On(e, Timeout) ==> Removed(e, Timeout).Valid() && Removed(e, Timeout).Known(e)
    {
      if On(e, Timeout) { RemovedValid(e, Timeout); }
    }

    // ---- timeout_process (net/event.c:687-709) ----

    /** What timeout_process does with one due timer: off the tree, event_del, event_active. */
    function Fired(e: Ptr): Base
      requires Known(e) && (On(e, Inserted) ==> 0 <= fd[e] < |slots|)
    {
      Detached(e).Activated(e, {EvTimeout})
    }

    function Detached(e: Ptr): (s: Base)
      requires Known(e) && (On(e, Inserted) ==> 0 <= fd[e] < |slots|)
      ensures s.Known(e)
    {
      Removed(e, Timeout).Deleted(e)
    }

    /** s is this state after the timers x have fired. */
    ghost predicate Expired(x: seq<Ptr>, s: Base) {
      && ExpiredRecords(x, s)
      && timers == x + s.timers
      && ExpiredQueues(x, s)
    }

    /** Their flags are EVLIST_ACTIVE alone, their results EV_TIMEOUT alone. */
    ghost predicate ExpiredRecords(x: seq<Ptr>, s: Base) {
      && s.fd == fd && s.events == events && s.pri == pri && s.internal == internal && |s.slots| == |slots|
      && s.flags.Keys == flags.Keys && s.res.Keys == res.Keys
      && (forall e {:trigger s.flags[e]} :: e in flags ==> s.flags[e] == if e in x then {Active} else flags[e])
      && (forall e {:trigger s.res[e]} :: e in res ==> s.res[e] == if e in x then {EvTimeout} else res[e])
    }

    /** They have left every queue and stand at the end of their active queues, in the order
        of x. */
    ghost predicate ExpiredQueues(x: seq<Ptr>, s: Base) {
      && s.eventqueue == Minus(eventqueue, x)
      && s.signalqueue == Minus(signalqueue, x)
      && |s.activequeues| == |activequeues|
      && (forall i {:trigger s.activequeues[i]} :: 0 <= i < |activequeues| ==>
            s.activequeues[i] == Minus(activequeues[i], x) + OfPriority(x, pri, i))
    }

    lemma DetachReady(e: Ptr)
      requires Valid() && On(e, Timeout)
      ensures Known(e) && (On(e, Inserted) ==> 0 <= fd[e] < |slots|)
      ensures Removed(e, Timeout).Valid() && Removed(e, Timeout).Known(e)
    {
      assert QueuedAt(e);
      assert InsertedAt(e);
      RemovedValid(e, Timeout);
    }

    lemma FiredValid(e: Ptr)
      requires Valid() && On(e, Timeout)
      ensures Known(e) && (On(e, Inserted) ==> 0 <= fd[e] < |slots|)
      ensures Removed(e, Timeout).Valid() && Removed(e, Timeout).Known(e)
      ensures Detached(e).Valid() && Detached(e).Unlinked(e)
      ensures Fired(e).Valid()
    {
      assert QueuedAt(e);
      assert InsertedAt(e);
      RemovedValid(e, Timeout);
      Removed(e, Timeout).DeletedValid(e);
      Detached(e).ActivatedValid(e, {EvTimeout});
    }

    /** event_del, field by field. */
    ghost predicate DeletedFields(e: Ptr, s: Base)
      requires Known(e)
    {
      && s.fd == fd && s.events == events && s.pri == pri && s.internal == internal && s.res == res
      && |s.slots| == |slots|
      && s.timers == Without(timers, e)
      && s.eventqueue == Without(eventqueue, e) && s.signalqueue == Without(signalqueue, e)
      && s.activequeues == activequeues[pri[e] := Without(activequeues[pri[e]], e)]
      && s.flags == flags[e := {}]
    }

    lemma HaltedFields(e: Ptr)
      requires Valid() && Known(e)
      ensures var s := Halted(e);
        && s.fd == fd && s.events == events && s.pri == pri && s.internal == internal && s.res == res
        && |s.slots| == |slots|
        && s.timers == Without(timers, e)
        && s.eventqueue == eventqueue && s.signalqueue == signalqueue
        && s.activequeues == activequeues[pri[e] := Without(activequeues[pri[e]], e)]
        && s.flags == flags[e := flags[e] - {Timeout, Active}]
    {
      assert QueuedAt(e);
      if !On(e, Timeout) { WithoutAbsent(timers, e); }
      if !On(e, Active) { WithoutAbsent(activequeues[pri[e]], e); }
      var s1 := if On(e, Timeout) then Removed(e, Timeout) else this;
      assert s1.flags[e] == flags[e] - {Timeout};
      assert Halted(e).flags[e] == s1.flags[e] - {Active};
      assert Halted(e).flags[e] == flags[e] - {Timeout, Active};
    }

    lemma WithdrawnFields(e: Ptr)
      requires Valid() && Known(e) && !On(e, Timeout) && !On(e, Active)
      ensures On(e, Inserted) ==> 0 <= fd[e] < |slots|
      ensures var s := Withdrawn(e);
        && s.fd == fd && s.events == events && s.pri == pri && s.internal == internal && s.res == res
        && |s.slots| == |slots|
        && s.timers == timers && s.activequeues == activequeues
        && s.eventqueue == Without(eventqueue, e) && s.signalqueue == Without(signalqueue, e)
        && s.flags == flags[e := {}]
    {
      assert QueuedAt(e);
      assert InsertedAt(e);
      if !On(e, Inserted) { WithoutAbsent(eventqueue, e); }
      if !On(e, Signal) { WithoutAbsent(signalqueue, e); }
      var s := Withdrawn(e);
      forall q ensures q !in s.flags[e] {
        match q case Timeout => case Inserted => case Signal => case Active =>
      }
      assert s.flags[e] == {};
    }

    lemma DeletedFieldsHold(e: Ptr)
      requires Valid() && Known(e)
      ensures On(e, Inserted) ==> 0 <= fd[e] < |slots|
      ensures DeletedFields(e, Deleted(e))
    {
      assert InsertedAt(e);
      HaltedValid(e);
      HaltedFields(e);
      Halted(e).WithdrawnFields(e);
    }

    /** A timer that has left the tree and every other queue, field by field. */
    lemma DetachedFields(e: Ptr)
      requires Valid() && On(e, Timeout)
      ensures Known(e) && (On(e, Inserted) ==> 0 <= fd[e] < |slots|)
      ensures Removed(e, Timeout).Known(e)
      ensures var s := Detached(e);
        && s.Known(e) && s.fd == fd && s.events == events && s.pri == pri && s.internal == internal
        && |s.slots| == |slots| && s.res == res && s.flags == flags[e := {}]
        && s.timers == Without(timers, e)
        && s.eventqueue == Without(eventqueue, e) && s.signalqueue == Without(signalqueue, e)
        && s.activequeues == activequeues[pri[e] := Without(activequeues[pri[e]], e)]
    {
      FiredValid(e);
      var r := Removed(e, Timeout);
      r.DeletedFieldsHold(e);
      assert r.QueuedAt(e);
      WithoutAbsent(r.timers, e);
    }

    /** A fired event, field by field. */
    lemma FiredFields(e: Ptr)
      requires Valid() && On(e, Timeout)
      ensures Known(e) && (On(e, Inserted) ==> 0 <= fd[e] < |slots|)
      ensures var s := Fired(e);
        && s.fd == fd && s.events == events && s.pri == pri && s.internal == internal && |s.slots| == |slots|
        && s.timers == Without(timers, e)
        && s.eventqueue == Without(eventqueue, e) && s.signalqueue == Without(signalqueue, e)
        && s.activequeues == activequeues[pri[e] := Without(activequeues[pri[e]], e) + [e]]
        && s.flags == flags[e := {Active}] && s.res == res[e := {EvTimeout}]
    {
      DetachedFields(e);
      Detached(e).FreshlyActive(e, {EvTimeout});
    }

    lemma FreshlyActive(e: Ptr, r: set<Ev>)
      requires Known(e) && flags[e] == {}
      ensures Activated(e, r) == this.(res := res[e := r], flags := flags[e := {Active}], count := count + Weight(e),
        countActive := countActive + Weight(e), activequeues := activequeues[pri[e] := activequeues[pri[e]] + [e]])
    {
      assert flags[e] + {Active} == {Active};
    }

    lemma ExpiredNone()
      requires Valid()
      ensures Expired([], this)
    {
      MinusNothing(eventqueue);
      MinusNothing(signalqueue);
      assert timers == [] + timers;
      forall i | 0 <= i < |activequeues|
        ensures activequeues[i] == Minus(activequeues[i], []) + OfPriority([], pri, i)
      {
        MinusNothing(activequeues[i]);
        NothingAppended(activequeues[i], pri, i);
      }
    }

    static lemma NothingAppended(q: seq<Ptr>, pri: map<Ptr, int>, i: int)
      ensures q + OfPriority([], pri, i) == q
    {
    }

    /** Firing the first timer left extends the fired ones by one. */
    lemma ExpiredOne(x: seq<Ptr>, s: Base, e: Ptr)
      requires Valid() && s.Valid() && Expired(x, s) && s.timers != [] && e == s.timers[0]
      ensures s.On(e, Timeout) && s.Known(e) && (s.On(e, Inserted) ==> 0 <= s.fd[e] < |s.slots|)
      ensures s.Fired(e).Valid() && Expired(x + [e], s.Fired(e))
    {
      assert s.QueuedAt(e) && QueuedAt(e);
      s.FiredValid(e);
      s.FiredFields(e);
      ExpiredTimers(x, s.timers, e);
      ExpiredRecordsAfter(x, s, e, s.Fired(e));
      ExpiredQueuesAfter(x, s, e, s.Fired(e));
    }

    lemma ExpiredTimers(x: seq<Ptr>, rest: seq<Ptr>, e: Ptr)
      requires NoRepeats(timers) && timers == x + rest && rest != [] && e == rest[0]
      ensures e !in x && timers == x + [e] + Without(rest, e)
    {
      assert timers[|x|] == e;
      forall i | 0 <= i < |x| ensures x[i] != e {
        assert timers[i] == x[i];
      }
      assert rest == [e] + rest[1..];
    }

    lemma ExpiredRecordsAfter(x: seq<Ptr>, s: Base, e: Ptr, t: Base)
      requires ExpiredRecords(x, s) && Known(e)
      requires t.fd == fd && t.events == events && t.pri == pri && t.internal == internal && |t.slots| == |slots|
      requires t.flags == s.flags[e := {Active}] && t.res == s.res[e := {EvTimeout}]
      ensures ExpiredRecords(x + [e], t)
    {
    }

    lemma ExpiredQueuesAfter(x: seq<Ptr>, s: Base, e: Ptr, t: Base)
      requires Single() && QueuedAt(e) && Known(e) && s.QueuedAt(e) && s.Known(e) && s.pri == pri &&
        ExpiredQueues(x, s) && e !in x
      requires t.eventqueue == Without(s.eventqueue, e) && t.signalqueue == Without(s.signalqueue, e)
      requires t.activequeues == s.activequeues[pri[e] := Without(s.activequeues[pri[e]], e) + [e]]
      ensures ExpiredQueues(x + [e], t)
    {
      var y := x + [e];
      ExpiredQueue(eventqueue, x, s.eventqueue, e);
      ExpiredQueue(signalqueue, x, s.signalqueue, e);
      forall i | 0 <= i < |activequeues|
        ensures t.activequeues[i] == Minus(activequeues[i], y) + OfPriority(y, pri, i)
      {
        FiredToEnd(activequeues[i], x, e, pri, i);
      }
    }

    lemma ExpiredQueue(a: seq<Ptr>, x: seq<Ptr>, b: seq<Ptr>, e: Ptr)
      requires NoRepeats(a) && b == Minus(a, x) && e !in x
      ensures Without(b, e) == Minus(a, x + [e])
    {
      MinusOneMore(a, x, e);
      MinusElements(a, x);
      if e !in a { WithoutAbsent(b, e); }
    }

    // ---- epoll_dispatch (net/epoll.c:218-252) ----

    /** epoll_dispatch deletes an event without EV_PERSIST before it activates it. */
    ghost function Cleared(e: Ptr): (s: Base)
      requires Valid() && (e != NULL ==> Known(e))
      ensures s.Valid() && s.Shares(this)
    {
      if e != NULL && EvPersist !in events[e] then
        DeletedValid(e);
        DeletedFieldsHold(e);
        Deleted(e)
      else this
    }

    ghost function Raised(e: Ptr, r: Ev): (s: Base)
      requires Valid() && (e != NULL ==> Known(e))
      ensures s.Valid() && s.Shares(this)
    {
      if e != NULL then
        ActivatedValid(e, {r});
        Activated(e, {r})
      else this
    }

    /** What event_set has stored is the same. */
    ghost predicate Shares(s: Base) {
      && fd == s.fd && events == s.events && pri == s.pri && internal == s.internal
      && flags.Keys == s.flags.Keys && res.Keys == s.res.Keys && |activequeues| == |s.activequeues| &&
         |slots| == |s.slots|
    }

    lemma EntryKnown(i: int)
      requires Valid() && 0 <= i < |slots|
      ensures slots[i].evread != NULL ==> Known(slots[i].evread) && On(slots[i].evread, Inserted)
      ensures slots[i].evwrite != NULL ==> Known(slots[i].evwrite) && On(slots[i].evwrite, Inserted)
    {
      assert SlotAt(i);
      assert QueuedAt(slots[i].evread) && QueuedAt(slots[i].evwrite);
    }

    /** The events r and w, if there are such, are ready for reading and for writing. */
    ghost function Served(r: Ptr, w: Ptr): (s: Base)
      requires Valid() && (r != NULL ==> Known(r)) && (w != NULL ==> Known(w))
      ensures s.Valid() && s.Shares(this)
    {
      Cleared(r).Cleared(if w == r then NULL else w).Raised(r, EvRead).Raised(w, EvWrite)
    }

    /** Descriptor i is ready for reading, for writing or for both. */
    ghost function Delivered(i: int, reads_: bool, writes_: bool): (s: Base)
      requires Valid() && 0 <= i < |slots|
      ensures s.Valid() && s.Shares(this)
    {
      EntryKnown(i);
      Served(if reads_ then slots[i].evread else NULL, if writes_ then slots[i].evwrite else NULL)
    }

    ghost predicate InTable(ready: seq<Ready>) {
      forall i :: 0 <= i < |ready| ==> 0 <= ready[i].fd < |slots|
    }

    lemma DispatchedStep(ready: seq<Ready>, i: nat)
      requires Valid() && InTable(ready) && i < |ready|
      ensures InTable(ready[..i]) && InTable(ready[..i + 1])
      ensures Dispatched(ready[..i + 1]) ==
        Dispatched(ready[..i]).Delivered(ready[i].fd, ready[i].Reads(), ready[i].Writes())
    {
      assert ready[..i + 1][..i] == ready[..i];
    }

    /** The descriptors that epoll_wait reports, one after the other. */
    ghost function Dispatched(ready: seq<Ready>): (s: Base)
      requires Valid() && InTable(ready)
      ensures s.Valid() && s.Shares(this)
    {
      if ready == [] then this else
        var last := ready[|ready| - 1];
        Dispatched(ready[..|ready| - 1]).Delivered(last.fd, last.Reads(), last.Writes())
    }

    /** The events that the readiness of descriptor i means to e. */
    function Got(i: int, reads_: bool, writes_: bool, e: Ptr): set<Ev>
      requires 0 <= i < |slots|
    {
      (if reads_ && slots[i].evread == e then {EvRead} else {})
      + (if writes_ && slots[i].evwrite == e then {EvWrite} else {})
    }

    /** The readiness of a descriptor makes its events active and nothing else: an event
        without EV_PERSIST is then on no other queue, one with EV_PERSIST stays where it is. */
    lemma DeliveredEvents(i: int, reads_: bool, writes_: bool, e: Ptr)
      requires Valid() && 0 <= i < |slots| && Known(e)
      ensures var s, got := Delivered(i, reads_, writes_), Got(i, reads_, writes_, e);
        && s.Known(e)
        && (s.flags[e] == if got == {} then flags[e]
                          else if EvPersist in events[e] then flags[e] + {Active} else {Active})
        && (s.res[e] == if got == {} then res[e]
                        else if EvPersist in events[e] && On(e, Active) then res[e] + got else got)
    {
      EntryKnown(i);
      var r := if reads_ then slots[i].evread else NULL;
      var w := if writes_ then slots[i].evwrite else NULL;
      assert e != NULL;
      DeliveredBoth(r, w, e, Got(i, reads_, writes_, e));
    }

    lemma DeliveredBoth(r: Ptr, w: Ptr, e: Ptr, got: set<Ev>)
      requires Valid() && (r != NULL ==> Known(r)) && (w != NULL ==> Known(w)) && Known(e)
      requires got == (if e == r then {EvRead} else {}) + (if e == w then {EvWrite} else {})
      ensures var s := Served(r, w);
        && s.flags[e] == (if got == {} then flags[e]
                          else if EvPersist in events[e] then flags[e] + {Active} else {Active})
        && (s.res[e] == if got == {} then res[e]
                        else if EvPersist in events[e] && On(e, Active) then res[e] + got else got)
    {
      ClearedBoth(r, w, e);
      var c := Cleared(r).Cleared(if w == r then NULL else w);
      c.RaisedBoth(r, w, e);
      GotNothing(e == r, e == w, got);
      assert c.events[e] == events[e];
      assert {} + {Active} == {Active};
    }

    static lemma GotNothing(r: bool, w: bool, got: set<Ev>)
      requires got == (if r then {EvRead} else {}) + (if w then {EvWrite} else {})
      ensures got == {} <==> !r && !w
    {
      if r { assert EvRead in got; }
      if w { assert EvWrite in got; }
    }

    lemma ClearedBoth(r: Ptr, w: Ptr, e: Ptr)
      requires Valid() && (r != NULL ==> Known(r)) && (w != NULL ==> Known(w)) && Known(e)
      ensures var s := Cleared(r).Cleared(if w == r then NULL else w);
        && s.flags[e] == (if (e == r || e == w) && EvPersist !in events[e] then {} else flags[e])
        && s.res[e] == res[e]
    {
      ClearedAt(r, e);
      Cleared(r).ClearedAt(if w == r then NULL else w, e);
    }

    lemma RaisedBoth(r: Ptr, w: Ptr, e: Ptr)
      requires Valid() && (r != NULL ==> Known(r)) && (w != NULL ==> Known(w)) && Known(e)
      ensures var s, got := Raised(r, EvRead).Raised(w, EvWrite),
                            (if e == r then {EvRead} else {}) + (if e == w then {EvWrite} else {});
        && s.flags[e] == (if e == r || e == w then flags[e] + {Active} else flags[e])
        && s.res[e] == if got == {} then res[e] else if On(e, Active) then res[e] + got else got
    {
      RaisedAt(r, EvRead, e);
      var s1 := Raised(r, EvRead);
      s1.RaisedAt(w, EvWrite, e);
      if e == r && e == w {
        assert s1.flags[e] + {Active} == flags[e] + {Active};
        assert s1.res[e] + {EvWrite} == if On(e, Active) then res[e] + ({EvRead} + {EvWrite}) else {EvRead} + {EvWrite};
      }
    }

    lemma ClearedAt(c: Ptr, e: Ptr)
      requires Valid() && (c != NULL ==> Known(c)) && Known(e)
      ensures Cleared(c).flags[e] == if c == e && EvPersist !in events[e] then {} else flags[e]
      ensures Cleared(c).res[e] == res[e]
    {
      if c != NULL { DeletedFieldsHold(c); }
    }

    lemma RaisedAt(c: Ptr, r: Ev, e: Ptr)
      requires Valid() && (c != NULL ==> Known(c)) && Known(e)
      ensures Raised(c, r).flags[e] == if c == e then flags[e] + {Active} else flags[e]
      ensures Raised(c, r).res[e] == if c != e then res[e] else if On(e, Active) then res[e] + {r} else {r}
    {
      if c == e && On(e, Active) { assert flags[e] + {Active} == flags[e]; }
    }

    // ---- what the calls of a callback do to the active queues ----

    lemma LeftOnRemoval(e: Ptr)
      requires Queued() && On(e, Active)
      ensures Known(e) && Left(activequeues, e, Removed(e, Active).activequeues)
    {
      assert QueuedAt(e);
      forall i | 0 <= i < |activequeues| ensures Removed(e, Active).activequeues[i] == Without(activequeues[i], e) {
        if i != pri[e] { WithoutAbsent(activequeues[i], e); }
      }
    }

    /** event_del and event_add take at most their own event off an active queue and put none
        there. */
    lemma DeletedLeft(e: Ptr)
      requires Valid() && Known(e) && (On(e, Inserted) ==> 0 <= fd[e] < |slots|)
      ensures Left(activequeues, e, Deleted(e).activequeues)
    {
      assert QueuedAt(e);
      DeletedFieldsHold(e);
      forall i | 0 <= i < |activequeues| ensures Deleted(e).activequeues[i] == Without(activequeues[i], e) {
        if i != pri[e] { WithoutAbsent(activequeues[i], e); }
      }
    }

    lemma AddedLeft(e: Ptr, timed: bool, k: nat)
      requires Valid() && Known(e) && (timed ==> Retimed(e).Known(e) && k <= |Retimed(e).timers|)
      requires var s := Timed(e, timed, k); s.Known(e) && (s.WantsSlot(e) ==> s.Insertable(e))
      ensures var s := Timed(e, timed, k).Enrolled(e);
        s.activequeues == activequeues || Left(activequeues, e, s.activequeues)
    {
      if timed {
        var s1 := if On(e, Timeout) then Removed(e, Timeout) else this;
        if On(e, Timeout) { RemovedValid(e, Timeout); }
        if s1.On(e, Active) { s1.LeftOnRemoval(e); }
      }
    }

    // ---- what an operation on one event leaves alone ----

    /** s differs from this state in the records of e only. */
    ghost predicate OthersKept(s: Base, e: Ptr) {
      && |s.slots| == |slots|
      && forall x {:trigger s.Record(x)} :: x != e ==> s.Record(x) == Record(x)
    }

    /** ev_fd, ev_events and ev_flags of x. */
    function Record(x: Ptr): (Option<int>, Option<set<Ev>>, Option<set<Queue>>) {
      (if x in fd then Some(fd[x]) else None,
       if x in events then Some(events[x]) else None,
       if x in flags then Some(flags[x]) else None)
    }

    lemma AddedKeepsOthers(e: Ptr, timed: bool, k: nat)
      requires Valid() && Known(e) && (timed ==> Retimed(e).Known(e) && k <= |Retimed(e).timers|)
      requires var s := Timed(e, timed, k); s.Known(e) && (s.WantsSlot(e) ==> s.Insertable(e))
      ensures OthersKept(Timed(e, timed, k).Enrolled(e), e) && e in Timed(e, timed, k).Enrolled(e).flags
    {
      var s := Timed(e, timed, k);
      TimedKeepsOthers(e, timed, k);
      s.EnrolledKeepsOthers(e);
      var t := s.Enrolled(e);
      forall x | x != e ensures t.Record(x) == Record(x) {
        assert t.Record(x) == s.Record(x) && s.Record(x) == Record(x);
      }
    }

    lemma TimedKeepsOthers(e: Ptr, timed: bool, k: nat)
      requires Known(e) && (timed ==> Retimed(e).Known(e) && k <= |Retimed(e).timers|)
      ensures OthersKept(Timed(e, timed, k), e)
    {
    }

    lemma EnrolledKeepsOthers(e: Ptr)
      requires Known(e) && (WantsSlot(e) ==> Insertable(e))
      ensures OthersKept(Enrolled(e), e)
    {
    }

    lemma DeletedKeepsOthers(e: Ptr)
      requires Valid() && Known(e) && (On(e, Inserted) ==> 0 <= fd[e] < |slots|)
      ensures OthersKept(Deleted(e), e)
    {
      DeletedFieldsHold(e);
    }
  }
}

/** The event base of net/event.c with its epoll back end (net/epoll.c). */
module Reactor {
  import opened EventTypes
  import opened EventTree
  import opened ReactorState
  import opened Callbacks

  datatype CtlOp = CtlAdd | CtlMod | CtlDel

  class EventBase {
    const timetree: EventTree
    // struct event: ev_fd, ev_events, ev_flags, ev_pri, ev_res, ev_ncalls, ev_pncalls; the
    // timeout and the tree entry are in the timer tree
    var fd: map<Ptr, int>
    var events: map<Ptr, set<Ev>>
    var flags: map<Ptr, set<Queue>>
    var pri: map<Ptr, int>
    var res: map<Ptr, set<Ev>>
    var internal: set<Ptr>
    // struct event_base
    var eventqueue: seq<Ptr>
    var signalqueue: seq<Ptr>
    var activequeues: seq<seq<Ptr>>
    var eventCount: int
    var eventCountActive: int
    // ev_ncalls, the events whose ev_pncalls is set, and the variable it points to: the local
    // ncalls of event_process_active
    var ncalls: map<Ptr, nat>
    var pncalls: set<Ptr>
    var loopCalls: nat
    // struct epollop, and the interest set in the kernel
    var slots: seq<Slot>
    var kernel: map<int, set<Ev>>

    ghost function B(): Base
      reads this, timetree
    {
      Base(fd, events, flags, pri, res, internal, timetree.order, eventqueue, signalqueue,
           activequeues, eventCount, eventCountActive, slots, kernel)
    }

    /** What a program sees of B(): everything but the order of the timer tree. */
    function Records(): Base
      reads this
    {
      Base(fd, events, flags, pri, res, internal, [], eventqueue, signalqueue,
           activequeues, eventCount, eventCountActive, slots, kernel)
    }

    function D(): Due
      reads this
    {
      Due(ncalls, pncalls)
    }

    ghost function M(): Machine
      reads this, timetree
    {
      Machine(B(), timetree.key, D(), loopCalls)
    }

    ghost predicate Valid()
      reads this, timetree
    {
      timetree.Valid() && timetree.NormalKeys() && B().Valid()
    }

    constructor (npriorities: nat, nfiles: nat)
      requires npriorities > 0
      ensures Valid() && fresh(timetree)
      ensures flags == map[] && |activequeues| == npriorities && |slots| == nfiles
    {
      timetree := new EventTree();
      fd, events, flags, pri, res, internal := map[], map[], map[], map[], map[], {};
      eventqueue, signalqueue, activequeues := [], [], seq(npriorities, i => []);
      eventCount, eventCountActive := 0, 0;
      ncalls, pncalls, loopCalls := map[], {}, 0;
      slots, kernel := seq(nfiles, i => Slot(NULL, NULL)), map[];
      new;
      B().EmptyValid();
    }

    // ---- event_queue_remove, event_queue_insert ----

    /** RB_REMOVE for an event that is in the tree. */
    method TreeRemove(e: Ptr)
      requires timetree.Valid() && e in timetree.order
      modifies timetree
      ensures timetree.Valid() && timetree.key == old(timetree.key)
      ensures timetree.order == Without(old(timetree.order), e)
    {
      timetree.Member(e);
      var gone := timetree.Remove(e);
    }

    /** RB_INSERT for an event that is not in the tree: the assert of net/event.c:786 holds. */
    method TreeInsert(e: Ptr) returns (ghost k: nat)
      requires timetree.Valid() && e !in timetree.order && e in timetree.key && e != NULL
      modifies timetree
      ensures timetree.Valid() && timetree.key == old(timetree.key)
      ensures k <= |old(timetree.order)|
      ensures timetree.order == old(timetree.order[..k] + [e] + timetree.order[k..])
    {
      timetree.Member(e);
      ghost var o := timetree.order;
      var tmp;
      ghost var steps;
      tmp, steps := timetree.Insert(e);
      assert tmp == NULL;
      k :| 0 <= k <= |o| && timetree.order == o[..k] + [e] + o[k..];
    }

    method QueueRemoveFields(e: Ptr, q: Queue)
      requires timetree.Valid() && B().Known(e) && (q == Timeout ==> e in timetree.order)
      modifies `flags, `eventCount, `eventCountActive, `eventqueue, `signalqueue, `activequeues, timetree
      ensures timetree.Valid() && timetree.key == old(timetree.key)
      ensures var s := old(B().Removed(e, q));
        && flags == s.flags && eventCount == s.count && eventCountActive == s.countActive
        && eventqueue == s.eventqueue && signalqueue == s.signalqueue && activequeues == s.activequeues
        && timetree.order == s.timers
    {
      var docount := e !in internal;
      CountRemove(e, q, docount);
      match q
      case Active =>
        LeaveActive(e, docount);
      case Signal =>
        signalqueue := Without(signalqueue, e);
      case Timeout =>
        TreeRemove(e);
      case Inserted =>
        eventqueue := Without(eventqueue, e);
    }

    method CountRemove(e: Ptr, q: Queue, docount: bool)
      requires e in flags
      modifies `flags, `eventCount
      ensures flags == old(flags)[e := old(flags)[e] - {q}]
      ensures eventCount == old(eventCount) - (if docount then 1 else 0)
    {
      if docount {
        eventCount := eventCount - 1;
      }
      flags := flags[e := flags[e] - {q}];
    }

    method CountInsert(e: Ptr, q: Queue, docount: bool)
      requires e in flags
      modifies `flags, `eventCount
      ensures flags == old(flags)[e := old(flags)[e] + {q}]
      ensures eventCount == old(eventCount) + (if docount then 1 else 0)
    {
      if docount {
        eventCount := eventCount + 1;
      }
      flags := flags[e := flags[e] + {q}];
    }

    method LeaveActive(e: Ptr, docount: bool)
      requires e in pri && 0 <= pri[e] < |activequeues|
      modifies `eventCountActive, `activequeues
      ensures eventCountActive == old(eventCountActive) - (if docount then 1 else 0)
      ensures activequeues == old(activequeues)[pri[e] := Without(old(activequeues)[pri[e]], e)]
    {
      if docount {
        eventCountActive := eventCountActive - 1;
      }
      activequeues := activequeues[pri[e] := Without(activequeues[pri[e]], e)];
    }

    method QueueRemove(e: Ptr, q: Queue)
      requires timetree.Valid() && B().Queued() && B().On(e, q)
      modifies `flags, `eventCount, `eventCountActive, `eventqueue, `signalqueue, `activequeues, timetree
      ensures timetree.Valid() && timetree.key == old(timetree.key)
      ensures old(B().Known(e)) && B() == old(B().Removed(e, q))
    {
      assert B().QueuedAt(e);
      QueueRemoveFields(e, q);
    }

    method QueueInsertFields(e: Ptr, q: Queue) returns (ghost k: nat)
      requires timetree.Valid() && B().Known(e)
      requires q == Timeout ==> e in timetree.key && e !in timetree.order
      modifies `flags, `eventCount, `eventCountActive, `eventqueue, `signalqueue, `activequeues, timetree
      ensures timetree.Valid() && timetree.key == old(timetree.key)
      ensures k <= |old(timetree.order)| && (q != Timeout ==> k == 0)
      ensures var s := old(B()).InsertedInto(e, q, k);
        && flags == s.flags && eventCount == s.count && eventCountActive == s.countActive
        && eventqueue == s.eventqueue && signalqueue == s.signalqueue && activequeues == s.activequeues
        && timetree.order == s.timers
    {
      k := 0;
      var docount := e !in internal;
      CountInsert(e, q, docount);
      match q
      case Active =>
        if docount {
          eventCountActive := eventCountActive + 1;
        }
        activequeues := activequeues[pri[e] := activequeues[pri[e]] + [e]];
      case Signal =>
        signalqueue := signalqueue + [e];
      case Timeout =>
        k := TreeInsert(e);
      case Inserted =>
        eventqueue := eventqueue + [e];
    }

    method QueueInsert(e: Ptr, q: Queue) returns (ghost k: nat)
      requires timetree.Valid() && B().Queued() && B().Known(e) && !B().On(e, q)
      requires q == Timeout ==> e in timetree.key
      modifies `flags, `eventCount, `eventCountActive, `eventqueue, `signalqueue, `activequeues, timetree
      ensures timetree.Valid() && timetree.key == old(timetree.key)
      ensures k <= |old(timetree.order)| && (q != Timeout ==> k == 0)
      ensures B() == old(B()).InsertedInto(e, q, k)
    {
      assert B().QueuedAt(e);
      k := QueueInsertFields(e, q);
    }

    // ---- epoll_add and epoll_del ----

    /** epoll_ctl: ADD needs an absent descriptor, MOD and DEL a present one. */
    method EpollCtl(op: CtlOp, f: int, mask: set<Ev>) returns (ret: int)
      modifies `kernel
      ensures ret == if op == CtlAdd <==> f in old(kernel) then -1 else 0
      ensures kernel ==
        if ret != 0 then old(kernel) else if op == CtlDel then old(kernel) - {f} else old(kernel)[f := mask]
    {
      if op == CtlAdd <==> f in kernel {
        return -1;
      }
      ret := 0;
      match op
      case CtlAdd => kernel := kernel[f := mask];
      case CtlMod => kernel := kernel[f := mask];
      case CtlDel => kernel := kernel - {f};
    }

    method EpollAdd(e: Ptr) returns (ret: int)
      requires B().Known(e) && 0 <= fd[e] < |slots| && EvSignal !in events[e]
      requires EvRead in events[e] || EvWrite in events[e]
      requires fd[e] in kernel <==> slots[fd[e]].Mask() != {}
      modifies `slots, `kernel
      ensures ret == 0 && B() == old(B().EpollAdded(e))
    {
      var f := fd[e];
      ghost var slot1 := Slot(if EvRead in events[e] then e else slots[f].evread,
                               if EvWrite in events[e] then e else slots[f].evwrite);
      MaskEmpty(slots[f]);
      var op, mask: set<Ev> := CtlAdd, {};
      if slots[f].evread != NULL {
        mask := mask + {EvRead};
        op := CtlMod;
      }
      if slots[f].evwrite != NULL {
        mask := mask + {EvWrite};
        op := CtlMod;
      }
      if EvRead in events[e] {
        mask := mask + {EvRead};
      }
      if EvWrite in events[e] {
        mask := mask + {EvWrite};
      }
      assert mask == slot1.Mask();
      ret := EpollCtl(op, f, mask);
      if EvRead in events[e] {
        slots := slots[f := slots[f].(evread := e)];
      }
      if EvWrite in events[e] {
        slots := slots[f := slots[f].(evwrite := e)];
      }
    }

    method EpollDel(e: Ptr) returns (ret: int)
      requires B().Known(e) && 0 <= fd[e] < |slots| && EvSignal !in events[e]
      requires EvRead in events[e] || EvWrite in events[e]
      requires fd[e] in kernel
      modifies `slots, `kernel
      ensures ret == 0 && B() == old(B().EpollDeleted(e))
    {
      var f := fd[e];
      ghost var slot1 := Slot(if EvRead in events[e] then NULL else slots[f].evread,
                               if EvWrite in events[e] then NULL else slots[f].evwrite);
      MaskEmpty(slot1);
      var op, mask := CtlDel, events[e] * {EvRead, EvWrite};
      var needreaddelete, needwritedelete := true, true;
      if mask != {EvRead, EvWrite} {
        if EvRead in mask && slots[f].evwrite != NULL {
          needwritedelete, mask, op := false, {EvWrite}, CtlMod;
        } else if EvWrite in mask && slots[f].evread != NULL {
          needreaddelete, mask, op := false, {EvRead}, CtlMod;
        }
      }
      if needreaddelete {
        slots := slots[f := slots[f].(evread := NULL)];
      }
      if needwritedelete {
        slots := slots[f := slots[f].(evwrite := NULL)];
      }
      assert slots[f] == slot1;
      assert op == CtlMod ==> mask == slot1.Mask();
      ret := EpollCtl(op, f, mask);
    }

    // ---- event_set, event_add, event_del, event_active ----

    method EventSetFields(e: Ptr, f: int, evs: set<Ev>)
      modifies `fd, `events, `flags, `pri, `ncalls, `pncalls, `res, `internal
      ensures fd == old(fd)[e := f] && events == old(events)[e := evs] && flags == old(flags)[e := {}]
      ensures pri == old(pri)[e := |activequeues| / 2] && internal == old(internal) - {e}
      ensures res == if e in old(res) then old(res) else old(res)[e := {}]
      ensures D() == old(D()).Begun(e, 0)
    {
      fd := fd[e := f];
      events := events[e := evs];
      flags := flags[e := {}];
      internal := internal - {e};
      ncalls := ncalls[e := 0];
      pncalls := pncalls - {e};
      pri := pri[e := |activequeues| / 2];
      res := if e in res then res else res[e := {}];
    }

    /** event_set, which must not be given an event that is on a queue. */
    method EventSet(e: Ptr, f: int, evs: set<Ev>)
      requires Valid() && e != NULL && (e in flags ==> B().Unlinked(e))
      modifies `fd, `events, `flags, `pri, `ncalls, `pncalls, `res, `internal
      ensures Valid() && B().Unlinked(e)
      ensures B() == old(B().Initialised(e, f, evs))
      ensures D() == old(D()).Begun(e, 0)
    {
      B().InitialisedValid(e, f, evs);
      EventSetFields(e, f, evs);
    }

    /** evsignal_init marks the event of the signal socket pair. */
    method MarkInternal(e: Ptr)
      requires Valid() && B().Unlinked(e)
      modifies `internal
      ensures Valid() && internal == old(internal) + {e}
    {
      B().InternalValid(e);
      internal := internal + {e};
    }

    /** event_priority_set */
    method EventPrioritySet(e: Ptr, p: int) returns (ret: int)
      requires Valid() && B().Known(e)
      modifies `pri
      ensures Valid() && B() == old(B().Prioritised(e, p))
      ensures ret == if B().On(e, Active) || p < 0 || p >= |activequeues| then -1 else 0
      ensures pri == if ret == 0 then old(pri)[e := p] else old(pri)
    {
      B().PrioritisedValid(e, p);
      if Active in flags[e] {
        return -1;
      }
      if p < 0 || p >= |activequeues| {
        return -1;
      }
      pri := pri[e := p];
      ret := 0;
    }

    /** *ev->ev_pncalls = 0, if the event is being run in a loop. */
    method AbortLoop(e: Ptr)
      modifies `loopCalls
      ensures loopCalls == if old(D().Looping(e)) then 0 else old(loopCalls)
    {
      if D().Looping(e) {
        loopCalls := 0;
      }
    }

    /** Off the tree, and off the active queue if that is because of a timeout. */
    method Unschedule(e: Ptr)
      requires Valid() && B().Known(e)
      modifies `flags, `eventCount, `eventCountActive, `eventqueue, `signalqueue, `activequeues, `loopCalls, timetree
      ensures Valid() && timetree.key == old(timetree.key) && B() == old(B().Retimed(e))
      ensures loopCalls == if old(B().Replaced(e) && D().Looping(e)) then 0 else old(loopCalls)
    {
      B().RetimedValid(e);
      B().RetimedStepsValid(e);
      if Timeout in flags[e] {
        QueueRemove(e, Timeout);
      }
      Unlaunch(e);
    }

    /** Off the active queue, if a timeout has put the event there. */
    method Unlaunch(e: Ptr)
      requires Valid() && B().Known(e)
      modifies `flags, `eventCount, `eventCountActive, `eventqueue, `signalqueue, `activequeues, `loopCalls, timetree
      ensures timetree.Valid() && timetree.key == old(timetree.key)
      ensures B() == old(if B().Replaced(e) then B().Removed(e, Active) else B())
      ensures loopCalls == if old(B().Replaced(e) && D().Looping(e)) then 0 else old(loopCalls)
    {
      if Active in flags[e] && EvTimeout in res[e] {
        AbortLoop(e);
        QueueRemove(e, Active);
      }
    }

    /** Into the tree with the timeout t. */
    method Enter(e: Ptr, t: Timeval) returns (ghost k: nat)
      requires Valid() && B().Known(e) && !B().On(e, Timeout) && t.Normal()
      modifies `flags, `eventCount, `eventCountActive, `eventqueue, `signalqueue, `activequeues, timetree
      ensures Valid() && timetree.key == old(timetree.key)[e := t]
      ensures k <= |old(B()).timers| && B() == old(B()).InsertedInto(e, Timeout, k)
    {
      ghost var s := B();
      assert s.QueuedAt(e);
      SetKey(e, t);
      k := QueueInsert(e, Timeout);
      s.InsertedValid(e, Timeout, k);
    }

    /** The part of event_add that concerns the timeout. */
    method Schedule(e: Ptr, tv: Timeval, now: Timeval) returns (ghost k: nat)
      requires Valid() && B().Known(e) && tv.Normal() && now.Normal()
      modifies `flags, `eventCount, `eventCountActive, `eventqueue, `signalqueue, `activequeues, `loopCalls, timetree
      ensures Valid() && timetree.key == old(timetree.key)[e := now.Add(tv)]
      ensures loopCalls == if old(B().Replaced(e) && D().Looping(e)) then 0 else old(loopCalls)
      ensures old(B().Retimed(e)).Known(e) && k <= |old(B().Retimed(e)).timers|
      ensures B() == old(B().Retimed(e)).InsertedInto(e, Timeout, k)
    {
      B().RetimedValid(e);
      Unschedule(e);
      TimevalArithmetic(now, tv);
      k := Enter(e, now.Add(tv));
    }

    /** event_add: the timeout first, then the descriptor or the signal. */
    method EventAdd(e: Ptr, tv: Option<Timeval>, now: Timeval) returns (ret: int, ghost k: nat)
      requires Valid() && B().Known(e) && now.Normal() && (tv.Some? ==> tv.value.Normal())
      requires B().AddReady(e, tv.Some?)
      modifies `flags, `eventCount, `eventCountActive, `eventqueue, `signalqueue, `activequeues, `loopCalls,
               `slots, `kernel, timetree
      ensures Valid() && ret == 0
      ensures timetree.key == if tv.Some? then old(timetree.key)[e := now.Add(tv.value)] else old(timetree.key)
      ensures loopCalls == if tv.Some? && old(B().Replaced(e) && D().Looping(e)) then 0 else old(loopCalls)
      ensures tv.Some? ==> old(B().Retimed(e)).Known(e) && k <= |old(B().Retimed(e)).timers|
      ensures var s := old(B()).Timed(e, tv.Some?, k);
        s.Known(e) && (s.WantsSlot(e) ==> s.Insertable(e)) && B() == s.Enrolled(e)
    {
      ghost var s := B();
      k := ScheduleAny(e, tv, now);
      s.TimedReady(e, tv.Some?, k);
      ret := Enroll(e);
    }

    method ScheduleAny(e: Ptr, tv: Option<Timeval>, now: Timeval) returns (ghost k: nat)
      requires Valid() && B().Known(e) && now.Normal() && (tv.Some? ==> tv.value.Normal())
      modifies `flags, `eventCount, `eventCountActive, `eventqueue, `signalqueue, `activequeues, `loopCalls, timetree
      ensures Valid()
      ensures timetree.key == if tv.Some? then old(timetree.key)[e := now.Add(tv.value)] else old(timetree.key)
      ensures loopCalls == if tv.Some? && old(B().Replaced(e) && D().Looping(e)) then 0 else old(loopCalls)
      ensures tv.Some? ==> old(B().Retimed(e)).Known(e) && k <= |old(B().Retimed(e)).timers|
      ensures B() == old(B()).Timed(e, tv.Some?, k)
    {
      k := 0;
      if tv.Some? {
        k := Schedule(e, tv.value, now);
      }
    }

    method Enroll(e: Ptr) returns (ret: int)
      requires Valid() && B().Known(e) && (B().WantsSlot(e) ==> B().Insertable(e))
      modifies `flags, `eventCount, `eventCountActive, `eventqueue, `signalqueue, `activequeues,
               `slots, `kernel, timetree
      ensures Valid() && timetree.key == old(timetree.key) && ret == 0 && B() == old(B().Enrolled(e))
    {
      ghost var s := B();
      s.EnrolledValid(e);
      ghost var k;
      ret := 0;
      if (EvRead in events[e] || EvWrite in events[e]) && Inserted !in flags[e] && Active !in flags[e] {
        assert s.SlotAt(fd[e]);
        k := QueueInsert(e, Inserted);
        ret := EpollAdd(e);
      } else if EvSignal in events[e] && Signal !in flags[e] {
        k := QueueInsert(e, Signal);
      }
    }

    /** event_del: off every queue and out of the table. */
    method EventDel(e: Ptr) returns (ret: int)
      requires Valid() && B().Known(e)
      modifies `flags, `eventCount, `eventCountActive, `eventqueue, `signalqueue, `activequeues, `loopCalls,
               `slots, `kernel, timetree
      ensures Valid() && timetree.key == old(timetree.key) && ret == 0
      ensures loopCalls == if old(D().Looping(e)) then 0 else old(loopCalls)
      ensures B().Unlinked(e)
      ensures (old(B().On(e, Inserted)) ==> 0 <= fd[e] < |old(slots)|) && B() == old(B()).Deleted(e)
    {
      B().DeletedValid(e);
      AbortLoop(e);
      ret := Unlink(e);
    }

    method Unlink(e: Ptr) returns (ret: int)
      requires Valid() && B().Known(e)
      modifies `flags, `eventCount, `eventCountActive, `eventqueue, `signalqueue, `activequeues,
               `slots, `kernel, timetree
      ensures Valid() && timetree.key == old(timetree.key) && ret == 0
      ensures (old(B().On(e, Inserted)) ==> 0 <= fd[e] < |old(slots)|) && B() == old(B()).Deleted(e)
    {
      B().DeletedValid(e);
      Halt(e);
      ret := Withdraw(e);
    }

    /** The first part of event_del: the timer tree and the active queue. */
    method Halt(e: Ptr)
      requires Valid() && B().Known(e)
      modifies `flags, `eventCount, `eventCountActive, `eventqueue, `signalqueue, `activequeues, timetree
      ensures Valid() && timetree.key == old(timetree.key) && B() == old(B()).Halted(e)
    {
      B().HaltedValid(e);
      if Timeout in flags[e] {
        QueueRemove(e, Timeout);
      }
      if Active in flags[e] {
        QueueRemove(e, Active);
      }
    }

    /** The last part of event_del: the descriptor or the signal. */
    method Withdraw(e: Ptr) returns (ret: int)
      requires Valid() && B().Known(e)
      modifies `flags, `eventCount, `eventCountActive, `eventqueue, `signalqueue, `activequeues,
               `slots, `kernel, timetree
      ensures Valid() && timetree.key == old(timetree.key) && ret == 0
      ensures old(B().On(e, Inserted)) ==> 0 <= fd[e] < |old(slots)|
      ensures B() == old(B()).Withdrawn(e)
    {
      ghost var s := B();
      s.WithdrawnValid(e);
      ret := 0;
      if Inserted in flags[e] {
        assert s.SlotAt(fd[e]) && s.InsertedAt(e);
        MaskEmpty(slots[fd[e]]);
        QueueRemove(e, Inserted);
        ret := EpollDel(e);
      } else if Signal in flags[e] {
        QueueRemove(e, Signal);
      }
    }

    /** event_active: one more reason for an active event, or a place on its active queue. */
    method EventActive(e: Ptr, r: set<Ev>, calls: nat)
      requires Valid() && B().Known(e)
      modifies `flags, `eventCount, `eventCountActive, `eventqueue, `signalqueue, `activequeues, `res, `ncalls,
               `pncalls, timetree
      ensures Valid() && timetree.key == old(timetree.key)
      ensures B() == old(B()).Activated(e, r)
      ensures D() == if old(B().On(e, Active)) then old(D()) else old(D()).Begun(e, calls)
    {
      B().ActivatedValid(e, r);
      if Active in flags[e] {
        SetResult(e, res[e] + r);
      } else {
        ncalls := ncalls[e := calls];
        pncalls := pncalls - {e};
        Activate(e, r);
      }
    }

    method Activate(e: Ptr, r: set<Ev>)
      requires Valid() && B().Known(e) && !B().On(e, Active)
      modifies `flags, `eventCount, `eventCountActive, `eventqueue, `signalqueue, `activequeues, `res, timetree
      ensures Valid() && timetree.key == old(timetree.key)
      ensures B() == old(B()).Activated(e, r)
    {
      B().ActivatedValid(e, r);
      SetResult(e, r);
      ghost var k := QueueInsert(e, Active);
    }

    method SetResult(e: Ptr, r: set<Ev>)
      requires Valid() && B().Known(e)
      modifies `res
      ensures Valid() && B() == old(B()).(res := old(res)[e := r]) && B().Known(e)
    {
      B().ResultValid(e, r);
      res := res[e := r];
    }

    /** The key of an event that is not in the tree may change. */
    method SetKey(e: Ptr, t: Timeval)
      requires timetree.Valid() && e !in timetree.order
      modifies timetree`key
      ensures timetree.Valid() && timetree.key == old(timetree.key)[e := t]
    {
      timetree.key := timetree.key[e := t];
      assert timetree.S() == old(timetree.S());
    }

    // ---- timeout_process ----

    /** A due timer leaves the tree, and event_del takes it off every other queue. */
    method Detach(e: Ptr)
      requires Valid() && B().On(e, Timeout)
      modifies `flags, `eventCount, `eventCountActive, `eventqueue, `signalqueue, `activequeues, `loopCalls,
               `slots, `kernel, timetree
      ensures Valid() && timetree.key == old(timetree.key)
      ensures loopCalls == old(loopCalls) || loopCalls == 0
      ensures old(B()).Known(e) && (old(B()).On(e, Inserted) ==> 0 <= fd[e] < |old(slots)|)
      ensures B() == old(B()).Detached(e)
      ensures B().Unlinked(e)
    {
      B().DetachReady(e);
      QueueRemove(e, Timeout);
      var ret := EventDel(e);
    }

    /** One due timer: off the tree, off the other queues, on its active queue. */
    method Fire(e: Ptr)
      requires Valid() && B().On(e, Timeout) && B().Known(e) && (B().On(e, Inserted) ==> 0 <= fd[e] < |slots|)
      modifies `flags, `eventCount, `eventCountActive, `eventqueue, `signalqueue, `activequeues, `loopCalls,
               `res, `ncalls, `pncalls, `slots, `kernel, timetree
      ensures Valid() && timetree.key == old(timetree.key)
      ensures loopCalls == old(loopCalls) || loopCalls == 0
      ensures B() == old(B()).Fired(e) && D() == old(D()).Begun(e, 1)
    {
      Detach(e);
      EventActive(e, {EvTimeout}, 1);
    }

    /** The successor of the first timer, which timeout_process saves before the timer leaves. */
    method SecondTimer(e: Ptr) returns (next: Ptr)
      requires Valid() && timetree.order != [] && e == timetree.order[0]
      ensures next == timetree.At(1)
    {
      timetree.S().AtPosition(0);
      next := timetree.Next(e);
    }

    /** The first timer of the tree fires. The successor found before it left the tree is the
        first timer afterwards. */
    method FireFirst(e: Ptr, ghost s: Base, ghost x: seq<Ptr>) returns (next: Ptr)
      requires Valid() && s.Valid() && s.Expired(x, B()) && timetree.order != [] && e == timetree.order[0]
      modifies `flags, `eventCount, `eventCountActive, `eventqueue, `signalqueue, `activequeues, `loopCalls,
               `res, `ncalls, `pncalls, `slots, `kernel, timetree
      ensures Valid() && timetree.key == old(timetree.key)
      ensures loopCalls == old(loopCalls) || loopCalls == 0
      ensures s.Expired(x + [e], B()) && D() == old(D()).Begun(e, 1)
      ensures timetree.order == old(timetree.order)[1..] && next == timetree.At(0)
    {
      ghost var o := timetree.order;
      next := SecondTimer(e);
      FireNext(e, s, x);
      DropFirst(s.timers, x, o, timetree.order);
    }

    method FireNext(e: Ptr, ghost s: Base, ghost x: seq<Ptr>)
      requires Valid() && s.Valid() && s.Expired(x, B()) && timetree.order != [] && e == timetree.order[0]
      modifies `flags, `eventCount, `eventCountActive, `eventqueue, `signalqueue, `activequeues, `loopCalls,
               `res, `ncalls, `pncalls, `slots, `kernel, timetree
      ensures Valid() && timetree.key == old(timetree.key)
      ensures loopCalls == old(loopCalls) || loopCalls == 0
      ensures s.Expired(x + [e], B()) && D() == old(D()).Begun(e, 1)
    {
      s.ExpiredOne(x, B(), e);
      Fire(e);
    }

    lemma DropFirst(t: seq<Ptr>, x: seq<Ptr>, a: seq<Ptr>, b: seq<Ptr>)
      requires a != [] && t == x + a && t == x + [a[0]] + b
      ensures b == a[1..]
    {
      assert a == t[|x|..];
      assert b == t[|x| + 1..];
    }

    /** timeout_process has fired the timers x, all due, each for one call, and stands at ev. */
    ghost predicate Firing(s: Base, d: Due, key: map<Ptr, Timeval>, now: Timeval, x: seq<Ptr>, ev: Ptr)
      reads this, timetree
    {
      && Valid() && timetree.key == key && ev == timetree.At(0)
      && (ev == NULL <==> timetree.order == []) && (ev != NULL ==> ev in key)
      && AllDue(x, key, now)
      && s.Expired(x, B()) && D() == FiredDue(d, x)
    }

    method FireAt(e: Ptr, now: Timeval, ghost s: Base, ghost d: Due, ghost key: map<Ptr, Timeval>, ghost x: seq<Ptr>)
      returns (next: Ptr)
      requires s.Valid() && Firing(s, d, key, now, x, e) && e != NULL && !now.Less(key[e])
      modifies `flags, `eventCount, `eventCountActive, `eventqueue, `signalqueue, `activequeues, `loopCalls,
               `res, `ncalls, `pncalls, `slots, `kernel, timetree
      ensures Firing(s, d, key, now, x + [e], next) && |timetree.order| < old(|timetree.order|)
      ensures loopCalls == old(loopCalls) || loopCalls == 0
    {
      FiredMore(d, x, e);
      DueMore(x, e, key, now);
      next := FireFirst(e, s, x);
      FirstKnown();
    }

    method FirstTimer(now: Timeval) returns (ev: Ptr)
      requires Valid()
      ensures Firing(B(), D(), timetree.key, now, [], ev)
    {
      B().ExpiredNone();
      ghost var steps;
      ev, steps := timetree.MinMax(-1);
      FirstKnown();
    }

    method FireWhileDue(first: Ptr, now: Timeval, ghost s: Base, ghost d: Due, ghost key: map<Ptr, Timeval>)
      returns (ghost x: seq<Ptr>, ghost last: Ptr)
      requires s.Valid() && Firing(s, d, key, now, [], first)
      modifies `flags, `eventCount, `eventCountActive, `eventqueue, `signalqueue, `activequeues, `loopCalls,
               `res, `ncalls, `pncalls, `slots, `kernel, timetree
      ensures Firing(s, d, key, now, x, last) && (last != NULL ==> now.Less(key[last]))
      ensures loopCalls == old(loopCalls) || loopCalls == 0
    {
      var ev := first;
      x := [];
      while ev != NULL && !now.Less(timetree.key[ev])
        invariant Firing(s, d, key, now, x, ev)
        invariant loopCalls == old(loopCalls) || loopCalls == 0
        decreases |timetree.order|
      {
        ghost var e := ev;
        ev := FireAt(ev, now, s, d, key, x);
        x := x + [e];
      }
      last := ev;
    }

    /** Every timer that is due at `now` fires, the earliest first; k of them are due. */
    method TimeoutProcess(now: Timeval) returns (ghost k: nat)
      requires Valid() && now.Normal()
      modifies `flags, `eventCount, `eventCountActive, `eventqueue, `signalqueue, `activequeues, `loopCalls,
               `res, `ncalls, `pncalls, `slots, `kernel, timetree
      ensures Valid() && timetree.key == old(timetree.key)
      ensures loopCalls == old(loopCalls) || loopCalls == 0
      ensures old(DueUpTo(timetree.order, timetree.key, now, k))
      ensures old(B()).Expired(old(timetree.order)[..k], B())
      ensures OnceEach(old(D()), old(timetree.order)[..k], D())
    {
      ghost var s, d, x, last := B(), D(), [], NULL;
      var ev := FirstTimer(now);
      x, last := FireWhileDue(ev, now, s, d, timetree.key);
      k := |x|;
      NothingDue(x, now);
      assert s.timers[..k] == x;
      AllFiredOnce(d, x);
    }

    /** The first timers are the earliest, and equal ones are in the order of their addresses;
        so is what fires on each priority. */
    lemma FirstTimersAscend(k: nat, i: int)
      requires timetree.Valid() && k <= |timetree.order|
      ensures Ascending(timetree.order[..k], timetree.key)
      ensures Ascending(OfPriority(timetree.order[..k], pri, i), timetree.key)
    {
      var o := timetree.order;
      forall a, b | 0 <= a < b < k ensures Compare(timetree.key[o[a]], o[a], timetree.key[o[b]], o[b]) < 0 {
        assert timetree.Cmp(o[a], o[b]) < 0;
      }
      OfPriorityAscending(o[..k], pri, i, timetree.key);
    }

    lemma NothingDue(x: seq<Ptr>, now: Timeval)
      requires timetree.Valid() && AllDue(x, timetree.key, now)
      requires timetree.order != [] ==> timetree.order[0] in timetree.key && now.Less(timetree.key[timetree.order[0]])
      ensures DueUpTo(x + timetree.order, timetree.key, now, |x|)
    {
      LaterTimers(now);
      AllLater(x, timetree.order, timetree.key, now);
    }

    static ghost predicate AllDue(o: seq<Ptr>, key: map<Ptr, Timeval>, now: Timeval) {
      forall i {:trigger o[i]} :: 0 <= i < |o| ==> o[i] in key && !now.Less(key[o[i]])
    }

    static lemma DueMore(o: seq<Ptr>, e: Ptr, key: map<Ptr, Timeval>, now: Timeval)
      requires AllDue(o, key, now) && e in key && !now.Less(key[e])
      ensures AllDue(o + [e], key, now)
    {
    }

    static ghost predicate NoneDue(o: seq<Ptr>, key: map<Ptr, Timeval>, now: Timeval) {
      forall i {:trigger o[i]} :: 0 <= i < |o| ==> o[i] in key && now.Less(key[o[i]])
    }

    static lemma AllLater(x: seq<Ptr>, y: seq<Ptr>, key: map<Ptr, Timeval>, now: Timeval)
      requires AllDue(x, key, now) && NoneDue(y, key, now)
      ensures DueUpTo(x + y, key, now, |x|)
    {
    }

    lemma FirstKnown()
      requires timetree.Valid()
      ensures timetree.At(0) == NULL <==> timetree.order == []
      ensures timetree.order != [] ==> timetree.order[0] in timetree.key
    {
      if timetree.order != [] { timetree.S().AtPosition(0); }
    }

    /** If the earliest timer is not due, none is. */
    lemma LaterTimers(now: Timeval)
      requires timetree.Valid()
      requires timetree.order != [] ==> timetree.order[0] in timetree.key && now.Less(timetree.key[timetree.order[0]])
      ensures NoneDue(timetree.order, timetree.key, now)
    {
      forall i | 0 < i < |timetree.order|
        ensures timetree.order[i] in timetree.key && now.Less(timetree.key[timetree.order[i]])
      {
        assert timetree.Cmp(timetree.order[0], timetree.order[i]) < 0;
      }
    }

    // ---- epoll_dispatch ----

    method ClearEvent(e: Ptr)
      requires Valid() && (e != NULL ==> B().Known(e))
      modifies `flags, `eventCount, `eventCountActive, `eventqueue, `signalqueue, `activequeues, `loopCalls,
               `slots, `kernel, timetree
      ensures Valid() && timetree.key == old(timetree.key)
      ensures B() == old(B().Cleared(e))
      ensures loopCalls == old(loopCalls) || loopCalls == 0
    {
      if e != NULL && EvPersist !in events[e] {
        var ret := EventDel(e);
      }
    }

    method RaiseEvent(e: Ptr, r: Ev)
      requires Valid() && (e != NULL ==> B().Known(e))
      modifies `flags, `eventCount, `eventCountActive, `eventqueue, `signalqueue, `activequeues, `res, `ncalls,
               `pncalls, timetree
      ensures Valid() && timetree.key == old(timetree.key)
      ensures B() == old(B().Raised(e, r)) && D() == old(RaisedDue(B(), D(), e))
    {
      if e != NULL {
        EventActive(e, {r}, 1);
      }
    }

    method ClearBoth(evread: Ptr, evwrite: Ptr)
      requires Valid() && (evread != NULL ==> B().Known(evread)) && (evwrite != NULL ==> B().Known(evwrite))
      modifies `flags, `eventCount, `eventCountActive, `eventqueue, `signalqueue, `activequeues, `loopCalls,
               `slots, `kernel, timetree
      ensures Valid() && timetree.key == old(timetree.key)
      ensures B() == old(B().Cleared(evread).Cleared(if evwrite == evread then NULL else evwrite))
      ensures loopCalls == old(loopCalls) || loopCalls == 0
    {
      ClearEvent(evread);
      if evwrite != evread {
        ClearEvent(evwrite);
      }
    }

    method RaiseBoth(evread: Ptr, evwrite: Ptr)
      requires Valid() && (evread != NULL ==> B().Known(evread)) && (evwrite != NULL ==> B().Known(evwrite))
      modifies `flags, `eventCount, `eventCountActive, `eventqueue, `signalqueue, `activequeues, `res, `ncalls,
               `pncalls, timetree
      ensures Valid() && timetree.key == old(timetree.key)
      ensures B() == old(B().Raised(evread, EvRead).Raised(evwrite, EvWrite))
      ensures D() == old(RaisedDue(B().Raised(evread, EvRead), RaisedDue(B(), D(), evread), evwrite))
    {
      RaiseEvent(evread, EvRead);
      RaiseEvent(evwrite, EvWrite);
    }

    /** One descriptor that epoll_wait reports: HUP and ERR count as both directions. */
    method Deliver(ready: Ready)
      requires Valid() && 0 <= ready.fd < |slots|
      modifies `flags, `eventCount, `eventCountActive, `eventqueue, `signalqueue, `activequeues, `loopCalls,
               `res, `ncalls, `pncalls, `slots, `kernel, timetree
      ensures Valid() && timetree.key == old(timetree.key)
      ensures B() == old(B().Delivered(ready.fd, ready.Reads(), ready.Writes()))
      ensures D() == old(DeliveredDue(B(), D(), ready.fd, ready.Reads(), ready.Writes()))
      ensures loopCalls == old(loopCalls) || loopCalls == 0
    {
      B().EntryKnown(ready.fd);
      var what := Widened(ready);
      var evread, evwrite := NULL, NULL;
      if EpollIn in what {
        evread := slots[ready.fd].evread;
      }
      if EpollOut in what {
        evwrite := slots[ready.fd].evwrite;
      }
      if EpollIn !in what && EpollOut !in what {
        return;
      }
      Serve(evread, evwrite);
    }

    method Serve(evread: Ptr, evwrite: Ptr)
      requires Valid() && (evread != NULL ==> B().Known(evread)) && (evwrite != NULL ==> B().Known(evwrite))
      modifies `flags, `eventCount, `eventCountActive, `eventqueue, `signalqueue, `activequeues, `loopCalls,
               `res, `ncalls, `pncalls, `slots, `kernel, timetree
      ensures Valid() && timetree.key == old(timetree.key)
      ensures B() == old(B().Served(evread, evwrite)) && D() == old(ServedDue(B(), D(), evread, evwrite))
      ensures loopCalls == old(loopCalls) || loopCalls == 0
    {
      ClearBoth(evread, evwrite);
      RaiseBoth(evread, evwrite);
    }

    static method Widened(ready: Ready) returns (what: set<What>)
      ensures EpollIn in what <==> ready.Reads()
      ensures EpollOut in what <==> ready.Writes()
    {
      what := ready.what;
      assert forall b {:trigger b in what} :: b in what && b in {EpollIn, EpollErr, EpollHup} ==>
        b in what * {EpollIn, EpollErr, EpollHup};
      assert forall b {:trigger b in what} :: b in what && b in {EpollOut, EpollErr, EpollHup} ==>
        b in what * {EpollOut, EpollErr, EpollHup};
      if EpollHup in what {
        what := what + {EpollIn, EpollOut};
      } else if EpollErr in what {
        what := what + {EpollIn, EpollOut};
      }
    }

    method DeliverNext(ready: seq<Ready>, i: nat, ghost s: Base, ghost d: Due)
      requires Valid() && s.Valid() && s.InTable(ready) && i < |ready|
      requires s.InTable(ready[..i]) && B() == s.Dispatched(ready[..i]) && D() == DispatchedDue(s, d, ready[..i])
      modifies `flags, `eventCount, `eventCountActive, `eventqueue, `signalqueue, `activequeues, `loopCalls,
               `res, `ncalls, `pncalls, `slots, `kernel, timetree
      ensures Valid() && timetree.key == old(timetree.key)
      ensures s.InTable(ready[..i + 1]) && B() == s.Dispatched(ready[..i + 1])
      ensures D() == DispatchedDue(s, d, ready[..i + 1])
    {
      s.DispatchedStep(ready, i);
      DispatchedDueStep(s, d, ready, i);
      Deliver(ready[i]);
    }

    /** The loop of epoll_dispatch over the descriptors that epoll_wait reports. */
    method EpollDispatch(ready: seq<Ready>)
      requires Valid() && B().InTable(ready)
      modifies `flags, `eventCount, `eventCountActive, `eventqueue, `signalqueue, `activequeues, `loopCalls,
               `res, `ncalls, `pncalls, `slots, `kernel, timetree
      ensures Valid() && timetree.key == old(timetree.key)
      ensures B() == old(B().Dispatched(ready)) && D() == old(DispatchedDue(B(), D(), ready))
    {
      ghost var s, d := B(), D();
      for i := 0 to |ready|
        invariant Valid() && timetree.key == old(timetree.key)
        invariant s.InTable(ready[..i]) && B() == s.Dispatched(ready[..i]) && D() == DispatchedDue(s, d, ready[..i])
      {
        DeliverNext(ready, i, s, d);
      }
      assert ready[..|ready|] == ready;
    }

    // ---- event_process_active ----

    /** One call inside a callback, if it is allowed. */
    method Perform(a: Action)
      requires Valid()
      modifies this, timetree
      ensures Valid() && old(M()).Acted(a, M())
    {
      var allowed := MayPerform(a);
      if allowed {
        PerformAllowed(a);
      }
    }

    method PerformAllowed(a: Action)
      requires Valid() && B().Allowed(a)
      modifies this, timetree
      ensures Valid() && old(M()).Acted(a, M())
    {
      match a
      case Set(e, f, evs) => PerformSet(e, f, evs);
      case Add(e, tv, now) => ghost var k := PerformAdd(e, tv, now);
      case Del(e) => PerformDel(e);
      case Priority(e, p) => PerformPriority(e, p);
    }

    method MayPerform(a: Action) returns (allowed: bool)
      ensures allowed == B().Allowed(a)
    {
      allowed := Records().Allowed(a);
    }

    method PerformSet(e: Ptr, f: int, evs: set<Ev>)
      requires Valid() && B().Allowed(Set(e, f, evs))
      modifies this, timetree
      ensures Valid() && M() == old(M().(b := B().Initialised(e, f, evs), due := D().Begun(e, 0)))
    {
      EventSet(e, f, evs);
    }

    method PerformAdd(e: Ptr, tv: Option<Timeval>, now: Timeval) returns (ghost k: nat)
      requires Valid() && B().Allowed(Add(e, tv, now))
      modifies `flags, `eventCount, `eventCountActive, `eventqueue, `signalqueue, `activequeues, `loopCalls,
               `slots, `kernel, timetree
      ensures Valid() && old(M()).Added(e, tv, now, k, M())
    {
      var ret;
      ret, k := EventAdd(e, tv, now);
    }

    method PerformDel(e: Ptr)
      requires Valid() && B().Known(e)
      modifies `flags, `eventCount, `eventCountActive, `eventqueue, `signalqueue, `activequeues, `loopCalls,
               `slots, `kernel, timetree
      ensures Valid() && (old(B().On(e, Inserted)) ==> 0 <= old(fd[e]) < |old(slots)|)
      ensures M() == old(M()).(b := old(B()).Deleted(e), loop := if old(D().Looping(e)) then 0 else old(loopCalls))
    {
      var ret := EventDel(e);
    }

    method PerformPriority(e: Ptr, p: int)
      requires Valid() && B().Known(e)
      modifies `pri
      ensures Valid() && M() == old(M().(b := B().Prioritised(e, p)))
    {
      var ret := EventPrioritySet(e, p);
    }

    /** A callback performs its actions. */
    method RunCallback(actions: seq<Action>)
      requires Valid()
      modifies this, timetree
      ensures Valid() && old(M()).Performed(actions, M())
    {
      ghost var m := M();
      for n := 0 to |actions|
        invariant Valid() && m.Performed(actions[..n], M())
      {
        OneLonger(actions, n);
        PerformNext(actions[n], m, actions[..n]);
      }
      assert actions[..|actions|] == actions;
    }

    static lemma OneLonger(actions: seq<Action>, n: nat)
      requires n < |actions|
      ensures actions[..n + 1] == actions[..n] + [actions[n]]
    {
    }

    method PerformNext(a: Action, ghost m: Machine, ghost done: seq<Action>)
      requires Valid() && m.Performed(done, M())
      modifies this, timetree
      ensures Valid() && m.Performed(done + [a], M())
    {
      ghost var p := M();
      Perform(a);
      m.PerformedMore(done, p, a, M());
    }

    /** One call of the callback of e. */
    method CallOnce(e: Ptr, actions: seq<Action>)
      requires Valid() && loopCalls > 0
      modifies this, timetree
      ensures Valid() && old(M()).CalledOnce(e, actions, M())
    {
      CountDown(e);
      RunCallback(actions);
    }

    method CountDown(e: Ptr)
      requires Valid() && loopCalls > 0
      modifies `loopCalls, `ncalls
      ensures Valid() && M() == old(M()).Counted(e)
    {
      loopCalls := loopCalls - 1;
      ncalls := ncalls[e := loopCalls];
    }

    /** The calls made of e since m, which stood at call `used` of the script. */
    ghost predicate Calling(m: Machine, e: Ptr, script: seq<seq<Action>>, used: nat,
                            calls: seq<seq<Action>>, used1: nat)
      reads this, timetree
    {
      && Valid() && m.Called(e, calls, M()) && !B().On(e, Active)
      && FromScript(script, used, calls) && used1 == used + |calls|
    }

    /** The loop over the calls of one event: it ends when none is due any more. */
    method RunCalls(e: Ptr, script: seq<seq<Action>>, used: nat) returns (ghost calls: seq<seq<Action>>, used1: nat)
      requires Valid() && !B().On(e, Active)
      modifies this, timetree
      ensures old(M()).Called(e, calls, M()) && Valid() && loopCalls == 0
      ensures FromScript(script, used, calls) && used1 == used + |calls|
    {
      ghost var m := M();
      calls, used1 := [], used;
      while loopCalls > 0
        invariant Calling(m, e, script, used, calls, used1)
        decreases loopCalls
      {
        calls, used1 := CallNext(e, script, used, used1, m, calls);
      }
    }

    method CallNext(e: Ptr, script: seq<seq<Action>>, ghost first: nat, used: nat,
                    ghost m: Machine, ghost calls: seq<seq<Action>>)
      returns (ghost calls1: seq<seq<Action>>, used1: nat)
      requires Calling(m, e, script, first, calls, used) && loopCalls > 0
      modifies this, timetree
      ensures Calling(m, e, script, first, calls1, used1) && loopCalls < old(loopCalls)
    {
      ghost var p, actions := M(), Scripted(script, used);
      CallOnce(e, Scripted(script, used));
      m.CalledMore(e, calls, p, actions, M());
      p.CalledOnceBounded(e, actions, M());
      FromScriptMore(script, first, calls, [actions]);
      calls1, used1 := calls + [actions], used + 1;
    }

    /** The first event of queue i leaves it, and its callback is called until no call of it is
        due. */
    method RunFirst(i: int, script: seq<seq<Action>>, used: nat) returns (ghost t: Turn, used1: nat)
      requires Valid() && 0 <= i < |activequeues| && activequeues[i] != []
      modifies this, timetree
      ensures Valid() && old(M()).TurnTaken(i, t, M())
      ensures FromScript(script, used, t.calls) && used1 == used + |t.calls|
    {
      var e := activequeues[i][0];
      Launch(e, i);
      ghost var calls;
      calls, used1 := RunCalls(e, script, used);
      t := Turn(e, calls);
    }

    method Launch(e: Ptr, i: int)
      requires Valid() && 0 <= i < |activequeues| && activequeues[i] != [] && e == activequeues[i][0]
      modifies this, timetree
      ensures Valid() && !B().On(e, Active)
      ensures old(B().On(e, Active) && B().Known(e)) && M() == old(M()).Launched(e)
    {
      ghost var s := B();
      assert s.QueuedAt(e);
      s.RemovedValid(e, Active);
      QueueRemove(e, Active);
      loopCalls := CallsOf(ncalls, e);
      pncalls := pncalls + {e};
    }

    /** The first active queue that is not empty. */
    method FirstQueue() returns (activeq: nat)
      requires Valid() && eventCountActive != 0
      ensures FirstActive(activeq, activequeues)
    {
      CountAllPositive(activequeues, internal);
      activeq := 0;
      while activequeues[activeq] == []
        invariant activeq < |activequeues|
        invariant forall j :: 0 <= j < activeq ==> activequeues[j] == []
        decreases |activequeues| - activeq
      {
        activeq := activeq + 1;
      }
    }

    /** The turns since m on queue i. */
    ghost predicate Running(m: Machine, i: int, script: seq<seq<Action>>, turns: seq<Turn>, used: nat)
      reads this, timetree
    {
      && Valid() && m.TurnsTaken(i, turns, M()) && 0 <= i < |activequeues| == |m.b.activequeues|
      && FromScript(script, 0, AllCalls(turns)) && used == |AllCalls(turns)|
    }

    /** The loop of event_process_active over queue i. */
    method Drain(i: int, script: seq<seq<Action>>) returns (ghost turns: seq<Turn>)
      requires Valid() && 0 <= i < |activequeues|
      modifies this, timetree
      ensures Valid() && old(M()).TurnsTaken(i, turns, M())
      ensures |activequeues| == |old(activequeues)| && activequeues[i] == []
      ensures FromScript(script, 0, AllCalls(turns))
    {
      ghost var m := M();
      var used := 0;
      turns := [];
      while activequeues[i] != []
        invariant Running(m, i, script, turns, used)
        decreases |activequeues[i]|
      {
        turns, used := RunNext(i, script, used, m, turns);
      }
    }

    method RunNext(i: int, script: seq<seq<Action>>, used: nat, ghost m: Machine, ghost turns: seq<Turn>)
      returns (ghost turns1: seq<Turn>, used1: nat)
      requires Running(m, i, script, turns, used) && activequeues[i] != []
      modifies this, timetree
      ensures Running(m, i, script, turns1, used1) && |activequeues[i]| < old(|activequeues[i]|)
    {
      ghost var t;
      t, used1 := TakeTurn(i, script, used, m, turns);
      ScriptMore(script, turns, t);
      turns1 := turns + [t];
    }

    method TakeTurn(i: int, script: seq<seq<Action>>, used: nat, ghost m: Machine, ghost turns: seq<Turn>)
      returns (ghost t: Turn, used1: nat)
      requires Valid() && 0 <= i < |activequeues| && activequeues[i] != [] && m.TurnsTaken(i, turns, M())
      modifies this, timetree
      ensures Valid() && m.TurnsTaken(i, turns + [t], M())
      ensures |activequeues| == |old(activequeues)| && |activequeues[i]| < old(|activequeues[i]|)
      ensures FromScript(script, used, t.calls) && used1 == used + |t.calls|
    {
      ghost var p := M();
      t, used1 := RunFirst(i, script, used);
      p.TurnBounded(i, t, M());
      m.TurnsMore(i, turns, p, t, M());
    }

    /** event_process_active: the first queue is found whenever an event that counts is active,
        and its events run in their order until the queue is empty. The n-th call of a callback
        performs script[n]. */
    method ProcessActive(script: seq<seq<Action>>) returns (ghost r: Round)
      requires Valid()
      modifies this, timetree
      ensures Valid()
      ensures old(eventCountActive) == 0 ==> M() == old(M()) && r.turns == []
      ensures old(eventCountActive) != 0 ==>
        old(M()).RoundTaken(r, M()) && FromScript(script, 0, AllCalls(r.turns))
    {
      r := Round(0, []);
      if eventCountActive == 0 {
        return;
      }
      var i := FirstQueue();
      ghost var turns := Drain(i, script);
      r := Round(i, turns);
    }

    /** The passes of event_base_loop while nothing else gets ready or due: event_process_active
        until no event that counts is active. If no call breaks a loop every callback is called
        exactly as often as event_active has said. */
    method ProcessAll(script: seq<seq<Action>>) returns (ghost rounds: seq<Round>)
      requires Valid()
      modifies this, timetree
      ensures Valid() && eventCountActive == 0 && old(M()).RoundsTaken(rounds, M())
      ensures !AnyBreaking(script) ==> AllGentle(rounds)
    {
      ghost var m := M();
      rounds := [];
      while eventCountActive != 0
        invariant Valid() && m.RoundsTaken(rounds, M()) && (!AnyBreaking(script) ==> AllGentle(rounds))
        decreases Length(activequeues)
      {
        rounds := ProcessNext(script, m, rounds);
      }
    }

    method ProcessNext(script: seq<seq<Action>>, ghost m: Machine, ghost rounds: seq<Round>)
      returns (ghost rounds1: seq<Round>)
      requires Valid() && eventCountActive != 0 && m.RoundsTaken(rounds, M())
      modifies this, timetree
      ensures Valid() && m.RoundsTaken(rounds1, M()) && Length(activequeues) < old(Length(activequeues))
      ensures !AnyBreaking(script) && AllGentle(rounds) ==> AllGentle(rounds1)
    {
      ghost var p := M();
      ghost var r := ProcessActive(script);
      p.RoundShrinks(r, M());
      m.RoundsMore(rounds, p, r, M());
      rounds1 := rounds + [r];
      GentleNext(script, rounds, r);
    }

    /** timeout_process and what follows: the callback of a timer that is due is called at most
        once, and exactly once if no call breaks a loop. */
    method RunDue(now: Timeval, script: seq<seq<Action>>) returns (ghost k: nat, ghost rounds: seq<Round>)
      requires Valid() && now.Normal()
      modifies this, timetree
      ensures Valid() && old(DueUpTo(timetree.order, timetree.key, now, k))
      ensures forall i :: 0 <= i < k ==> CallsInRounds(rounds, old(timetree.order)[i]) <= 1
      ensures forall i :: 0 <= i < k && !AnyBreaking(script) && old(timetree.order)[i] !in old(internal) ==>
        CallsInRounds(rounds, old(timetree.order)[i]) == 1
    {
      ghost var s, o := B(), timetree.order;
      k := TimeoutProcess(now);
      ghost var m := M();
      rounds := ProcessAll(script);
      forall i | 0 <= i < k
        ensures CallsInRounds(rounds, o[i]) <= 1
        ensures !AnyBreaking(script) && o[i] !in s.internal ==> CallsInRounds(rounds, o[i]) == 1
      {
        DueCalled(s, m, o, k, i, rounds, M());
      }
    }

    /** A timer that has fired is active for one call. */
    static lemma DueCalled(s: Base, m: Machine, o: seq<Ptr>, k: nat, i: nat, rounds: seq<Round>, m1: Machine)
      requires s.Valid() && o == s.timers && i < k <= |o| && s.Expired(o[..k], m.b) && m.b.Valid()
      requires CallsOf(m.due.n, o[i]) == 1 && m.RoundsTaken(rounds, m1) && m1.b.countActive == 0
      ensures CallsInRounds(rounds, o[i]) <= 1
      ensures AllGentle(rounds) && o[i] !in s.internal ==> CallsInRounds(rounds, o[i]) == 1
    {
      assert o[..k][i] == o[i];
      assert s.QueuedAt(o[i]) && o[i] in s.timers;
      assert m.b.On(o[i], Active);
      m.RoundsCalls(rounds, o[i], m1);
      if AllGentle(rounds) && o[i] !in s.internal { m.AllCalled(rounds, o[i], m1); }
    }

    // ---- timeout_next and the wait of epoll_dispatch ----

    /** timeout_next: how long to wait, five seconds without a timer. */
    method TimeoutNext(now: Timeval) returns (tv: Timeval)
      requires Valid() && now.Normal()
      ensures tv == Wait(timetree.order, timetree.key, now)
      ensures tv.Normal() && tv.sec >= 0
    {
      ghost var steps;
      var ev;
      ev, steps := timetree.MinMax(-1);
      FirstKnown();
      if ev == NULL {
        return Timeval(5, 0);
      }
      TimevalArithmetic(timetree.key[ev], now);
      if !now.Less(timetree.key[ev]) {
        return Timeval(0, 0);
      }
      tv := timetree.key[ev].Sub(now);
    }

    /** epoll_dispatch waits for ms milliseconds, and timeout_process follows: a timer fires if
        and only if the wait computed has passed. */
    method WaitOut(now: Timeval, ms: nat) returns (tv: Timeval, ghost k: nat)
      requires Valid() && now.Normal()
      modifies `flags, `eventCount, `eventCountActive, `eventqueue, `signalqueue, `activequeues, `loopCalls,
               `res, `ncalls, `pncalls, `slots, `kernel, timetree
      ensures Valid() && tv == old(Wait(timetree.order, timetree.key, now))
      ensures old(timetree.order) != [] ==> (k > 0 <==> ms >= Milliseconds(tv))
      ensures old(timetree.order) == [] ==> k == 0
    {
      tv := TimeoutNext(now);
      ghost var o, key := timetree.order, timetree.key;
      FirstKnown();
      AfterMicros(now, ms);
      k := TimeoutProcess(After(now, ms));
      if o != [] { WaitIsLeast(o, key, now, ms, k); }
    }

    // ---- whole runs ----

    /** timeout_correct, when the clock has gone back by off. */
    method ClockWentBack(off: Timeval)
      requires Valid() && off.Normal()
      modifies timetree
      ensures Valid() && B() == old(B()) && timetree.key.Keys == old(timetree.key.Keys)
      ensures forall e {:trigger timetree.key[e]} :: e in timetree.key ==>
        timetree.key[e] == if B().On(e, Timeout) then old(timetree.key[e]).Sub(off) else old(timetree.key[e])
    {
      ghost var visited := timetree.TimeoutCorrect(off);
      forall e ensures e in timetree.pos <==> B().On(e, Timeout) {
        timetree.Members(e);
        assert B().QueuedAt(e);
      }
    }

    /** One thing that happens to the reactor; what is not possible in a state does nothing. The
        events of `turns` run. */
    method Happen(s: Happening) returns (ghost turns: seq<Turn>)
      requires Valid()
      modifies this, timetree
      ensures Valid() && old(M()).Happened(s, turns, M())
    {
      turns := [];
      match s
      case Process(script) => turns := Process(script);
      case Reported(_) => HappenAround(s);
      case Expire(_) => HappenAround(s);
      case Back(_) => HappenAround(s);
      case _ => HappenWithin(s);
    }

    /** A call of the program. */
    method HappenWithin(s: Happening)
      requires Valid() && (s.Call? || s.Internal? || s.Activate?)
      modifies this, timetree
      ensures Valid() && old(M()).Happened(s, [], M())
    {
      match s
      case Call(a) =>
        Perform(a);
      case Internal(e) =>
        if Records().Unlinked(e) { MarkInternal(e); }
      case Activate(e, r, calls) =>
        if Records().Known(e) { EventActive(e, r, calls); }
    }

    /** What comes from the kernel and the clock. */
    method HappenAround(s: Happening)
      requires Valid() && (s.Reported? || s.Expire? || s.Back?)
      modifies this, timetree
      ensures Valid() && old(M()).Happened(s, [], M())
    {
      match s
      case Reported(ready) =>
        if 0 <= ready.fd < |slots| { Deliver(ready); }
      case Expire(now) =>
        if now.Normal() { Expire(now); }
      case Back(off) =>
        if off.Normal() { ClockWentBack(off); }
    }

    method Expire(now: Timeval)
      requires Valid() && now.Normal()
      modifies `flags, `eventCount, `eventCountActive, `eventqueue, `signalqueue, `activequeues, `loopCalls,
               `res, `ncalls, `pncalls, `slots, `kernel, timetree
      ensures Valid() && exists k: nat :: old(M()).Expires(now, k, M())
    {
      ghost var m := M();
      ghost var k := TimeoutProcess(now);
      assert m.Expires(now, k, M());
    }

    method Process(script: seq<seq<Action>>) returns (ghost turns: seq<Turn>)
      requires Valid()
      modifies this, timetree
      ensures Valid() && old(M()).Processed(script, turns, M())
    {
      ghost var m := M();
      ghost var r := ProcessActive(script);
      turns := r.turns;
      if m.b.countActive != 0 { assert r == Round(r.queue, turns); }
    }

    /** Over every sequence of steps the queues, the flags, the counters, the timer tree, the
        table and the kernel agree, and every step has had its effect. */
    method Run(steps: seq<Happening>) returns (ghost runs: seq<seq<Turn>>)
      requires Valid()
      modifies this, timetree
      ensures Valid() && old(M()).Follows(steps, runs, M())
    {
      ghost var m := M();
      runs := [];
      for i := 0 to |steps|
        invariant Valid() && m.Follows(steps[..i], runs, M())
      {
        FollowsNext(steps, i);
        runs := RunStep(steps[i], m, steps[..i], runs);
      }
      FollowsAll(steps);
    }

    static lemma FollowsNext(steps: seq<Happening>, i: nat)
      requires i < |steps|
      ensures steps[..i + 1] == steps[..i] + [steps[i]]
    {
    }

    static lemma FollowsAll(steps: seq<Happening>)
      ensures steps[..|steps|] == steps
    {
    }

    method RunStep(s: Happening, ghost m: Machine, ghost steps: seq<Happening>, ghost runs: seq<seq<Turn>>)
      returns (ghost runs1: seq<seq<Turn>>)
      requires Valid() && m.Follows(steps, runs, M())
      modifies this, timetree
      ensures Valid() && m.Follows(steps + [s], runs1, M())
    {
      ghost var p := M();
      ghost var turns := Happen(s);
      m.FollowsMore(steps, runs, p, s, turns, M());
      runs1 := runs + [turns];
    }
  }

  // ---- the wait as a value ----

  function Wait(order: seq<Ptr>, key: map<Ptr, Timeval>, now: Timeval): Timeval
    requires order != [] ==> order[0] in key
  {
    if order == [] then Timeval(5, 0)
    else if !now.Less(key[order[0]]) then Timeval(0, 0)
    else key[order[0]].Sub(now)
  }

  /** Five seconds without a timer, nothing if the first one is due, else what is left. */
  lemma WaitMeans(order: seq<Ptr>, key: map<Ptr, Timeval>, now: Timeval)
    requires order != [] ==> order[0] in key && key[order[0]].Normal() && now.Normal()
    ensures order == [] ==> Wait(order, key, now).Micros() == 5000000
    ensures order != [] && key[order[0]].Micros() <= now.Micros() ==> Wait(order, key, now).Micros() == 0
    ensures order != [] && key[order[0]].Micros() > now.Micros() ==>
      Wait(order, key, now).Micros() == key[order[0]].Micros() - now.Micros()
  {
    if order != [] {
      TimevalArithmetic(now, key[order[0]]);
      TimevalArithmetic(key[order[0]], now);
    }
  }

  /** What epoll_dispatch computes for epoll_wait, before it is stored in an int. */
  function Milliseconds(tv: Timeval): int {
    tv.sec * 1000 + (tv.usec + 999) / 1000
  }

  /** The conversion to a 32-bit int. */
  function Int32(x: int): int {
    (x + 0x8000_0000) % 0x1_0000_0000 - 0x8000_0000
  }

  /** The time ms milliseconds after t. */
  function After(t: Timeval, ms: nat): Timeval {
    Timeval(t.sec + (t.usec + ms * 1000) / 1000000, (t.usec + ms * 1000) % 1000000)
  }

  lemma AfterMicros(t: Timeval, ms: nat)
    requires t.Normal()
    ensures After(t, ms).Normal() && After(t, ms).Micros() == t.Micros() + ms * 1000
  {
  }

  /** The wait is the least number of milliseconds after which timeout_process, which stops at
      the first timer that is not due, fires a timer. */
  lemma WaitIsLeast(order: seq<Ptr>, key: map<Ptr, Timeval>, now: Timeval, ms: nat, k: nat)
    requires order != [] && order[0] in key && key[order[0]].Normal() && now.Normal()
    requires DueUpTo(order, key, After(now, ms), k)
    ensures k > 0 <==> ms >= Milliseconds(Wait(order, key, now))
  {
    var t := key[order[0]];
    AfterMicros(now, ms);
    TimevalArithmetic(now, t);
    TimevalArithmetic(After(now, ms), t);
    TimevalArithmetic(t, now);
    assert k > 0 <==> !After(now, ms).Less(t);
  }

  /** The first timer is due after ms milliseconds if and only if w of them have passed. */
  ghost predicate LeastWait(t: Timeval, now: Timeval, w: int) {
    w >= 0 && forall ms: nat {:trigger After(now, ms)} :: !After(now, ms).Less(t) <==> ms >= w
  }

  lemma WaitLeast(t: Timeval, now: Timeval, w: int)
    requires t.Normal() && now.Normal()
    ensures LeastWait(t, now, w) <==> w == Milliseconds(if now.Less(t) then t.Sub(now) else Timeval(0, 0))
  {
    var m := Milliseconds(if now.Less(t) then t.Sub(now) else Timeval(0, 0));
    TimevalArithmetic(now, t);
    TimevalArithmetic(t, now);
    forall ms: nat ensures !After(now, ms).Less(t) <==> ms >= m {
      AfterMicros(now, ms);
      TimevalArithmetic(After(now, ms), t);
    }
    if LeastWait(t, now, w) {
      assert !After(now, w).Less(t) && !After(now, m).Less(t);
    }
  }

  /** The int that epoll_wait is given is the least wait until the first timer if and only if
      that wait is less than 2^31 milliseconds. */
  lemma IntWaitIsLeast(order: seq<Ptr>, key: map<Ptr, Timeval>, now: Timeval)
    requires order != [] && order[0] in key && key[order[0]].Normal() && now.Normal()
    ensures var m := Milliseconds(Wait(order, key, now));
      LeastWait(key[order[0]], now, Int32(m)) <==> m < 0x8000_0000
  {
    var t := key[order[0]];
    TimevalArithmetic(now, t);
    TimevalArithmetic(t, now);
    WaitLeast(t, now, Int32(Milliseconds(Wait(order, key, now))));
    WaitFits(Wait(order, key, now));
  }

  /** As an int the wait is that number exactly if it is less than 2^31; otherwise it is
      another number, too short or negative. */
  lemma WaitFits(tv: Timeval)
    requires tv.Normal() && tv.sec >= 0
    ensures Int32(Milliseconds(tv)) == Milliseconds(tv) <==> Milliseconds(tv) < 0x8000_0000
    ensures Milliseconds(tv) >= 0x8000_0000 ==> Int32(Milliseconds(tv)) < Milliseconds(tv)
  {
  }

  /** Fifty days are waited for as less than a second. */
  lemma LongWait()
    ensures Milliseconds(Timeval(4294968, 0)) == 4294968000
    ensures Int32(Milliseconds(Timeval(4294968, 0))) == 704
  {
  }
}

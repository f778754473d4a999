/** The read and write events of a session (Session.cpp) on the event base. */
module Session {
  import opened EventTypes
  import opened ReactorState
  import opened Callbacks
  import opened Reactor

  // ---- the two events of a session, in the state of the event base ----

  /** e is on no queue, or it waits for d on descriptor f once, in eventqueue only or active
      only. */
  ghost predicate OneShot(s: Base, e: Ptr, f: int, d: Ev) {
    e in s.flags ==>
      && s.Known(e)
      && (s.flags[e] == {} || (s.events[e] == {d} && s.fd[e] == f && s.flags[e] in {{Inserted}, {Active}}))
  }

  predicate Idle(s: Base, e: Ptr) {
    e in s.flags ==> s.flags[e] == {}
  }

  /** Event x waits for descriptor f in the table. */
  predicate Occupies(s: Base, x: Ptr, f: int) {
    s.Record(x).0 == Some(f) && s.On(x, Inserted)
  }

  /** Of all events at most two wait for the descriptor; others may remember it. */
  ghost predicate Exclusive(s: Base, rd: Ptr, wr: Ptr, f: int) {
    forall x {:trigger Occupies(s, x, f)} :: x != rd && x != wr ==> !Occupies(s, x, f)
  }

  /** No event waits for the descriptor. */
  ghost predicate Vacant(s: Base, f: int) {
    forall x {:trigger Occupies(s, x, f)} :: !Occupies(s, x, f)
  }

  /** The flags mReading and mWriting are set exactly while the event is on a queue. */
  ghost predicate Fits(s: Base, rd: Ptr, wr: Ptr, f: int, reading: bool, writing: bool) {
    && s.Valid() && 0 <= f < |s.slots| && rd != wr && rd != NULL && wr != NULL
    && OneShot(s, rd, f, EvRead) && OneShot(s, wr, f, EvWrite) && Exclusive(s, rd, wr, f)
    && (reading <==> !Idle(s, rd)) && (writing <==> !Idle(s, wr))
  }

  /** event_set may be given an idle event: it is on no queue. */
  lemma IdleUnlinked(s: Base, e: Ptr, f: int, d: Ev)
    requires OneShot(s, e, f, d) && Idle(s, e)
    ensures e in s.flags ==> s.Unlinked(e)
  {
  }

  /** The direction d of descriptor f is free while the event for it is idle. */
  lemma DirectionFree(s: Base, rd: Ptr, wr: Ptr, f: int)
    requires s.Valid() && 0 <= f < |s.slots| && rd != wr && rd != NULL && wr != NULL
    requires OneShot(s, rd, f, EvRead) && OneShot(s, wr, f, EvWrite) && Exclusive(s, rd, wr, f)
    ensures Idle(s, rd) ==> s.slots[f].evread == NULL
    ensures Idle(s, wr) ==> s.slots[f].evwrite == NULL
  {
    assert s.SlotAt(f);
    var r, w := s.slots[f].evread, s.slots[f].evwrite;
    assert r == rd || r == wr || !Occupies(s, r, f);
    assert w == rd || w == wr || !Occupies(s, w, f);
  }

  /** Readiness of any descriptor. */
  lemma DeliveredFits(s: Base, rd: Ptr, wr: Ptr, f: int, reading: bool, writing: bool, ready: Ready)
    requires Fits(s, rd, wr, f, reading, writing) && 0 <= ready.fd < |s.slots|
    ensures Fits(s.Delivered(ready.fd, ready.Reads(), ready.Writes()), rd, wr, f, reading, writing)
  {
    DeliveredOneShot(s, rd, f, EvRead, ready);
    DeliveredOneShot(s, wr, f, EvWrite, ready);
    var t := s.Delivered(ready.fd, ready.Reads(), ready.Writes());
    forall x | x != rd && x != wr ensures !Occupies(t, x, f) {
      assert !Occupies(s, x, f);
      DeliveredPlaces(s, x, ready);
    }
  }

  /** Readiness brings no event into the table. */
  lemma DeliveredPlaces(s: Base, x: Ptr, ready: Ready)
    requires s.Valid() && 0 <= ready.fd < |s.slots|
    ensures var t := s.Delivered(ready.fd, ready.Reads(), ready.Writes());
      t.Record(x).0 == s.Record(x).0 && (t.On(x, Inserted) ==> s.On(x, Inserted))
  {
    assert s.QueuedAt(x);
    if x in s.flags { s.DeliveredEvents(ready.fd, ready.Reads(), ready.Writes(), x); }
  }

  lemma DeliveredOneShot(s: Base, e: Ptr, f: int, d: Ev, ready: Ready)
    requires s.Valid() && OneShot(s, e, f, d) && 0 <= ready.fd < |s.slots| && d != EvPersist
    ensures var t := s.Delivered(ready.fd, ready.Reads(), ready.Writes());
      OneShot(t, e, f, d) && (Idle(t, e) <==> Idle(s, e))
  {
    var i, a, b := ready.fd, ready.Reads(), ready.Writes();
    if e in s.flags {
      s.DeliveredEvents(i, a, b, e);
      if s.Got(i, a, b, e) != {} { GotWaiting(s, e, i, a, b); }
    }
  }

  /** An event that gets something is waiting. */
  lemma GotWaiting(s: Base, e: Ptr, i: int, a: bool, b: bool)
    requires s.Valid() && 0 <= i < |s.slots| && s.Known(e) && s.Got(i, a, b, e) != {}
    ensures s.On(e, Inserted) && {Active} != {}
  {
    s.EntryKnown(i);
    assert Active in {Active};
  }

  /** Timers that fire are those of other events. */
  lemma ExpiredFits(s: Base, rd: Ptr, wr: Ptr, f: int, reading: bool, writing: bool, x: seq<Ptr>, t: Base)
    requires Fits(s, rd, wr, f, reading, writing) && s.Expired(x, t) && t.Valid()
    ensures Fits(t, rd, wr, f, reading, writing)
  {
    ExpiredOneShot(s, rd, f, EvRead, x, t);
    ExpiredOneShot(s, wr, f, EvWrite, x, t);
    forall y | y != rd && y != wr ensures !Occupies(t, y, f) {
      assert !Occupies(s, y, f);
    }
  }

  lemma ExpiredOneShot(s: Base, e: Ptr, f: int, d: Ev, x: seq<Ptr>, t: Base)
    requires s.Valid() && t.Valid() && OneShot(s, e, f, d) && s.Expired(x, t)
    ensures OneShot(t, e, f, d) && (Idle(t, e) <==> Idle(s, e))
  {
    assert s.QueuedAt(e) && t.QueuedAt(e);
    assert e in x ==> e in s.timers;
  }

  /** What happens to another event, unless it comes to wait for the descriptor. */
  lemma OtherFits(s: Base, rd: Ptr, wr: Ptr, f: int, reading: bool, writing: bool, e: Ptr, t: Base)
    requires Fits(s, rd, wr, f, reading, writing) && s.OthersKept(t, e) && t.Valid()
    requires e != rd && e != wr && !Occupies(t, e, f)
    ensures Fits(t, rd, wr, f, reading, writing)
  {
    assert t.Record(rd) == s.Record(rd) && t.Record(wr) == s.Record(wr);
    assert t.QueuedAt(rd) && t.QueuedAt(wr);
    forall x | x != rd && x != wr ensures !Occupies(t, x, f) {
      if x != e { assert t.Record(x) == s.Record(x) && !Occupies(s, x, f); }
    }
  }

  /** What happens to one of the two events of the session. */
  lemma OwnFits(s: Base, rd: Ptr, wr: Ptr, f: int, reading: bool, writing: bool, e: Ptr, t: Base, armed: bool)
    requires Fits(s, rd, wr, f, reading, writing) && s.OthersKept(t, e) && t.Valid() && (e == rd || e == wr)
    requires OneShot(t, e, f, if e == rd then EvRead else EvWrite) && (armed <==> !Idle(t, e))
    ensures e == rd ==> Fits(t, rd, wr, f, armed, writing)
    ensures e == wr ==> Fits(t, rd, wr, f, reading, armed)
  {
    assert e != rd ==> t.Record(rd) == s.Record(rd);
    assert e != wr ==> t.Record(wr) == s.Record(wr);
    assert t.QueuedAt(rd) && t.QueuedAt(wr);
    forall x | x != rd && x != wr ensures !Occupies(t, x, f) {
      assert t.Record(x) == s.Record(x) && !Occupies(s, x, f);
    }
  }

  class Session {
    const base: EventBase
    const sid: int
    const readEvent: Ptr
    const writeEvent: Ptr
    var reading: bool
    var writing: bool
    var open: bool

    ghost predicate Valid()
      reads this, base, base.timetree
    {
      base.Valid() && Fits(base.B(), readEvent, writeEvent, sid, reading && open, writing && open)
    }

    /** A session for a descriptor that no event waits for. The memory of its two events may
        have held events before, which are on no queue any more. */
    constructor (base: EventBase, sid: int, rd: Ptr, wr: Ptr)
      requires base.Valid() && 0 <= sid < |base.slots| && rd != wr && rd != NULL && wr != NULL
      requires (rd in base.flags ==> base.B().Unlinked(rd)) && (wr in base.flags ==> base.B().Unlinked(wr))
      requires Vacant(base.B(), sid)
      ensures Valid() && open && !reading && !writing && this.base == base
      ensures readEvent == rd && writeEvent == wr && this.sid == sid
    {
      FreshFits(base.B(), rd, wr, sid);
      this.base, this.sid, readEvent, writeEvent := base, sid, rd, wr;
      reading, writing, open := false, false, true;
    }

    /** event_set, which finds the event on no queue, and event_add without a timeout. */
    method Arm(e: Ptr, d: Ev)
      requires Valid() && open && (e == readEvent || e == writeEvent) &&
        d == (if e == readEvent then EvRead else EvWrite)
      requires Idle(base.B(), e)
      modifies base, base.timetree
      ensures base.Valid()
      ensures Fits(base.B(), readEvent, writeEvent, sid, reading || e == readEvent, writing || e == writeEvent)
      ensures base.B().Known(e) && base.flags[e] == {Inserted}
    {
      ghost var s := base.B();
      IdleUnlinked(s, e, sid, d);
      base.EventSet(e, sid, {d});
      ArmedReady(s, readEvent, writeEvent, sid, reading, writing, e, d);
      ghost var t := base.B();
      ghost var k;
      var ret;
      ret, k := base.EventAdd(e, None, Timeval(0, 0));
      ArmedFits(s, readEvent, writeEvent, sid, reading, writing, e, d, t, base.B());
    }

    /** Session::addEvent for one direction. */
    method AddEvent(d: Ev)
      requires Valid() && open && (d == EvRead || d == EvWrite)
      modifies this, base, base.timetree
      ensures Valid() && open
      ensures reading == (old(reading) || d == EvRead) && writing == (old(writing) || d == EvWrite)
    {
      if d == EvWrite && !writing {
        Arm(writeEvent, EvWrite);
        writing := true;
      }
      if d == EvRead && !reading {
        Arm(readEvent, EvRead);
        reading := true;
      }
    }

    /** Session::addReadEvent and Session::addWriteEvent */
    method AddReadEvent()
      requires Valid() && open
      modifies this, base, base.timetree
      ensures Valid() && reading && writing == old(writing) && open
    {
      if !reading {
        AddEvent(EvRead);
        reading := true;
      }
    }

    method AddWriteEvent()
      requires Valid() && open
      modifies this, base, base.timetree
      ensures Valid() && writing && reading == old(reading) && open
    {
      if !writing {
        AddEvent(EvWrite);
        writing := true;
      }
    }

    // ---- the callbacks ----

    /** Session::onRead, called with the read event on no queue. `ret` is what readBuffer
        returns, `starts` says whether it arms the write event; zero ends the session. */
    method OnRead(events: set<Ev>, ret: int, starts: bool)
      requires base.Valid() && Fits(base.B(), readEvent, writeEvent, sid, false, writing) && open
      requires base.B().Unlinked(readEvent)
      modifies this, base, base.timetree
      ensures Valid() && (open ==> reading)
      ensures open <==> EvRead !in events || ret != 0
      ensures open ==> writing == (old(writing) || (starts && EvRead in events))
      ensures !open ==> Vacant(base.B(), sid)
    {
      reading := false;
      if EvRead in events {
        if starts {
          AddWriteEvent();
        }
        if ret == 0 {
          Close();
          return;
        }
      }
      AddEvent(EvRead);
    }

    /** The end of a session: event_del of the events that event_set has filled in. No event
        waits for the descriptor then. */
    method Close()
      requires Valid() && open
      modifies this, base, base.timetree
      ensures Valid() && !open && Vacant(base.B(), sid)
    {
      Disarm(readEvent, reading, writing);
      Disarm(writeEvent, false, writing);
      open := false;
      ClosedVacant(base.B(), readEvent, writeEvent, sid);
    }

    method Disarm(e: Ptr, ghost r: bool, ghost w: bool)
      requires base.Valid() && Fits(base.B(), readEvent, writeEvent, sid, r, w) && (e == readEvent || e == writeEvent)
      modifies base, base.timetree
      ensures base.Valid()
      ensures Fits(base.B(), readEvent, writeEvent, sid, r && e != readEvent, w && e != writeEvent)
    {
      ghost var s := base.B();
      assert s.QueuedAt(e);
      if e in base.flags {
        var ret := base.EventDel(e);
        DisarmedFits(s, readEvent, writeEvent, sid, r, w, e);
      }
    }

    /** Session::onWrite, called with the write event on no queue. `ret` is what writeBuffer
        returns; the event is armed again unless there is nothing left to send. */
    method OnWrite(events: set<Ev>, ret: int)
      requires base.Valid() && Fits(base.B(), readEvent, writeEvent, sid, reading, false) && open
      requires base.B().Unlinked(writeEvent)
      modifies this, base, base.timetree
      ensures Valid() && open && reading == old(reading)
      ensures writing <==> EvWrite in events && ret != 0 && ret != OwnSockExit
    {
      var r := 0;
      writing := false;
      if EvWrite in events {
        r := ret;
      }
      if r == OwnSockExit {
      } else if r != 0 {
        AddEvent(EvWrite);
      }
    }

    // ---- what happens around the session ----

    method Deliver(ready: Ready)
      requires Valid() && 0 <= ready.fd < |base.slots|
      modifies base, base.timetree
      ensures Valid() && base.B() == old(base.B().Delivered(ready.fd, ready.Reads(), ready.Writes()))
    {
      DeliveredFits(base.B(), readEvent, writeEvent, sid, reading && open, writing && open, ready);
      base.Deliver(ready);
    }

    method TimeoutProcess(now: Timeval)
      requires Valid() && now.Normal()
      modifies base, base.timetree
      ensures Valid()
    {
      ghost var s, k := base.B(), 0;
      k := base.TimeoutProcess(now);
      ExpiredFits(s, readEvent, writeEvent, sid, reading && open, writing && open, s.timers[..k], base.B());
    }

    /** A call of another program part: it is about other events, and adds none that waits for
        the descriptor. */
    predicate Elsewhere(a: Action)
      reads this, base
    {
      && a.ev != readEvent && a.ev != writeEvent
      && (a.Add? ==> a.ev !in base.fd || base.fd[a.ev] != sid)
    }

    method CallElsewhere(a: Action)
      requires Valid() && Elsewhere(a)
      modifies base, base.timetree
      ensures Valid() && old(base.M()).Acted(a, base.M())
    {
      ghost var m := base.M();
      base.Perform(a);
      ElsewhereFits(m, readEvent, writeEvent, sid, reading && open, writing && open, a, base.M());
    }

    /** event_active of an event of another program part. */
    method ActivateElsewhere(e: Ptr, r: set<Ev>, calls: nat)
      requires Valid() && base.B().Known(e) && e != readEvent && e != writeEvent
      modifies base, base.timetree
      ensures Valid()
    {
      ghost var s := base.B();
      base.EventActive(e, r, calls);
      assert !Occupies(s, e, sid);
      assert s.OthersKept(base.B(), e);
      OtherFits(s, readEvent, writeEvent, sid, reading && open, writing && open, e, base.B());
    }

    /** One round of event_process_active, for the first event of queue i. A one-shot event is
        on no queue when its callback runs. */
    method RunFirst(i: int, ret: int, starts: bool)
      requires Valid() && 0 <= i < |base.activequeues| && base.activequeues[i] != []
      modifies this, base, base.timetree
      ensures Valid() && (old(!open) ==> !open)
      ensures Ran(old(base.activequeues[i][0]), old(base.res), old(reading), old(writing), old(open), ret, starts)
    {
      var e := base.activequeues[i][0];
      assert base.B().QueuedAt(e);
      Dequeue(e);
      if e == readEvent {
        OnRead(base.res[e], ret, starts);
      } else if e == writeEvent {
        OnWrite(base.res[e], ret);
      }
    }

    /** What the callback of e leaves behind. */
    predicate Ran(e: Ptr, res: map<Ptr, set<Ev>>, reading0: bool, writing0: bool, open0: bool, ret: int, starts: bool)
      reads this
    {
      if e == readEvent then
        && e in res && (open <==> EvRead !in res[e] || ret != 0)
        && (open ==> reading && writing == (writing0 || (starts && EvRead in res[e])))
      else if e == writeEvent then
        && e in res && open && reading == reading0
        && (writing <==> EvWrite in res[e] && ret != 0 && ret != OwnSockExit)
      else open == open0 && reading == reading0 && writing == writing0
    }

    /** event_process_active takes the event off its queue. If it is one of the session, the
        session is open and the event is on no queue when the callback begins. */
    method Dequeue(e: Ptr)
      requires Valid() && base.B().On(e, Active)
      modifies base, base.timetree
      ensures base.B().Known(e)
      ensures Fits(base.B(), readEvent, writeEvent, sid,
                   reading && open && e != readEvent, writing && open && e != writeEvent)
      ensures base.Valid() && (e == readEvent || e == writeEvent ==> open && base.B().Unlinked(e))
      ensures base.res == old(base.res)
    {
      ghost var s := base.B();
      s.RemovedValid(e, Active);
      DequeuedFits(s, readEvent, writeEvent, sid, reading && open, writing && open, e);
      base.QueueRemove(e, Active);
    }

    /** Over every sequence of steps the flags say which events are on a queue, and event_set
        is only given events that are not. A session that has ended leaves its descriptor
        vacant. */
    method Run(steps: seq<Step>)
      requires Valid()
      modifies this, base, base.timetree
      ensures Valid() && (!open ==> Vacant(base.B(), sid))
    {
      for n := 0 to |steps|
        invariant Valid()
      {
        Happen(steps[n]);
      }
      if !open { ClosedVacant(base.B(), readEvent, writeEvent, sid); }
    }

    method Happen(s: Step)
      requires Valid()
      modifies this, base, base.timetree
      ensures Valid()
      ensures s.Arms? && old(open) ==> open && reading == (old(reading) || s.d == EvRead)
      ensures s.Arms? && old(open) ==> writing == (old(writing) || s.d == EvWrite)
      ensures !s.Arms? && !s.RunActive? ==> open == old(open) && reading == old(reading) && writing == old(writing)
      ensures s.RunActive? && 0 <= s.i < |old(base.activequeues)| && old(base.activequeues)[s.i] != [] ==>
        Ran(old(base.activequeues)[s.i][0], old(base.res), old(reading), old(writing), old(open), s.ret, s.starts)
    {
      match s
      case Arms(d) =>
        if open && d == EvRead { AddReadEvent(); } else if open && d == EvWrite { AddWriteEvent(); }
      case Reported(ready) =>
        if 0 <= ready.fd < |base.slots| { Deliver(ready); }
      case Expire(now) =>
        if now.Normal() { TimeoutProcess(now); }
      case Back(off) =>
        if off.Normal() { base.ClockWentBack(off); }
      case Calls(a) =>
        if Elsewhere(a) { CallElsewhere(a); }
      case Activates(e, r, calls) =>
        if base.Records().Known(e) && e != readEvent && e != writeEvent { ActivateElsewhere(e, r, calls); }
      case RunActive(i, ret, starts) =>
        if 0 <= i < |base.activequeues| && base.activequeues[i] != [] { RunFirst(i, ret, starts); }
    }
  }

  const OwnSockExit := -1528

  datatype Step =
    | Arms(d: Ev)
    | Reported(ready: Ready)
    | Expire(now: Timeval)
    | Back(off: Timeval)
    | Calls(action: Action)
    | Activates(ev: Ptr, res: set<Ev>, calls: nat)
    | RunActive(i: int, ret: int, starts: bool)

  /** One session on a descriptor: where its events are, and what happens. */
  datatype Life = Life(rd: Ptr, wr: Ptr, steps: seq<Step>)

  /** The number of a descriptor is used again and again: every session begins when the one
      before it has ended, perhaps in the same memory, and each one arms its events
      although the records of the earlier ones are still there. */
  method Serve(base: EventBase, sid: int, lives: seq<Life>) returns (ended: nat, last: Session?)
    requires base.Valid() && 0 <= sid < |base.slots| && Vacant(base.B(), sid)
    modifies base, base.timetree
    ensures base.Valid() && ended <= |lives|
    ensures ended == |lives| ==> Vacant(base.B(), sid)
    ensures ended < |lives| && Startable(base, lives[ended].rd, lives[ended].wr) ==>
      last != null && last.base == base && last.sid == sid && last.Valid() && last.open
  {
    ended, last := 0, null;
    while ended < |lives|
      invariant base.Valid() && 0 <= sid < |base.slots| && ended <= |lives| && Vacant(base.B(), sid)
      decreases |lives| - ended
    {
      var life := lives[ended];
      var possible := Possible(base, life.rd, life.wr);
      if !possible {
        return;
      }
      last := new Session(base, sid, life.rd, life.wr);
      last.Run(life.steps);
      if last.open {
        return;
      }
      ended := ended + 1;
    }
  }

  /** Two events in memory that no queue holds. */
  ghost predicate Startable(base: EventBase, rd: Ptr, wr: Ptr)
    reads base, base.timetree
  {
    && rd != wr && rd != NULL && wr != NULL
    && (rd in base.flags ==> base.B().Unlinked(rd)) && (wr in base.flags ==> base.B().Unlinked(wr))
  }

  method Possible(base: EventBase, rd: Ptr, wr: Ptr) returns (possible: bool)
    ensures possible <==> Startable(base, rd, wr)
  {
    possible := rd != wr && rd != NULL && wr != NULL
      && (rd in base.flags ==> base.Records().Unlinked(rd)) && (wr in base.flags ==> base.Records().Unlinked(wr));
  }

  /** Events on no queue are ready for a session on a vacant descriptor. */
  lemma FreshFits(s: Base, rd: Ptr, wr: Ptr, f: int)
    requires s.Valid() && 0 <= f < |s.slots| && rd != wr && rd != NULL && wr != NULL && Vacant(s, f)
    requires (rd in s.flags ==> s.Unlinked(rd)) && (wr in s.flags ==> s.Unlinked(wr))
    ensures Fits(s, rd, wr, f, false, false)
  {
    UnlinkedIdle(s, rd);
    UnlinkedIdle(s, wr);
  }

  lemma UnlinkedIdle(s: Base, e: Ptr)
    requires e in s.flags ==> s.Unlinked(e)
    ensures Idle(s, e)
  {
    if e in s.flags {
      forall q ensures q !in s.flags[e] {
        assert s.On(e, q) <==> q in s.flags[e];
        match q case Timeout => case Inserted => case Signal => case Active =>
      }
    }
  }

  /** With both events idle no event waits for the descriptor. */
  lemma ClosedVacant(s: Base, rd: Ptr, wr: Ptr, f: int)
    requires Fits(s, rd, wr, f, false, false)
    ensures Vacant(s, f)
  {
  }

  /** A call about another event, which does not come to wait for the descriptor. */
  lemma ElsewhereFits(m: Machine, rd: Ptr, wr: Ptr, f: int, reading: bool, writing: bool, a: Action, m1: Machine)
    requires Fits(m.b, rd, wr, f, reading, writing) && m.Acted(a, m1) && a.ev != rd && a.ev != wr
    requires a.Add? ==> m.b.Record(a.ev).0 != Some(f)
    ensures Fits(m1.b, rd, wr, f, reading, writing)
  {
    m.ActedContained(a, m1);
    ElsewherePlaces(m, rd, wr, f, a, m1);
    OtherFits(m.b, rd, wr, f, reading, writing, a.ev, m1.b);
  }

  lemma ElsewherePlaces(m: Machine, rd: Ptr, wr: Ptr, f: int, a: Action, m1: Machine)
    requires m.b.Valid() && Exclusive(m.b, rd, wr, f) && m.Acted(a, m1) && a.ev != rd && a.ev != wr
    requires a.Add? ==> m.b.Record(a.ev).0 != Some(f)
    ensures !Occupies(m1.b, a.ev, f)
  {
    assert !Occupies(m.b, a.ev, f);
    if m.b.Allowed(a) && a.Add? {
      var k :| m.Added(a.ev, a.tv, a.now, k, m1);
      m.AddedActive(a.ev, a.tv.Some?, k);
    }
    if m.b.Allowed(a) && a.Del? { m.b.DeletedFieldsHold(a.ev); }
  }

  lemma DisarmedFits(s: Base, rd: Ptr, wr: Ptr, f: int, reading: bool, writing: bool, e: Ptr)
    requires Fits(s, rd, wr, f, reading, writing) && s.Known(e) && (e == rd || e == wr)
    ensures s.On(e, Inserted) ==> 0 <= s.fd[e] < |s.slots|
    ensures s.Deleted(e).Valid() && Fits(s.Deleted(e), rd, wr, f, reading && e != rd, writing && e != wr)
  {
    s.DeletedValid(e);
    s.DeletedKeepsOthers(e);
    s.DeletedFieldsHold(e);
    assert s.Deleted(e).QueuedAt(e);
    OwnFits(s, rd, wr, f, reading, writing, e, s.Deleted(e), false);
  }

  lemma DequeuedFits(s: Base, rd: Ptr, wr: Ptr, f: int, reading: bool, writing: bool, e: Ptr)
    requires Fits(s, rd, wr, f, reading, writing) && s.On(e, Active) && s.Known(e) && s.Removed(e, Active).Valid()
    ensures var t := s.Removed(e, Active);
      && t.Known(e) && Fits(t, rd, wr, f, reading && e != rd, writing && e != wr)
      && (e == rd || e == wr ==> t.Unlinked(e)) && (e == rd ==> reading) && (e == wr ==> writing)
  {
    var t := s.Removed(e, Active);
    assert s.OthersKept(t, e);
    if e == rd || e == wr {
      assert t.flags[e] == {};
      OwnFits(s, rd, wr, f, reading, writing, e, t, false);
    } else {
      assert !Occupies(s, e, f);
      OtherFits(s, rd, wr, f, reading, writing, e, t);
    }
  }

  // ---- what event_set and event_add do to an idle event of the session ----

  lemma ArmedReady(s: Base, rd: Ptr, wr: Ptr, f: int, reading: bool, writing: bool, e: Ptr, d: Ev)
    requires Fits(s, rd, wr, f, reading, writing) && (e == rd || e == wr) && d == (if e == rd then EvRead else EvWrite)
    requires Idle(s, e)
    ensures var t := s.Initialised(e, f, {d});
      && t.Known(e) && t.flags[e] == {} && t.AddReady(e, false) && t.Insertable(e) && t.WantsSlot(e) &&
         s.OthersKept(t, e)
  {
    DirectionFree(s, rd, wr, f);
    assert s.activequeues != [];
  }

  lemma ArmedFits(s: Base, rd: Ptr, wr: Ptr, f: int, reading: bool, writing: bool, e: Ptr, d: Ev, t: Base, u: Base)
    requires Fits(s, rd, wr, f, reading, writing) && (e == rd || e == wr) && d == (if e == rd then EvRead else EvWrite)
    requires t == s.Initialised(e, f, {d}) && t.Known(e) && t.flags[e] == {} && t.Insertable(e) && t.WantsSlot(e)
    requires u == t.Enrolled(e) && u.Valid()
    ensures Fits(u, rd, wr, f, reading || e == rd, writing || e == wr)
    ensures u.Known(e) && u.flags[e] == {Inserted}
  {
    assert u.flags[e] == {Inserted};
    assert u.QueuedAt(e);
    assert s.OthersKept(t, e) && t.OthersKept(u, e);
    forall x | x != e ensures u.Record(x) == s.Record(x) {
      assert u.Record(x) == t.Record(x) && t.Record(x) == s.Record(x);
    }
    assert Inserted in u.flags[e];
    OwnFits(s, rd, wr, f, reading, writing, e, u, true);
  }
}

/** The thread pool of common/gthread/gthreadpool.cpp: one thread that dispatches jobs and
    then destroys the pool, and the threads that the pool creates. A step runs from the
    moment a thread gets a mutex, or from its last step, to the next call that can block or
    to the next release of a mutex. */
module ThreadPool {

  /** Threads are numbered in the order of their creation. */
  type Tid = nat
  const NONE := -1

  datatype Owner = Nobody | Boss | Worker(t: Tid)

  /** Where a thread stands in wrapperFunc and saveThread. */
  datatype At =
    | Check          // at the test of mIsShutdown
    | Call           // about to call mFunc
    | Running        // inside mFunc
    | LockSelf       // at the lock of its own mutex
    | SaveLock       // in saveThread, at the lock of the main mutex
    | SaveUnlock     // in saveThread, put on the list
    | SaveFailed     // in saveThread, the list was full
    | Wait           // at the wait for its own condition
    | Waiting        // waiting, its own mutex released
    | Woken          // signalled, at the lock of its own mutex
    | UnlockSelf     // after the wait
    | ExitLock       // out of the loop, at the lock of the main mutex
    | ExitUnlock     // counted out
    | Gone

  /** Where the dispatching thread stands in dispatch, for job j, or in the destructor. */
  datatype BossAt =
    | Rest
    | Lock(j: nat)
    | WaitIdle(j: nat)
    | RelockIdle(j: nat)
    | Assign(j: nat)
    | LockThread(t: Tid)
    | Signal(t: Tid)
    | UnlockThread(t: Tid)
    | Unlock
    | DestroyLock
    | WaitFull
    | RelockFull
    | Shutdown
    | SigLock(i: nat)
    | Sig(i: nat)
    | SigUnlock(i: nat)
    | WaitEmpty
    | RelockEmpty
    | Free(i: nat)
    | DestroyUnlock
    | Done

  /** What has become of a job: its dispatch has not decided yet, could not create a thread,
      has given it to a thread that has not called it yet, or it has been called. */
  datatype JobState = Asked | Refused | With(t: Tid) | Called

  /** What the dispatching thread does next where it has a choice, or where pthread_create
      may fail. */
  datatype Choice = Dispatch | Destroy | Go(created: bool)

  datatype Step = ByBoss(c: Choice) | ByWorker(t: Tid)

  datatype Pool = Pool(
      main: Owner,              // mMainMutex
      index: int,               // mIndex
      total: int,               // mTotal
      shutdown: bool,           // mIsShutdown
      list: seq<int>,           // mThreadList, of length mMaxThreads
      boss: BossAt,
      at: seq<At>,
      mutex: seq<Owner>,        // mMutex of every record
      job: seq<nat>,            // mFunc and mArg of every record
      freed: seq<bool>,         // the records that have been freed
      // history
      slot: seq<int>,           // the place of every thread on the list
      jobs: seq<JobState>,
      calls: seq<nat>)          // how often every job has been called
  {
    function Max(): nat { |list| }

    // ---- signals ----

    function SignalIdle(): Pool {
      if boss.WaitIdle? then this.(boss := RelockIdle(boss.j)) else this
    }

    function SignalFull(): Pool {
      if boss == WaitFull then this.(boss := RelockFull) else this
    }

    function SignalEmpty(): Pool {
      if boss == WaitEmpty then this.(boss := RelockEmpty) else this
    }

    function SignalThread(t: Tid): Pool
      requires t < |at|
    {
      if at[t] == Waiting then this.(at := at[t := Woken]) else this
    }

    // ---- wrapperFunc and saveThread ----

    predicate WorkerReady(t: Tid) {
      && t < |at| && t < |mutex| && t < |job| && t < |freed| && t < |slot|
      && match at[t]
         case Call => job[t] < |calls| && job[t] < |jobs|
         case LockSelf => mutex[t] == Nobody
         case SaveLock => main == Nobody && 0 <= index
         case Waiting => false
         case Woken => mutex[t] == Nobody
         case ExitLock => main == Nobody
         case Gone => false
         case _ => true
    }

    /** saveThread under the main mutex. */
    function Save(t: Tid): Pool
      requires WorkerReady(t) && at[t] == SaveLock
    {
      if index < Max() then
        var s := this.(main := Worker(t), at := at[t := SaveUnlock],
                       list := list[index := t], slot := slot[t := index], index := index + 1).SignalIdle();
        if s.index >= s.total then s.SignalFull() else s
      else this.(main := Worker(t), at := at[t := SaveFailed])
    }

    function Exit(t: Tid): Pool
      requires WorkerReady(t) && at[t] == ExitLock
    {
      var s := this.(main := Worker(t), at := at[t := ExitUnlock], total := total - 1);
      if s.total <= 0 then s.SignalEmpty() else s
    }

    function WorkerStep(t: Tid): Pool
      requires WorkerReady(t)
    {
      match at[t]
      case Check => this.(at := at[t := if shutdown then ExitLock else Call])
      case Call => this.(at := at[t := Running], jobs := jobs[job[t] := Called],
                         calls := calls[job[t] := calls[job[t]] + 1])
      case Running => this.(at := at[t := LockSelf])
      case LockSelf => this.(at := at[t := SaveLock], mutex := mutex[t := Worker(t)])
      case SaveLock => Save(t)
      case SaveUnlock => this.(at := at[t := Wait], main := Nobody)
      case SaveFailed => this.(at := at[t := Gone], main := Nobody, mutex := mutex[t := Nobody],
        freed := freed[t := true])
      case Wait => this.(at := at[t := Waiting], mutex := mutex[t := Nobody])
      case Waiting => this
      case Woken => this.(at := at[t := UnlockSelf], mutex := mutex[t := Worker(t)])
      case UnlockSelf => this.(at := at[t := Check], mutex := mutex[t := Nobody])
      case ExitLock => Exit(t)
      case ExitUnlock => this.(at := at[t := Gone], main := Nobody)
      case Gone => this
    }

    // ---- dispatch and the destructor ----

    /** The thread at place i of the list. */
    predicate Listed(i: nat) {
      i < |list| && 0 <= list[i] < |at| && list[i] < |mutex| && list[i] < |freed|
    }

    predicate BossReady(c: Choice) {
      match boss
      case Rest => !c.Go?
      case Lock(j) => c.Go? && main == Nobody
      case WaitIdle(j) => false
      case RelockIdle(j) => c.Go? && main == Nobody
      case Assign(j) => c.Go? && j < |jobs| &&
        (index > 0 ==> Listed(index - 1) && list[index - 1] < |job| && list[index - 1] < |slot|)
      case LockThread(t) => c.Go? && t < |mutex| && mutex[t] == Nobody
      case Signal(t) => c.Go? && t < |at|
      case UnlockThread(t) => c.Go? && t < |mutex|
      case Unlock => c.Go?
      case DestroyLock => c.Go? && main == Nobody
      case WaitFull => false
      case RelockFull => c.Go? && main == Nobody
      case Shutdown => c.Go?
      case SigLock(i) => c.Go? && (i < index ==> Listed(i) && mutex[list[i]] == Nobody)
      case Sig(i) => c.Go? && Listed(i)
      case SigUnlock(i) => c.Go? && Listed(i)
      case WaitEmpty => false
      case RelockEmpty => c.Go? && main == Nobody
      case Free(i) => c.Go? && (i < index ==> Listed(i))
      case DestroyUnlock => c.Go?
      case Done => false
    }

    /** A new thread, if pthread_create succeeds. */
    function Create(j: nat, created: bool): Pool
      requires j < |jobs|
    {
      if created then
        this.(at := at + [Check], mutex := mutex + [Nobody], job := job + [j], freed := freed + [false],
              slot := slot + [NONE], jobs := jobs[j := With(|at|)], total := total + 1, boss := Unlock)
      else this.(jobs := jobs[j := Refused], boss := Unlock)
    }

    /** The last idle thread of the list. */
    function Pop(j: nat): Pool
      requires j < |jobs| && index > 0 && Listed(index - 1) && list[index - 1] < |job| && list[index - 1] < |slot|
    {
      var t := list[index - 1];
      this.(index := index - 1, list := list[index - 1 := NONE], job := job[t := j], slot := slot[t := NONE],
            jobs := jobs[j := With(t)], boss := LockThread(t))
    }

    function BossStep(c: Choice): Pool
      requires BossReady(c)
    {
      match boss
      case Rest =>
        if c == Dispatch then this.(boss := Lock(|jobs|), jobs := jobs + [Asked], calls := calls + [0])
        else this.(boss := DestroyLock)
      case Lock(j) =>
        if index <= 0 && total >= Max() then this.(boss := WaitIdle(j))
        else this.(boss := Assign(j), main := Boss)
      case WaitIdle(j) => this
      case RelockIdle(j) => this.(boss := Assign(j), main := Boss)
      case Assign(j) => if index <= 0 then Create(j, c.created) else Pop(j)
      case LockThread(t) => this.(boss := Signal(t), mutex := mutex[t := Boss])
      case Signal(t) => SignalThread(t).(boss := UnlockThread(t))
      case UnlockThread(t) => this.(boss := Unlock, mutex := mutex[t := Nobody])
      case Unlock => this.(boss := Rest, main := Nobody)
      case DestroyLock =>
        if index < total then this.(boss := WaitFull) else this.(boss := Shutdown, main := Boss)
      case WaitFull => this
      case RelockFull => this.(boss := Shutdown, main := Boss)
      case Shutdown => this.(boss := SigLock(0), shutdown := true)
      case SigLock(i) =>
        if i < index then this.(boss := Sig(i), mutex := mutex[list[i] := Boss])
        else if total > 0 then this.(boss := WaitEmpty, main := Nobody)
        else this.(boss := Free(0))
      case Sig(i) => SignalThread(list[i]).(boss := SigUnlock(i))
      case SigUnlock(i) => this.(boss := SigLock(i + 1), mutex := mutex[list[i] := Nobody])
      case WaitEmpty => this
      case RelockEmpty => this.(boss := Free(0), main := Boss)
      case Free(i) =>
        if i < index then this.(boss := Free(i + 1), freed := freed[list[i] := true], list := list[i := NONE])
        else this.(boss := DestroyUnlock)
      case DestroyUnlock => this.(boss := Done, main := Nobody, index := 0)
      case Done => this
    }

    predicate Ready(e: Step) {
      match e
      case ByBoss(c) => BossReady(c)
      case ByWorker(t) => WorkerReady(t)
    }

    function Do(e: Step): Pool
      requires Ready(e)
    {
      match e
      case ByBoss(c) => BossStep(c)
      case ByWorker(t) => WorkerStep(t)
    }

    // ---- the invariant ----

    /** The dispatching thread holds the main mutex. */
    predicate BossHolds() {
      match boss
      case Assign(_) => true
      case LockThread(_) => true
      case Signal(_) => true
      case UnlockThread(_) => true
      case Unlock => true
      case Shutdown => true
      case SigLock(_) => true
      case Sig(_) => true
      case SigUnlock(_) => true
      case Free(_) => true
      case DestroyUnlock => true
      case _ => false
    }

    /** The destructor has set mIsShutdown. */
    predicate Closing() {
      match boss
      case SigLock(_) => true
      case Sig(_) => true
      case SigUnlock(_) => true
      case WaitEmpty => true
      case RelockEmpty => true
      case Free(_) => true
      case DestroyUnlock => true
      case Done => true
      case _ => false
    }

    /** The destructor frees the records, or has freed them. */
    predicate Freeing() {
      boss.Free? || boss == DestroyUnlock || boss == Done
    }

    /** The number of threads that the destructor has signalled. */
    function Signalled(): int {
      match boss
      case SigLock(i) => i
      case Sig(i) => i
      case SigUnlock(i) => i + 1
      case _ => |at|
    }

    /** The number of list entries that the destructor has cleared. */
    function Cleared(): int {
      match boss
      case Free(i) => i
      case DestroyUnlock => |at|
      case Done => |at|
      case _ => 0
    }

    /** dispatch has taken t off the list and not signalled it yet. */
    predicate Taken(t: Tid) {
      boss == LockThread(t) || boss == Signal(t)
    }

    /** t has a job that it has not called yet. */
    predicate Pending(t: Tid)
      requires t < |at|
    {
      !shutdown && (Taken(t) || at[t] in {Woken, UnlockSelf, Check, Call})
    }

    /** The mutex of t is held by the dispatching thread. */
    predicate BossHoldsThread(t: Tid) {
      || boss == Signal(t) || boss == UnlockThread(t)
      || (boss.Sig? && boss.i < |list| && list[boss.i] == t)
      || (boss.SigUnlock? && boss.i < |list| && list[boss.i] == t)
    }

    predicate Sizes() {
      && |mutex| == |job| == |freed| == |slot| == |at| && |jobs| == |calls|
      && 0 < |list| && |at| <= |list|
    }

    /** What holds of the counters and of the main mutex. */
    predicate Counts() {
      && (boss == Done || 0 <= index <= |at|)
      && (shutdown <==> Closing())
      && (!shutdown ==> total == |at|)
      && (shutdown ==> total == |at| - Out(at) && (boss != Done ==> index == |at|))
      && (main == Boss <==> BossHolds())
      && (main.Worker? ==> main.t < |at| && at[main.t] in {SaveUnlock, ExitUnlock})
    }

    /** What the place of the dispatching thread says. */
    predicate BossPlace()
      requires Sizes()
    {
      match boss
      case Lock(j) => j < |jobs| && jobs[j] == Asked
      case WaitIdle(j) => j < |jobs| && jobs[j] == Asked && index == 0 && total >= Max()
      case RelockIdle(j) => j < |jobs| && jobs[j] == Asked && index > 0
      case Assign(j) => j < |jobs| && jobs[j] == Asked && (index > 0 || total < Max())
      case LockThread(t) => t < |at| && slot[t] == NONE && at[t] in {Wait, Waiting}
      case Signal(t) => t < |at| && slot[t] == NONE && at[t] == Waiting
      case UnlockThread(t) => t < |at| && slot[t] == NONE
      case WaitFull => index < total
      case RelockFull => index == total
      case Shutdown => index == total
      case SigLock(i) => i <= index
      case Sig(i) => i < index <= |list| && list[i] >= 0 && list[i] < |at| && at[list[i]] == Waiting
      case SigUnlock(i) => i < index
      case WaitEmpty => total > 0
      case RelockEmpty => total <= 0
      case Free(i) => i <= index && total <= 0
      case DestroyUnlock => total <= 0
      case Done => total <= 0 && main == Nobody && index == 0
      case _ => true
    }

    /** The first mIndex entries are threads that are there once; the others are null. */
    predicate ListPlace(i: nat)
      requires i < |list|
    {
      if Cleared() <= i < index then 0 <= list[i] < |slot| && slot[list[i]] == i
      else list[i] == NONE
    }

    predicate ThreadPlace(t: Tid)
      requires Sizes() && t < |at|
    {
      && (slot[t] == NONE || (0 <= slot[t] < |list| &&
        (Cleared() <= slot[t] ==> slot[t] < index && list[slot[t]] == t)))
      && (shutdown ==> slot[t] != NONE)
      && (main == Worker(t) <==> at[t] in {SaveUnlock, ExitUnlock})
      && (mutex[t] == Worker(t) <==> at[t] in {SaveLock, SaveUnlock, Wait, UnlockSelf})
      && (mutex[t] == Boss <==> BossHoldsThread(t))
      && (mutex[t].Worker? ==> mutex[t].t == t)
      && (if !shutdown then
            if slot[t] != NONE then at[t] in {SaveUnlock, Wait, Waiting}
            else Taken(t) || at[t] in {Check, Call, Running, LockSelf, SaveLock, Woken, UnlockSelf}
          else if slot[t] >= Signalled() then at[t] in {Wait, Waiting}
          else at[t] in {Woken, UnlockSelf, Check, ExitLock, ExitUnlock, Gone})
      && (freed[t] <==> Cleared() > slot[t] >= 0)
      && (Pending(t) ==> job[t] < |jobs| && jobs[job[t]] == With(t))
      && (at[t] == Running ==> job[t] < |jobs|)
    }

    predicate JobPlace(j: nat)
      requires Sizes() && j < |jobs|
    {
      && (jobs[j].With? ==> jobs[j].t < |at| && Pending(jobs[j].t) && job[jobs[j].t] == j)
      && calls[j] == (if jobs[j] == Called then 1 else 0)
      && (jobs[j] == Asked ==> boss == Lock(j) || boss == WaitIdle(j) || boss == RelockIdle(j) || boss == Assign(j))
    }

    ghost predicate Inv() {
      && Sizes() && Counts() && BossPlace()
      && (forall i {:trigger ListPlace(i)} :: 0 <= i < |list| ==> ListPlace(i))
      && (forall t {:trigger ThreadPlace(t)} :: 0 <= t < |at| ==> ThreadPlace(t))
      && (forall j {:trigger JobPlace(j)} :: 0 <= j < |jobs| ==> JobPlace(j))
    }
  }

  /** The threads that have been counted out. */
  function Out(at: seq<At>): nat {
    if at == [] then 0
    else Out(at[..|at| - 1]) + (if at[|at| - 1] in {ExitUnlock, Gone} then 1 else 0)
  }

  function Initial(max: nat): Pool {
    Pool(Nobody, 0, 0, false, seq(max, i => NONE), Rest, [], [], [], [], [], [], [])
  }

  lemma {:induction false} OutUpdate(at: seq<At>, t: nat, a: At)
    requires t < |at|
    ensures Out(at[t := a]) == Out(at) - (if at[t] in {ExitUnlock, Gone} then 1 else 0) +
      (if a in {ExitUnlock, Gone} then 1 else 0)
  {
    var n := |at| - 1;
    if t < n {
      OutUpdate(at[..n], t, a);
      assert at[t := a][..n] == at[..n][t := a];
    } else {
      assert at[t := a][..n] == at[..n];
    }
  }

  lemma {:induction false} OutBounds(at: seq<At>)
    ensures Out(at) <= |at|
    ensures (forall t :: 0 <= t < |at| ==> at[t] !in {ExitUnlock, Gone}) ==> Out(at) == 0
    ensures Out(at) == |at| ==> forall t :: 0 <= t < |at| ==> at[t] in {ExitUnlock, Gone}
  {
    if at != [] {
      OutBounds(at[..|at| - 1]);
      if forall t :: 0 <= t < |at| ==> at[t] !in {ExitUnlock, Gone} {
        assert forall t :: 0 <= t < |at| - 1 ==> at[..|at| - 1][t] == at[t];
      }
      if Out(at) == |at| {
        forall t | 0 <= t < |at| ensures at[t] in {ExitUnlock, Gone} {
          if t < |at| - 1 { assert at[..|at| - 1][t] == at[t]; }
        }
      }
    }
  }

  lemma InitialInv(max: nat)
    requires max > 0
    ensures Initial(max).Inv()
  {
  }

  // ---- counting threads ----

  function Below(n: nat): set<int> {
    if n == 0 then {} else Below(n - 1) + {n - 1}
  }

  lemma {:induction false} BelowElements(n: nat)
    ensures |Below(n)| == n
    ensures forall t {:trigger t in Below(n)} :: t in Below(n) <==> 0 <= t < n
  {
    if n > 0 { BelowElements(n - 1); }
  }

  lemma {:induction false} Elements(q: seq<int>)
    requires forall i, j :: 0 <= i < j < |q| ==> q[i] != q[j]
    ensures |set x | x in q| == |q|
  {
    if q != [] {
      var r := q[..|q| - 1];
      Elements(r);
      assert q == r + [q[|q| - 1]];
      assert (set x | x in q) == (set x | x in r) + {q[|q| - 1]};
    }
  }

  /** At most n different numbers are below n, and n of them are all. */
  lemma Pigeonhole(q: seq<int>, n: nat)
    requires forall i, j :: 0 <= i < j < |q| ==> q[i] != q[j]
    requires forall i :: 0 <= i < |q| ==> 0 <= q[i] < n
    ensures |q| <= n
    ensures |q| == n ==> forall t :: 0 <= t < n ==> t in q
  {
    BelowElements(n);
    Elements(q);
    var a, b := (set x | x in q), Below(n);
    assert a <= b;
    assert |b - a| == |b| - |a|;
    if |q| == n {
      assert b - a == {};
      forall t | 0 <= t < n ensures t in q {
        assert t in b && t !in b - a;
      }
    }
  }

  /** All threads are on the list exactly if mIndex is their number. */
  lemma AllListed(s: Pool)
    requires s.Inv() && s.Cleared() == 0 && s.boss != Done
    ensures s.index == |s.at| <==> forall t :: 0 <= t < |s.at| ==> s.slot[t] != NONE
    ensures (exists t :: 0 <= t < |s.at| && s.slot[t] == NONE) ==> s.index < s.Max()
  {
    forall i | 0 <= i < s.index ensures 0 <= s.list[i] < |s.at| && s.slot[s.list[i]] == i {
      assert s.ListPlace(i);
    }
    Pigeonhole(s.list[..s.index], |s.at|);
    if s.index == |s.at| {
      forall t | 0 <= t < |s.at| ensures s.slot[t] != NONE {
        assert t in s.list[..s.index];
      }
    }
    if forall t :: 0 <= t < |s.at| ==> s.slot[t] != NONE {
      forall t | 0 <= t < |s.at| ensures 0 <= s.slot[t] < s.index && s.list[s.slot[t]] == t {
        assert s.ThreadPlace(t);
      }
      Pigeonhole(s.slot, s.index);
    }
  }

  // ---- the steps of a thread keep the invariant ----

  /** A thread that moves on by itself, locking or releasing nothing but its own mutex. */
  lemma MoveKeeps(s: Pool, t: Tid, a: At, m: Owner)
    requires s.Inv() && t < |s.at|
    requires s.at[t] !in {SaveUnlock, ExitUnlock, Gone} && a !in {SaveUnlock, ExitUnlock, Gone}
    requires var s1 := s.(at := s.at[t := a], mutex := s.mutex[t := m]);
      s1.Sizes() && s1.BossPlace() && s1.ThreadPlace(t) && (s.Pending(t) ==> s1.Pending(t))
    ensures s.(at := s.at[t := a], mutex := s.mutex[t := m]).Inv()
  {
    var s1 := s.(at := s.at[t := a], mutex := s.mutex[t := m]);
    OutUpdate(s.at, t, a);
    forall i | 0 <= i < |s1.list| ensures s1.ListPlace(i) { assert s.ListPlace(i); }
    forall u | 0 <= u < |s1.at| ensures s1.ThreadPlace(u) {
      if u != t { assert s.ThreadPlace(u); OtherPlace(s, t, a, m, u); }
    }
    forall j | 0 <= j < |s1.jobs| ensures s1.JobPlace(j) { assert s.JobPlace(j); }
  }

  lemma OtherPlace(s: Pool, t: Tid, a: At, m: Owner, u: Tid)
    requires s.Sizes() && t < |s.at| && u < |s.at| && u != t && s.ThreadPlace(u)
    ensures var s1 := s.(at := s.at[t := a], mutex := s.mutex[t := m]); s1.Sizes() && s1.ThreadPlace(u)
  {
  }

  lemma OwnPlace(s: Pool, t: Tid)
    requires s.Sizes() && s.Counts() && s.BossPlace() && t < |s.at| && s.ThreadPlace(t)
    requires s.WorkerReady(t) && s.at[t] in {Check, Running, LockSelf, Wait, Woken, UnlockSelf}
    ensures var s1 := s.WorkerStep(t);
      s1.Sizes() && s1.BossPlace() && s1.ThreadPlace(t) && (s.Pending(t) ==> s1.Pending(t))
  {
    if s.at[t] in {Check, Running, LockSelf} { ForwardPlace(s, t); } else { BackPlace(s, t); }
  }

  lemma ForwardPlace(s: Pool, t: Tid)
    requires s.Sizes() && s.Counts() && s.BossPlace() && t < |s.at| && s.ThreadPlace(t)
    requires s.WorkerReady(t) && s.at[t] in {Check, Running, LockSelf}
    ensures var s1 := s.WorkerStep(t);
      s1.Sizes() && s1.BossPlace() && s1.ThreadPlace(t) && (s.Pending(t) ==> s1.Pending(t))
  {
  }

  lemma BackPlace(s: Pool, t: Tid)
    requires s.Sizes() && s.Counts() && s.BossPlace() && t < |s.at| && s.ThreadPlace(t)
    requires s.WorkerReady(t) && s.at[t] in {Wait, Woken, UnlockSelf}
    ensures var s1 := s.WorkerStep(t);
      s1.Sizes() && s1.BossPlace() && s1.ThreadPlace(t) && (s.Pending(t) ==> s1.Pending(t))
  {
  }

  lemma OwnStepKeeps(s: Pool, t: Tid)
    requires s.Inv() && s.WorkerReady(t) && s.at[t] in {Check, Running, LockSelf, Wait, Woken, UnlockSelf}
    ensures s.WorkerStep(t).Inv()
  {
    var s1 := s.WorkerStep(t);
    assert s.ThreadPlace(t);
    OwnPlace(s, t);
    assert s1 == s.(at := s.at[t := s1.at[t]], mutex := s.mutex[t := s1.mutex[t]]);
    MoveKeeps(s, t, s1.at[t], s1.mutex[t]);
  }

  lemma CallKeeps(s: Pool, t: Tid)
    requires s.Inv() && s.WorkerReady(t) && s.at[t] in {Call}
    ensures s.WorkerStep(t).Inv()
  {
    var s1 := s.WorkerStep(t);
    assert s.ThreadPlace(t);
    OutUpdate(s.at, t, s1.at[t]);
    forall i | 0 <= i < |s1.list| ensures s1.ListPlace(i) { assert s.ListPlace(i); }
    forall u | 0 <= u < |s1.at| ensures s1.ThreadPlace(u) { assert s.ThreadPlace(u); }
    forall j | 0 <= j < |s1.jobs| ensures s1.JobPlace(j) { assert s.JobPlace(j); }
  }

  lemma SaveKeeps(s: Pool, t: Tid)
    requires s.Inv() && s.WorkerReady(t) && s.at[t] in {SaveLock}
    ensures s.WorkerStep(t).Inv()
  {
    var s1 := s.WorkerStep(t);
    assert s.ThreadPlace(t);
    OutUpdate(s.at, t, s1.at[t]);
    AllListed(s);
    SaveKeepsThreads(s, t);
    forall i | 0 <= i < |s1.list| ensures s1.ListPlace(i) { assert s.ListPlace(i); }
    forall j | 0 <= j < |s1.jobs| ensures s1.JobPlace(j) { assert s.JobPlace(j); }
  }

  lemma SaveKeepsThreads(s: Pool, t: Tid)
    requires s.Inv() && s.WorkerReady(t) && s.at[t] in {SaveLock}
    ensures var s1 := s.WorkerStep(t);
      s1.Sizes() && forall u {:trigger s1.ThreadPlace(u)} :: 0 <= u < |s1.at| ==> s1.ThreadPlace(u)
  {
    var s1 := s.WorkerStep(t);
    assert s.ThreadPlace(t);
    AllListed(s);
    forall u | 0 <= u < |s1.at| ensures s1.ThreadPlace(u) { assert s.ThreadPlace(u); }
  }

  lemma SavedKeeps(s: Pool, t: Tid)
    requires s.Inv() && s.WorkerReady(t) && s.at[t] in {SaveUnlock, SaveFailed}
    ensures s.WorkerStep(t).Inv()
  {
    var s1 := s.WorkerStep(t);
    assert s.ThreadPlace(t);
    OutUpdate(s.at, t, s1.at[t]);
    forall i | 0 <= i < |s1.list| ensures s1.ListPlace(i) { assert s.ListPlace(i); }
    forall u | 0 <= u < |s1.at| ensures s1.ThreadPlace(u) { assert s.ThreadPlace(u); }
    forall j | 0 <= j < |s1.jobs| ensures s1.JobPlace(j) { assert s.JobPlace(j); }
  }

  lemma ExitKeeps(s: Pool, t: Tid)
    requires s.Inv() && s.WorkerReady(t) && s.at[t] in {ExitLock}
    ensures s.WorkerStep(t).Inv()
  {
    var s1 := s.WorkerStep(t);
    assert s.ThreadPlace(t);
    OutUpdate(s.at, t, s1.at[t]);
    OutBounds(s1.at);
    ExitKeepsThreads(s, t);
    forall i | 0 <= i < |s1.list| ensures s1.ListPlace(i) { assert s.ListPlace(i); }
    forall j | 0 <= j < |s1.jobs| ensures s1.JobPlace(j) { assert s.JobPlace(j); }
  }

  lemma ExitKeepsThreads(s: Pool, t: Tid)
    requires s.Inv() && s.WorkerReady(t) && s.at[t] in {ExitLock}
    ensures var s1 := s.WorkerStep(t);
      s1.Sizes() && forall u {:trigger s1.ThreadPlace(u)} :: 0 <= u < |s1.at| ==> s1.ThreadPlace(u)
  {
    var s1 := s.WorkerStep(t);
    assert s.ThreadPlace(t);
    forall u | 0 <= u < |s1.at| ensures s1.ThreadPlace(u) { assert s.ThreadPlace(u); }
  }

  lemma ExitedKeeps(s: Pool, t: Tid)
    requires s.Inv() && s.WorkerReady(t) && s.at[t] in {ExitUnlock}
    ensures s.WorkerStep(t).Inv()
  {
    var s1 := s.WorkerStep(t);
    assert s.ThreadPlace(t);
    OutUpdate(s.at, t, s1.at[t]);
    forall i | 0 <= i < |s1.list| ensures s1.ListPlace(i) { assert s.ListPlace(i); }
    forall u | 0 <= u < |s1.at| ensures s1.ThreadPlace(u) { assert s.ThreadPlace(u); }
    forall j | 0 <= j < |s1.jobs| ensures s1.JobPlace(j) { assert s.JobPlace(j); }
  }

  // ---- the steps of the dispatching thread keep the invariant ----

  lemma RestKeeps(s: Pool, c: Choice)
    requires s.Inv() && s.BossReady(c) && (s.boss in {Rest, Unlock})
    ensures s.BossStep(c).Inv()
  {
    var s1 := s.BossStep(c);
    forall i | 0 <= i < |s1.list| ensures s1.ListPlace(i) { assert s.ListPlace(i); }
    forall u | 0 <= u < |s1.at| ensures s1.ThreadPlace(u) { assert s.ThreadPlace(u); }
    forall j | 0 <= j < |s1.jobs| ensures s1.JobPlace(j) { if j < |s.jobs| { assert s.JobPlace(j); } }
  }

  lemma LockKeeps(s: Pool, c: Choice)
    requires s.Inv() && s.BossReady(c) && (s.boss.Lock? || s.boss.RelockIdle?)
    ensures s.BossStep(c).Inv()
  {
    var s1 := s.BossStep(c);
    forall i | 0 <= i < |s1.list| ensures s1.ListPlace(i) { assert s.ListPlace(i); }
    forall u | 0 <= u < |s1.at| ensures s1.ThreadPlace(u) { assert s.ThreadPlace(u); }
    forall j | 0 <= j < |s1.jobs| ensures s1.JobPlace(j) { assert s.JobPlace(j); }
  }

  lemma CreateKeeps(s: Pool, c: Choice)
    requires s.Inv() && s.BossReady(c) && (s.boss.Assign? && s.index <= 0)
    ensures s.BossStep(c).Inv()
  {
    var s1 := s.BossStep(c);
    if c.created { assert s1.at[..|s.at|] == s.at; }
    forall i | 0 <= i < |s1.list| ensures s1.ListPlace(i) { assert s.ListPlace(i); }
    forall u | 0 <= u < |s1.at| ensures s1.ThreadPlace(u) { if u < |s.at| { assert s.ThreadPlace(u); } }
    forall j | 0 <= j < |s1.jobs| ensures s1.JobPlace(j) { assert s.JobPlace(j); }
  }

  lemma PopKeeps(s: Pool, c: Choice)
    requires s.Inv() && s.BossReady(c) && (s.boss.Assign? && s.index > 0)
    ensures s.BossStep(c).Inv()
  {
    var s1 := s.BossStep(c);
    var t := s.list[s.index - 1];
    assert s.ListPlace(s.index - 1) && s.ThreadPlace(t);
    forall i | 0 <= i < |s1.list| ensures s1.ListPlace(i) { assert s.ListPlace(i); }
    forall u | 0 <= u < |s1.at| ensures s1.ThreadPlace(u) { assert s.ThreadPlace(u); }
    forall j | 0 <= j < |s1.jobs| ensures s1.JobPlace(j) { assert s.JobPlace(j); }
  }

  lemma LockThreadKeeps(s: Pool, c: Choice)
    requires s.Inv() && s.BossReady(c) && (s.boss.LockThread?)
    ensures s.BossStep(c).Inv()
  {
    var s1 := s.BossStep(c);
    assert s.ThreadPlace(s.boss.t);
    forall i | 0 <= i < |s1.list| ensures s1.ListPlace(i) { assert s.ListPlace(i); }
    forall u | 0 <= u < |s1.at| ensures s1.ThreadPlace(u) { assert s.ThreadPlace(u); }
    forall j | 0 <= j < |s1.jobs| ensures s1.JobPlace(j) { assert s.JobPlace(j); }
  }

  lemma SignalKeeps(s: Pool, c: Choice)
    requires s.Inv() && s.BossReady(c) && s.boss.Signal?
    ensures s.BossStep(c).Inv()
  {
    var s1 := s.BossStep(c);
    var t := s.boss.t;
    assert s.ThreadPlace(t);
    OutUpdate(s.at, t, Woken);
    forall i | 0 <= i < |s1.list| ensures s1.ListPlace(i) { assert s.ListPlace(i); }
    forall u | 0 <= u < |s1.at| ensures s1.ThreadPlace(u) { assert s.ThreadPlace(u); }
    forall j | 0 <= j < |s1.jobs| ensures s1.JobPlace(j) { assert s.JobPlace(j); }
  }

  lemma UnlockThreadKeeps(s: Pool, c: Choice)
    requires s.Inv() && s.BossReady(c) && s.boss.UnlockThread?
    ensures s.BossStep(c).Inv()
  {
    var s1 := s.BossStep(c);
    var t := s.boss.t;
    assert s.ThreadPlace(t);
    forall i | 0 <= i < |s1.list| ensures s1.ListPlace(i) { assert s.ListPlace(i); }
    forall u | 0 <= u < |s1.at| ensures s1.ThreadPlace(u) { assert s.ThreadPlace(u); }
    forall j | 0 <= j < |s1.jobs| ensures s1.JobPlace(j) { assert s.JobPlace(j); }
  }

  lemma DestroyKeeps(s: Pool, c: Choice)
    requires s.Inv() && s.BossReady(c) && (s.boss in {DestroyLock, RelockFull})
    ensures s.BossStep(c).Inv()
  {
    var s1 := s.BossStep(c);
    forall i | 0 <= i < |s1.list| ensures s1.ListPlace(i) { assert s.ListPlace(i); }
    forall u | 0 <= u < |s1.at| ensures s1.ThreadPlace(u) { assert s.ThreadPlace(u); }
    forall j | 0 <= j < |s1.jobs| ensures s1.JobPlace(j) { assert s.JobPlace(j); }
  }

  lemma ShutdownKeeps(s: Pool, c: Choice)
    requires s.Inv() && s.BossReady(c) && (s.boss == Shutdown)
    ensures s.BossStep(c).Inv()
  {
    var s1 := s.BossStep(c);
    AllListed(s);
    forall u | 0 <= u < |s.at| ensures s.at[u] !in {ExitUnlock, Gone} && !s.Pending(u) { assert s.ThreadPlace(u); }
    OutBounds(s.at);
    forall i | 0 <= i < |s1.list| ensures s1.ListPlace(i) { assert s.ListPlace(i); }
    forall u | 0 <= u < |s1.at| ensures s1.ThreadPlace(u) { assert s.ThreadPlace(u); }
    forall j | 0 <= j < |s1.jobs| ensures s1.JobPlace(j) { assert s.JobPlace(j); }
  }

  lemma SigLockKeeps(s: Pool, c: Choice)
    requires s.Inv() && s.BossReady(c) && (s.boss.SigLock?)
    ensures s.BossStep(c).Inv()
  {
    var s1 := s.BossStep(c);
    var i := s.boss.i;
    if i < s.index { assert s.ListPlace(i) && s.ThreadPlace(s.list[i]); }
    forall i | 0 <= i < |s1.list| ensures s1.ListPlace(i) { assert s.ListPlace(i); }
    forall u | 0 <= u < |s1.at| ensures s1.ThreadPlace(u) { assert s.ThreadPlace(u); }
    forall j | 0 <= j < |s1.jobs| ensures s1.JobPlace(j) { assert s.JobPlace(j); }
  }

  lemma SigKeeps(s: Pool, c: Choice)
    requires s.Inv() && s.BossReady(c) && s.boss.Sig?
    ensures s.BossStep(c).Inv()
  {
    var s1 := s.BossStep(c);
    var i := s.boss.i;
    assert s.ListPlace(i) && s.ThreadPlace(s.list[i]);
    OutUpdate(s.at, s.list[i], Woken);
    forall i | 0 <= i < |s1.list| ensures s1.ListPlace(i) { assert s.ListPlace(i); }
    SigKeepsThreads(s, c);
    forall j | 0 <= j < |s1.jobs| ensures s1.JobPlace(j) { assert s.JobPlace(j); }
  }

  lemma SigKeepsThreads(s: Pool, c: Choice)
    requires s.Inv() && s.BossReady(c) && s.boss.Sig?
    ensures var s1 := s.BossStep(c);
      s1.Sizes() && forall u {:trigger s1.ThreadPlace(u)} :: 0 <= u < |s1.at| ==> s1.ThreadPlace(u)
  {
    var s1, i := s.BossStep(c), s.boss.i;
    assert s.ListPlace(i) && s.ThreadPlace(s.list[i]);
    forall u | 0 <= u < |s1.at| ensures s1.ThreadPlace(u) { assert s.ThreadPlace(u); }
  }

  lemma SigUnlockKeeps(s: Pool, c: Choice)
    requires s.Inv() && s.BossReady(c) && s.boss.SigUnlock?
    ensures s.BossStep(c).Inv()
  {
    var s1 := s.BossStep(c);
    var i := s.boss.i;
    assert s.ListPlace(i) && s.ThreadPlace(s.list[i]);
    forall i | 0 <= i < |s1.list| ensures s1.ListPlace(i) { assert s.ListPlace(i); }
    forall u | 0 <= u < |s1.at| ensures s1.ThreadPlace(u) { assert s.ThreadPlace(u); }
    forall j | 0 <= j < |s1.jobs| ensures s1.JobPlace(j) { assert s.JobPlace(j); }
  }

  lemma RelockKeeps(s: Pool, c: Choice)
    requires s.Inv() && s.BossReady(c) && (s.boss == RelockEmpty || s.boss == DestroyUnlock)
    ensures s.BossStep(c).Inv()
  {
    var s1 := s.BossStep(c);
    OutBounds(s.at);
    forall i | 0 <= i < |s1.list| ensures s1.ListPlace(i) { assert s.ListPlace(i); }
    forall u | 0 <= u < |s1.at| ensures s1.ThreadPlace(u) { assert s.ThreadPlace(u); }
    forall j | 0 <= j < |s1.jobs| ensures s1.JobPlace(j) { assert s.JobPlace(j); }
  }

  lemma FreeKeeps(s: Pool, c: Choice)
    requires s.Inv() && s.BossReady(c) && (s.boss.Free?)
    ensures s.BossStep(c).Inv()
  {
    var s1 := s.BossStep(c);
    OutBounds(s.at);
    if s.boss.i < s.index { assert s.ListPlace(s.boss.i) && s.ThreadPlace(s.list[s.boss.i]); }
    forall i | 0 <= i < |s1.list| ensures s1.ListPlace(i) { assert s.ListPlace(i); }
    forall u | 0 <= u < |s1.at| ensures s1.ThreadPlace(u) { assert s.ThreadPlace(u); }
    forall j | 0 <= j < |s1.jobs| ensures s1.JobPlace(j) { assert s.JobPlace(j); }
  }

  /** Every step of every thread keeps the invariant. */
  lemma StepKeeps(s: Pool, e: Step)
    requires s.Inv() && s.Ready(e)
    ensures s.Do(e).Inv()
  {
    match e
    case ByWorker(t) => WorkerKeeps(s, t);
    case ByBoss(c) => BossKeeps(s, c);
  }

  lemma WorkerKeeps(s: Pool, t: Tid)
    requires s.Inv() && s.WorkerReady(t)
    ensures s.WorkerStep(t).Inv()
  {
    match s.at[t]
    case Check => OwnStepKeeps(s, t);
    case Call => CallKeeps(s, t);
    case Running => OwnStepKeeps(s, t);
    case LockSelf => OwnStepKeeps(s, t);
    case SaveLock => SaveKeeps(s, t);
    case SaveUnlock => SavedKeeps(s, t);
    case SaveFailed => SavedKeeps(s, t);
    case Wait => OwnStepKeeps(s, t);
    case Waiting =>
    case Woken => OwnStepKeeps(s, t);
    case UnlockSelf => OwnStepKeeps(s, t);
    case ExitLock => ExitKeeps(s, t);
    case ExitUnlock => ExitedKeeps(s, t);
    case Gone =>
  }

  lemma BossKeeps(s: Pool, c: Choice)
    requires s.Inv() && s.BossReady(c)
    ensures s.BossStep(c).Inv()
  {
    match s.boss
    case Rest => RestKeeps(s, c);
    case Lock(_) => LockKeeps(s, c);
    case WaitIdle(_) =>
    case RelockIdle(_) => LockKeeps(s, c);
    case Assign(_) => if s.index <= 0 { CreateKeeps(s, c); } else { PopKeeps(s, c); }
    case LockThread(_) => LockThreadKeeps(s, c);
    case Signal(_) => SignalKeeps(s, c);
    case UnlockThread(_) => UnlockThreadKeeps(s, c);
    case Unlock => RestKeeps(s, c);
    case DestroyLock => DestroyKeeps(s, c);
    case WaitFull =>
    case RelockFull => DestroyKeeps(s, c);
    case Shutdown => ShutdownKeeps(s, c);
    case SigLock(_) => SigLockKeeps(s, c);
    case Sig(_) => SigKeeps(s, c);
    case SigUnlock(_) => SigUnlockKeeps(s, c);
    case WaitEmpty =>
    case RelockEmpty => RelockKeeps(s, c);
    case Free(_) => FreeKeeps(s, c);
    case DestroyUnlock => RelockKeeps(s, c);
    case Done =>
  }

  // ---- runs ----

  /** The pool as the constructor makes it for maxThreads. */
  function Constructed(maxThreads: int): Pool {
    Initial(if maxThreads <= 0 then 2 else maxThreads)
  }

  /** The states that some sequence of steps leads to. */
  ghost predicate Reached(maxThreads: int, steps: seq<Step>, s: Pool) {
    if steps == [] then s == Constructed(maxThreads)
    else exists p: Pool {:trigger p.Ready(steps[|steps| - 1])} ::
      Reached(maxThreads, steps[..|steps| - 1], p) && p.Ready(steps[|steps| - 1]) && s == p.Do(steps[|steps| - 1])
  }

  /** The invariant holds in every interleaving. */
  lemma {:induction false} ReachedInv(maxThreads: int, steps: seq<Step>, s: Pool)
    requires Reached(maxThreads, steps, s)
    ensures s.Inv()
  {
    if steps == [] {
      InitialInv(if maxThreads <= 0 then 2 else maxThreads);
    } else {
      var n := |steps| - 1;
      var p: Pool :| Reached(maxThreads, steps[..n], p) && p.Ready(steps[n]) && s == p.Do(steps[n]);
      ReachedInv(maxThreads, steps[..n], p);
      StepKeeps(p, steps[n]);
    }
  }

  // ---- what the invariant means ----

  /** Before the shutdown, whenever the main mutex is free, the first mIndex entries of the
      list are different threads, the other entries are null, the threads on the list are
      the idle ones, and together with the busy ones they are mTotal, at most mMaxThreads. */
  lemma IdleAndBusy(s: Pool)
    requires s.Inv() && !s.shutdown && s.main == Nobody
    ensures s.total == |s.at| <= s.Max() && 0 <= s.index <= s.total
    ensures forall i :: 0 <= i < s.index ==> 0 <= s.list[i] < |s.at| && s.at[s.list[i]] in {Wait, Waiting}
    ensures forall i, j :: 0 <= i < j < s.index ==> s.list[i] != s.list[j]
    ensures forall i :: s.index <= i < |s.list| ==> s.list[i] == NONE
    ensures forall t :: 0 <= t < |s.at| && t !in s.list[..s.index] ==>
      s.at[t] in {Check, Call, Running, LockSelf, SaveLock, Woken, UnlockSelf}
  {
    forall i | 0 <= i < |s.list|
      ensures if i < s.index then 0 <= s.list[i] < |s.at| && s.slot[s.list[i]] == i &&
        s.at[s.list[i]] in {Wait, Waiting}
              else s.list[i] == NONE
    {
      assert s.ListPlace(i);
      if i < s.index { assert s.ThreadPlace(s.list[i]); }
    }
    forall t | 0 <= t < |s.at| && s.slot[t] != NONE ensures t in s.list[..s.index] {
      assert s.ThreadPlace(t);
      assert s.list[..s.index][s.slot[t]] == t;
    }
    forall t | 0 <= t < |s.at| && t !in s.list[..s.index]
      ensures s.at[t] in {Check, Call, Running, LockSelf, SaveLock, Woken, UnlockSelf}
    {
      assert s.ThreadPlace(t);
    }
  }

  /** saveThread always finds room. */
  lemma SaveSucceeds(s: Pool, t: Tid)
    requires s.Inv() && s.WorkerReady(t) && s.at[t] == SaveLock
    ensures s.index < s.Max() && s.WorkerStep(t).at[t] == SaveUnlock
  {
    assert s.ThreadPlace(t);
    AllListed(s);
  }

  lemma NeverFails(s: Pool, t: Tid)
    requires s.Inv() && t < |s.at|
    ensures s.at[t] != SaveFailed
  {
    assert s.ThreadPlace(t);
  }

  /** A job is called at most once, a refused one never. */
  lemma CalledOnce(s: Pool, j: nat)
    requires s.Inv() && j < |s.jobs|
    ensures s.calls[j] <= 1 && (s.jobs[j] == Refused ==> s.calls[j] == 0)
  {
    assert s.JobPlace(j);
  }

  /** The destructor passes its first wait only when every job that dispatch has accepted has
      been called exactly once and has returned. */
  lemma ShutdownAfterJobs(s: Pool)
    requires s.Inv() && (s.boss == Shutdown || s.shutdown)
    ensures forall j :: 0 <= j < |s.jobs| ==> s.calls[j] == if s.jobs[j] == Refused then 0 else 1
    ensures forall t :: 0 <= t < |s.at| ==> s.at[t] !in {Call, Running, LockSelf, SaveLock, SaveUnlock}
  {
    if s.boss == Shutdown { AllListed(s); }
    forall t | 0 <= t < |s.at| ensures s.at[t] !in {Call, Running, LockSelf, SaveLock, SaveUnlock} && !s.Pending(t) {
      assert s.ThreadPlace(t);
    }
    forall j | 0 <= j < |s.jobs| ensures s.calls[j] == if s.jobs[j] == Refused then 0 else 1 {
      assert s.JobPlace(j);
    }
  }

  /** Records are freed when their threads have gone and nobody holds their mutex: no step of
      any thread touches them again. */
  lemma FreedUntouched(s: Pool, t: Tid)
    requires s.Inv() && t < |s.at| && (s.Freeing() || s.freed[t])
    ensures s.at[t] == Gone && s.mutex[t] == Nobody && !s.WorkerReady(t)
  {
    assert s.ThreadPlace(t);
    OutBounds(s.at);
  }

  /** The destructor frees every record once. */
  lemma AllFreed(s: Pool)
    requires s.Inv() && (s.boss == DestroyUnlock || s.boss == Done)
    ensures forall t :: 0 <= t < |s.at| ==> s.freed[t]
    ensures forall i :: 0 <= i < |s.list| ==> s.list[i] == NONE
  {
    assert s.Closing() && s.Cleared() == |s.at|;
    forall t | 0 <= t < |s.at| ensures s.freed[t] {
      assert s.ThreadPlace(t);
    }
    forall i | 0 <= i < |s.list| ensures s.list[i] == NONE {
      assert s.ListPlace(i);
    }
  }

  lemma FreedOnce(s: Pool, c: Choice)
    requires s.Inv() && s.BossReady(c) && s.boss.Free? && s.boss.i < s.index
    ensures !s.freed[s.list[s.boss.i]]
  {
    assert s.ListPlace(s.boss.i);
    assert s.ThreadPlace(s.list[s.boss.i]);
  }

  // ---- no deadlock ----

  /** The calls of dispatch and of the destructor are over. */
  predicate AtRest(s: Pool) {
    s.boss == Rest || s.boss == Done
  }

  /** As long as a call is in progress some thread can take a step, although dispatch and the
      destructor lock a thread's mutex under the main mutex and wrapperFunc locks the main
      mutex under the thread's. */
  lemma NoDeadlock(s: Pool) returns (e: Step)
    requires s.Inv() && !AtRest(s)
    ensures s.Ready(e) && (e.ByBoss? ==> e.c.Go?)
  {
    if s.main.Worker? {
      e := HolderMoves(s);
    } else if s.boss.WaitIdle? || s.boss == WaitFull {
      e := BusyMoves(s);
    } else if s.boss == WaitEmpty {
      e := LeaverMoves(s);
    } else if s.boss.LockThread? {
      e := ThreadMoves(s, s.boss.t);
    } else if s.boss.SigLock? && s.boss.i < s.index {
      assert s.ListPlace(s.boss.i);
      e := ThreadMoves(s, s.list[s.boss.i]);
    } else {
      e := ByBoss(Go(true));
      BossMoves(s);
    }
  }

  /** Between two calls, too, an accepted job gets called: its thread can move. */
  lemma AcceptedMoves(s: Pool, j: nat)
    requires s.Inv() && s.boss == Rest && j < |s.jobs| && s.jobs[j].With?
    ensures s.WorkerReady(s.jobs[j].t)
  {
    assert s.JobPlace(j);
    assert s.ThreadPlace(s.jobs[j].t);
  }

  /** And so can every thread that is not on the list, unless it waits for the main mutex. */
  lemma BusyAtRest(s: Pool, t: Tid)
    requires s.Inv() && s.boss == Rest && t < |s.at| && s.slot[t] == NONE
    ensures s.WorkerReady(t) || (s.at[t] == SaveLock && s.main.Worker? && s.WorkerReady(s.main.t))
  {
    assert s.ThreadPlace(t);
    if s.main.Worker? { assert s.ThreadPlace(s.main.t); }
  }

  lemma HolderMoves(s: Pool) returns (e: Step)
    requires s.Inv() && s.main.Worker?
    ensures s.Ready(e) && e.ByWorker?
  {
    e := ByWorker(s.main.t);
  }

  /** A thread that is not on the list is on its way to it. */
  lemma BusyMoves(s: Pool) returns (e: Step)
    requires s.Inv() && (s.boss.WaitIdle? || s.boss == WaitFull) && !s.main.Worker?
    ensures s.Ready(e) && e.ByWorker?
  {
    AllListed(s);
    var t: int :| 0 <= t < |s.at| && s.slot[t] == NONE;
    assert s.ThreadPlace(t);
    e := ByWorker(t);
  }

  lemma LeaverMoves(s: Pool) returns (e: Step)
    requires s.Inv() && s.boss == WaitEmpty && !s.main.Worker?
    ensures s.Ready(e) && e.ByWorker?
  {
    SomeoneIn(s.at);
    var t: int :| 0 <= t < |s.at| && s.at[t] !in {ExitUnlock, Gone};
    assert s.ThreadPlace(t);
    if s.slot[t] >= s.Cleared() { assert s.slot[t] < |s.at|; }
    e := ByWorker(t);
  }

  lemma {:induction false} SomeoneIn(at: seq<At>)
    requires Out(at) < |at|
    ensures exists t :: 0 <= t < |at| && at[t] !in {ExitUnlock, Gone}
  {
    var n := |at| - 1;
    if at[n] in {ExitUnlock, Gone} {
      SomeoneIn(at[..n]);
      var t :| 0 <= t < n && at[..n][t] !in {ExitUnlock, Gone};
      assert at[t] !in {ExitUnlock, Gone};
    }
  }

  /** The mutex that the dispatching thread is about to lock is free, or its thread is about
      to release it in its wait. */
  lemma ThreadMoves(s: Pool, t: Tid) returns (e: Step)
    requires s.Inv() && t < |s.at| && !s.main.Worker?
    requires s.boss == LockThread(t) || (s.boss.SigLock? && s.boss.i < s.index && s.list[s.boss.i] == t)
    ensures s.Ready(e) && (e.ByBoss? ==> e.c.Go?)
  {
    assert s.ThreadPlace(t);
    if s.boss.SigLock? { assert s.ListPlace(s.boss.i); }
    e := if s.mutex[t] == Nobody then ByBoss(Go(true)) else ByWorker(t);
  }

  lemma BossMoves(s: Pool)
    requires s.Inv() && !AtRest(s) && !s.main.Worker? && !s.boss.WaitIdle? && s.boss != WaitFull && s.boss != WaitEmpty
    requires !s.boss.LockThread? && (s.boss.SigLock? ==> s.boss.i >= s.index)
    ensures s.BossReady(Go(true))
  {
    if s.boss.Assign? && s.index > 0 { assert s.ListPlace(s.index - 1); }
    if s.boss.Sig? || s.boss.SigUnlock? || (s.boss.Free? && s.boss.i < s.index) { assert s.ListPlace(s.boss.i); }
  }

  // ---- every call returns ----

  function Ahead(a: At): nat {
    match a
    case Woken => 12
    case UnlockSelf => 11
    case Check => 10
    case Call => 9
    case Running => 8
    case LockSelf => 7
    case SaveLock => 6
    case SaveUnlock => 5
    case SaveFailed => 5
    case Wait => 4
    case Waiting => 3
    case ExitLock => 2
    case ExitUnlock => 1
    case Gone => 0
  }

  function AllAhead(at: seq<At>): nat {
    if at == [] then 0 else AllAhead(at[..|at| - 1]) + Ahead(at[|at| - 1])
  }

  lemma {:induction false} AheadUpdate(at: seq<At>, t: nat, a: At)
    requires t < |at|
    ensures AllAhead(at[t := a]) == AllAhead(at) - Ahead(at[t]) + Ahead(a)
  {
    var n := |at| - 1;
    if t < n {
      AheadUpdate(at[..n], t, a);
      assert at[t := a][..n] == at[..n][t := a];
    } else {
      assert at[t := a][..n] == at[..n];
    }
  }

  /** How far the call of the dispatching thread is from its end. */
  function BossAhead(s: Pool): int {
    var m := |s.list|;
    match s.boss
    case Rest => 0
    case Unlock => 1
    case UnlockThread(_) => 2
    case Signal(_) => 3
    case LockThread(_) => 4
    case Assign(_) => 5
    case RelockIdle(_) => 6
    case WaitIdle(_) => 7
    case Lock(_) => 8
    case Done => 0
    case DestroyUnlock => 1
    case Free(i) => 2 + m - i
    case RelockEmpty => 3 + m
    case WaitEmpty => 4 + m
    case SigLock(i) => 7 + m + 3 * (m - i)
    case Sig(i) => 6 + m + 3 * (m - i)
    case SigUnlock(i) => 5 + m + 3 * (m - i)
    case Shutdown => 8 + 4 * m
    case RelockFull => 9 + 4 * m
    case WaitFull => 10 + 4 * m
    case DestroyLock => 11 + 4 * m
  }

  /** Every step but the beginning of a call brings the call, or else a thread, nearer to its
      end: under no schedule can a call go on for ever. */
  lemma StepAdvances(s: Pool, e: Step)
    requires s.Inv() && s.Ready(e) && (e.ByBoss? ==> e.c.Go?)
    ensures var s1 := s.Do(e);
      && 0 <= BossAhead(s1) <= BossAhead(s)
      && (BossAhead(s1) == BossAhead(s) ==> AllAhead(s1.at) < AllAhead(s.at))
  {
    match e
    case ByBoss(c) => BossAdvances(s, c);
    case ByWorker(t) => WorkerAdvances(s, t);
  }

  lemma BossAdvances(s: Pool, c: Choice)
    requires s.Sizes() && s.BossPlace() && s.BossReady(c) && c.Go? && 0 <= s.index <= |s.list|
    ensures 0 <= BossAhead(s.BossStep(c)) < BossAhead(s)
  {
  }

  lemma WorkerAdvances(s: Pool, t: Tid)
    requires s.Inv() && s.WorkerReady(t)
    ensures var s1 := s.WorkerStep(t); 0 <= BossAhead(s1) <= BossAhead(s) && AllAhead(s1.at) < AllAhead(s.at)
  {
    BossNotBack(s, t);
    ThreadAdvances(s, t);
  }

  lemma ThreadAdvances(s: Pool, t: Tid)
    requires s.WorkerReady(t)
    ensures AllAhead(s.WorkerStep(t).at) < AllAhead(s.at)
  {
    AheadUpdate(s.at, t, s.WorkerStep(t).at[t]);
  }

  lemma BossNotBack(s: Pool, t: Tid)
    requires s.Sizes() && s.BossPlace() && s.WorkerReady(t) && (s.boss == Done || 0 <= s.index <= |s.list|)
    ensures 0 <= BossAhead(s.WorkerStep(t)) <= BossAhead(s)
  {
    BossAheadBounds(s);
    if s.at[t] == SaveLock {
      SaveNotBack(s, t);
    } else if s.at[t] == ExitLock {
      SignalsAdvance(s, s.WorkerStep(t));
    } else {
      assert s.WorkerStep(t).boss == s.boss;
    }
  }

  lemma SaveNotBack(s: Pool, t: Tid)
    requires s.WorkerReady(t) && s.at[t] == SaveLock && 0 <= BossAhead(s)
    ensures 0 <= BossAhead(s.WorkerStep(t)) <= BossAhead(s)
  {
    SignalsAdvance(s, s.WorkerStep(t));
  }

  lemma BossAheadBounds(s: Pool)
    requires s.Sizes() && s.BossPlace() && (s.boss == Done || 0 <= s.index <= |s.list|)
    ensures 0 <= BossAhead(s)
  {
  }

  /** A signal brings the dispatching thread out of a wait. */
  lemma SignalsAdvance(s: Pool, s1: Pool)
    requires |s1.list| == |s.list| && 0 <= BossAhead(s)
    requires s1.boss == s.boss || s1.boss == s.SignalIdle().boss || s1.boss == s.SignalFull().boss ||
      s1.boss == s.SignalEmpty().boss
    ensures 0 <= BossAhead(s1) <= BossAhead(s)
  {
  }

  /** From every reachable state the call in progress can be completed. */
  lemma {:induction false} CallReturns(s: Pool) returns (steps: seq<Step>, s1: Pool)
    requires s.Inv()
    ensures s1.Inv() && AtRest(s1) && Follows(s, steps, s1)
    ensures forall e :: e in steps ==> e.ByWorker? || e.c.Go?
    decreases BossAhead(s), AllAhead(s.at)
  {
    if AtRest(s) {
      return [], s;
    }
    var e := NoDeadlock(s);
    StepKeeps(s, e);
    StepAdvances(s, e);
    var rest;
    rest, s1 := CallReturns(s.Do(e));
    steps := [e] + rest;
    assert steps[1..] == rest;
  }

  // ---- what dispatch does with a job ----

  /** dispatch hands the job to the last idle thread of the list; if there is none it creates a
      thread for it, and only if that fails it refuses the job. */
  lemma DispatchDecides(s: Pool, c: Choice, j: nat)
    requires s.Inv() && s.boss == Assign(j) && s.BossReady(c)
    ensures var s1 := s.BossStep(c);
      && |s1.jobs| == |s.jobs| && j < |s.jobs| && (forall i :: 0 <= i < |s.jobs| && i != j ==> s1.jobs[i] == s.jobs[i])
      && (if s.index > 0 then
            var t := s.list[s.index - 1];
            && s1.jobs[j] == With(t) && |s1.at| == |s.at| && s1.total == s.total && s1.index == s.index - 1
            && s.at[t] in {Wait, Waiting} && s1.job[t] == j
          else if c.created then
            && s1.jobs[j] == With(|s.at|) && |s1.at| == |s.at| + 1 && s1.total == s.total + 1
            && s1.at[|s.at|] == Check && s1.job[|s.at|] == j
          else
            s1.jobs[j] == Refused && |s1.at| == |s.at| && s1.total == s.total)
  {
    if s.index > 0 {
      assert s.ListPlace(s.index - 1);
      assert s.ThreadPlace(s.list[s.index - 1]);
    }
  }

  /** What a step may make of a job. */
  predicate JobMoves(a: JobState, b: JobState) {
    a == b || a == Asked || (a.With? && b == Called)
  }

  /** A job that has been accepted is never dropped, and a job is refused only where there is no
      idle thread and pthread_create fails. */
  lemma StepsOfJobs(s: Pool, e: Step)
    requires s.Inv() && s.Ready(e)
    ensures var s1 := s.Do(e);
      && |s1.jobs| == |s.jobs| + (if s.boss == Rest && e == ByBoss(Dispatch) then 1 else 0)
      && (forall j :: 0 <= j < |s.jobs| ==> JobMoves(s.jobs[j], s1.jobs[j]))
      && (forall j :: 0 <= j < |s.jobs| && s.jobs[j] != Refused && s1.jobs[j] == Refused ==>
            s.boss == Assign(j) && s.index == 0 && e == ByBoss(Go(false)))
      && (|s1.jobs| > |s.jobs| ==> s1.jobs[|s.jobs|] == Asked && s1.boss == Lock(|s.jobs|))
  {
    match e
    case ByWorker(t) =>
      assert s.ThreadPlace(t);
    case ByBoss(c) =>
      if s.boss.Assign? { DispatchDecides(s, c, s.boss.j); }
  }

  /** The number of calls of dispatch in a run. */
  function Dispatches(steps: seq<Step>): nat {
    if steps == [] then 0
    else Dispatches(steps[..|steps| - 1]) + (if steps[|steps| - 1] == ByBoss(Dispatch) then 1 else 0)
  }

  /** In a run there are as many jobs as calls of dispatch, the number of threads is bounded by
      what the constructor was given, and as long as pthread_create does not fail no job is
      refused. */
  lemma {:induction false} RunJobs(maxThreads: int, steps: seq<Step>, s: Pool)
    requires Reached(maxThreads, steps, s)
    ensures s.Inv() && |s.jobs| == Dispatches(steps)
    ensures |s.at| <= s.Max() == if maxThreads <= 0 then 2 else maxThreads
    ensures ByBoss(Go(false)) !in steps ==> forall j :: 0 <= j < |s.jobs| ==> s.jobs[j] != Refused
  {
    ReachedInv(maxThreads, steps, s);
    if steps != [] {
      var n := |steps| - 1;
      var p: Pool :| Reached(maxThreads, steps[..n], p) && p.Ready(steps[n]) && s == p.Do(steps[n]);
      RunJobs(maxThreads, steps[..n], p);
      StepsOfJobs(p, steps[n]);
      StepRoom(p, steps[n]);
    }
  }

  lemma StepRoom(s: Pool, e: Step)
    requires s.Inv() && s.Ready(e)
    ensures |s.Do(e).list| == |s.list|
    ensures s.boss == Rest || e != ByBoss(Dispatch)
  {
  }

  /** When dispatch has returned its job is with a thread, called already, or refused. */
  lemma DispatchReturned(s: Pool, j: nat)
    requires s.Inv() && AtRest(s) && j < |s.jobs|
    ensures s.jobs[j] != Asked
    ensures s.jobs[j].With? ==> s.boss == Rest && s.WorkerReady(s.jobs[j].t)
    ensures s.jobs[j] == Called ==> s.calls[j] == 1
  {
    assert s.JobPlace(j);
    if s.jobs[j].With? { assert s.ThreadPlace(s.jobs[j].t); }
  }

  lemma {:induction false} JoinFollows(s: Pool, a: seq<Step>, m: Pool, b: seq<Step>, s1: Pool)
    requires Follows(s, a, m) && Follows(m, b, s1)
    ensures Follows(s, a + b, s1)
    decreases |a|
  {
    if a == [] {
      assert a + b == b;
    } else {
      assert (a + b)[1..] == a[1..] + b;
      JoinFollows(s.Do(a[0]), a[1..], m, b, s1);
    }
  }

  lemma {:induction false} FollowKeepsJobs(s: Pool, steps: seq<Step>, s1: Pool, j: nat)
    requires s.Inv() && Follows(s, steps, s1) && j < |s.jobs| && (s.jobs[j].With? || s.jobs[j] == Called)
    ensures s1.Inv() && j < |s1.jobs| && (s1.jobs[j].With? || s1.jobs[j] == Called)
    decreases |steps|
  {
    if steps != [] {
      StepKeeps(s, steps[0]);
      StepsOfJobs(s, steps[0]);
      FollowKeepsJobs(s.Do(steps[0]), steps[1..], s1, j);
    }
  }

  /** The thread of an accepted job comes to call it, once. */
  lemma {:induction false} ThreadCalls(s: Pool, j: nat) returns (steps: seq<Step>, s1: Pool)
    requires s.Inv() && AtRest(s) && j < |s.jobs| && (s.jobs[j].With? || s.jobs[j] == Called)
    ensures s1.Inv() && Follows(s, steps, s1) && j < |s1.jobs| && s1.calls[j] == 1
    ensures forall e :: e in steps ==> e.ByWorker?
    decreases AllAhead(s.at)
  {
    DispatchReturned(s, j);
    if s.jobs[j] == Called {
      return [], s;
    }
    var e := ByWorker(s.jobs[j].t);
    StepKeeps(s, e);
    StepsOfJobs(s, e);
    WorkerAdvances(s, s.jobs[j].t);
    RestStays(s, s.jobs[j].t);
    var rest;
    rest, s1 := ThreadCalls(s.Do(e), j);
    steps := [e] + rest;
    assert steps[1..] == rest;
  }

  lemma RestStays(s: Pool, t: Tid)
    requires AtRest(s) && s.WorkerReady(t)
    ensures AtRest(s.WorkerStep(t))
  {
  }

  /** From every reachable state in which a job has been accepted some steps lead to its call. */
  lemma AcceptedJobRuns(s: Pool, j: nat) returns (steps: seq<Step>, s1: Pool)
    requires s.Inv() && j < |s.jobs| && (s.jobs[j].With? || s.jobs[j] == Called)
    ensures s1.Inv() && Follows(s, steps, s1) && j < |s1.jobs| && s1.calls[j] == 1
  {
    var a, m := CallReturns(s);
    FollowKeepsJobs(s, a, m, j);
    var b;
    b, s1 := ThreadCalls(m, j);
    JoinFollows(s, a, m, b, s1);
    steps := a + b;
  }

  /** Where no thread can move between two calls every accepted job has been called, and all
      threads wait on the list. */
  lemma Quiet(s: Pool)
    requires s.Inv() && s.boss == Rest && forall t :: 0 <= t < |s.at| ==> !s.WorkerReady(t)
    ensures forall j :: 0 <= j < |s.jobs| ==> s.jobs[j] == Called || s.jobs[j] == Refused
    ensures s.index == |s.at| && forall t :: 0 <= t < |s.at| ==> s.at[t] == Waiting
  {
    forall j | 0 <= j < |s.jobs| ensures s.jobs[j] == Called || s.jobs[j] == Refused {
      DispatchReturned(s, j);
    }
    forall t | 0 <= t < |s.at| ensures s.slot[t] != NONE && s.at[t] == Waiting {
      assert !s.WorkerReady(t);
      assert s.ThreadPlace(t);
      if s.slot[t] == NONE { BusyAtRest(s, t); }
    }
    AllListed(s);
  }

  /** The steps lead from s to s1. */
  ghost predicate Follows(s: Pool, steps: seq<Step>, s1: Pool)
    decreases |steps|
  {
    if steps == [] then s1 == s else s.Ready(steps[0]) && Follows(s.Do(steps[0]), steps[1..], s1)
  }
}

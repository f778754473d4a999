/** GThread::Start and GThread::TheThread of common/gthread/gthread.cpp: three mutexes and the
    flag `running`. One thread calls Start, again and again; the body of the thread calls
    ThreadStarted once; nobody calls Kill. */
module ThreadStart {

  datatype Owner = Nobody | Starter | Body

  /** Where the caller of Start stands. */
  datatype StartAt =
    | Outside
    | LockRunning            // the first look at `running`
    | Look
    | UnlockAlready
    | UnlockRunning
    | LockContinue
    | Create
    | UnlockFailed
    | PollLock               // the loop that waits for `running`
    | Poll
    | PollUnlock
    | SeenUnlock             // `running` has been seen
    | UnlockContinue
    | LockContinue2
    | UnlockContinue2

  /** Where the thread stands in TheThread. */
  datatype ThreadAt =
    | Absent
    | LockStarted            // continuemutex2
    | LockSet
    | SetRunning
    | UnlockSet
    | LockGate               // continuemutex
    | UnlockGate
    | InBody                 // before ThreadStarted
    | Announced              // after ThreadStarted
    | LockClear
    | ClearRunning
    | UnlockClear

  datatype Result = None | Ok | AlreadyRunning | CantStart

  datatype Step = ByStarter(created: bool) | ByThread

  datatype State = State(
      running: bool,
      runningMutex: Owner,
      continueMutex: Owner,
      continueMutex2: Owner,
      starter: StartAt,
      thread: ThreadAt,
      result: Result,          // of the last call of Start
      // history of the last call of Start that created a thread
      seen: bool,              // Start has seen `running` set
      announced: bool)         // ThreadStarted has been called
  {
    predicate StarterReady() {
      match starter
      case LockRunning => runningMutex == Nobody
      case LockContinue => continueMutex == Nobody
      case PollLock => runningMutex == Nobody
      case LockContinue2 => continueMutex2 == Nobody
      case _ => true
    }

    function StarterStep(created: bool): State
      requires StarterReady()
    {
      match starter
      case Outside => this.(starter := LockRunning, result := None)
      case LockRunning => this.(starter := Look, runningMutex := Starter)
      case Look => this.(starter := if running then UnlockAlready else UnlockRunning)
      case UnlockAlready => this.(starter := Outside, runningMutex := Nobody, result := AlreadyRunning)
      case UnlockRunning => this.(starter := LockContinue, runningMutex := Nobody)
      case LockContinue => this.(starter := Create, continueMutex := Starter)
      case Create =>
        if created then this.(starter := PollLock, thread := LockStarted, seen := false, announced := false)
        else this.(starter := UnlockFailed)
      case UnlockFailed => this.(starter := Outside, continueMutex := Nobody, result := CantStart)
      case PollLock => this.(starter := Poll, runningMutex := Starter)
      case Poll => if running then this.(starter := SeenUnlock, seen := true) else this.(starter := PollUnlock)
      case PollUnlock => this.(starter := PollLock, runningMutex := Nobody)
      case SeenUnlock => this.(starter := UnlockContinue, runningMutex := Nobody)
      case UnlockContinue => this.(starter := LockContinue2, continueMutex := Nobody)
      case LockContinue2 => this.(starter := UnlockContinue2, continueMutex2 := Starter)
      case UnlockContinue2 => this.(starter := Outside, continueMutex2 := Nobody, result := Ok)
    }

    predicate ThreadReady() {
      match thread
      case Absent => false
      case LockStarted => continueMutex2 == Nobody
      case LockSet => runningMutex == Nobody
      case LockGate => continueMutex == Nobody
      case LockClear => runningMutex == Nobody
      case _ => true
    }

    function ThreadStep(): State
      requires ThreadReady()
    {
      match thread
      case Absent => this
      case LockStarted => this.(thread := LockSet, continueMutex2 := Body)
      case LockSet => this.(thread := SetRunning, runningMutex := Body)
      case SetRunning => this.(thread := UnlockSet, running := true)
      case UnlockSet => this.(thread := LockGate, runningMutex := Nobody)
      case LockGate => this.(thread := UnlockGate, continueMutex := Body)
      case UnlockGate => this.(thread := InBody, continueMutex := Nobody)
      case InBody => this.(thread := Announced, continueMutex2 := Nobody, announced := true)
      case Announced => this.(thread := LockClear)
      case LockClear => this.(thread := ClearRunning, runningMutex := Body)
      case ClearRunning => this.(thread := UnlockClear, running := false)
      case UnlockClear => this.(thread := Absent, runningMutex := Nobody)
    }

    predicate Ready(e: Step) {
      match e
      case ByStarter(_) => StarterReady()
      case ByThread => ThreadReady()
    }

    function Do(e: Step): State
      requires Ready(e)
    {
      match e
      case ByStarter(created) => StarterStep(created)
      case ByThread => ThreadStep()
    }

    /** Start has created a thread and not seen `running` yet. */
    predicate Waiting() {
      starter in {PollLock, Poll, PollUnlock}
    }

    /** What every step keeps: each mutex is held by the one whose place says so, `running` is
        what the thread has made it, and the thread cannot pass its gate before Start has seen
        the flag. */
    predicate Inv() {
      && (runningMutex == Starter <==> starter in {Look, UnlockAlready, UnlockRunning, Poll, PollUnlock, SeenUnlock})
      && (runningMutex == Body <==> thread in {SetRunning, UnlockSet, ClearRunning, UnlockClear})
      && (continueMutex == Starter <==> Waiting() || starter in {Create, UnlockFailed, SeenUnlock, UnlockContinue})
      && (continueMutex == Body <==> thread == UnlockGate)
      && (continueMutex2 == Starter <==> starter == UnlockContinue2)
      && (continueMutex2 == Body <==> thread in {LockSet, SetRunning, UnlockSet, LockGate, UnlockGate, InBody})
      && (running <==> thread in {UnlockSet, LockGate, UnlockGate, InBody, Announced, LockClear, ClearRunning})
      // between the two calls nothing is left of the previous thread
      && (starter in {UnlockRunning, LockContinue, Create, UnlockFailed} ==> thread == Absent)
      && (Waiting() ==> thread in {LockStarted, LockSet, SetRunning, UnlockSet, LockGate} && !seen)
      && (starter in {SeenUnlock, UnlockContinue} ==> thread in {UnlockSet, LockGate})
      && (starter == Look && thread == Absent ==> !running)
      && (starter == UnlockAlready ==> running)
      && (thread != Absent && !Waiting() ==> seen)
      && (thread in {LockStarted, LockSet, SetRunning} ==> Waiting())
      && (thread in {Announced, LockClear, ClearRunning, UnlockClear} ==> announced)
      && (thread !in {Absent, Announced, LockClear, ClearRunning, UnlockClear} ==> !announced)
      && (starter in {SeenUnlock, UnlockContinue, LockContinue2, UnlockContinue2} ==> seen)
      && (starter == UnlockContinue2 ==> announced)
      && (starter == LockContinue2 && thread == Absent ==> announced)
      && (thread == LockStarted ==> continueMutex2 != Starter)
      && (result != None ==> starter == Outside) && (result == Ok ==> announced && seen)
    }
  }

  function Initial(): State {
    State(false, Nobody, Nobody, Nobody, Outside, Absent, None, false, false)
  }

  lemma StarterKeeps(s: State, created: bool)
    requires s.Inv() && s.StarterReady()
    ensures s.StarterStep(created).Inv()
  {
  }

  lemma ThreadKeeps(s: State)
    requires s.Inv() && s.ThreadReady()
    ensures s.ThreadStep().Inv()
  {
  }

  /** The states that some sequence of steps leads to. */
  ghost predicate Reached(steps: seq<Step>, s: State) {
    if steps == [] then s == Initial()
    else exists p: State {:trigger p.Ready(steps[|steps| - 1])} ::
      Reached(steps[..|steps| - 1], p) && p.Ready(steps[|steps| - 1]) && s == p.Do(steps[|steps| - 1])
  }

  lemma {:induction false} ReachedInv(steps: seq<Step>, s: State)
    requires Reached(steps, s)
    ensures s.Inv()
  {
    if steps != [] {
      var n := |steps| - 1;
      var p: State :| Reached(steps[..n], p) && p.Ready(steps[n]) && s == p.Do(steps[n]);
      ReachedInv(steps[..n], p);
      match steps[n]
      case ByStarter(created) => StarterKeeps(p, created);
      case ByThread => ThreadKeeps(p);
    }
  }

  /** In every interleaving the body runs, and `running` is cleared, only after Start has seen
      the flag, and Start returns 0 only after ThreadStarted has been called. */
  lemma Handshake(steps: seq<Step>, s: State)
    requires Reached(steps, s)
    ensures s.thread in {InBody, Announced, LockClear, ClearRunning, UnlockClear} ==> s.seen
    ensures s.Waiting() && s.thread in {UnlockSet, LockGate} ==> s.running
    ensures s.result == Ok ==> s.announced
    ensures s.thread != Absent ==> s.starter !in {LockContinue, Create, UnlockFailed}
  {
    ReachedInv(steps, s);
  }

  /** How far the thread is from its end. */
  function ThreadAhead(s: State): nat {
    match s.thread
    case Absent => 0
    case LockStarted => 11
    case LockSet => 10
    case SetRunning => 9
    case UnlockSet => 8
    case LockGate => 7
    case UnlockGate => 6
    case InBody => 5
    case Announced => 4
    case LockClear => 3
    case ClearRunning => 2
    case UnlockClear => 1
  }

  /** How far the caller is from the end of Start. The loop goes round until the flag is set. */
  function StarterAhead(s: State): nat {
    match s.starter
    case Outside => 0
    case UnlockContinue2 => 1
    case LockContinue2 => 2
    case UnlockContinue => 3
    case SeenUnlock => 4
    case PollLock => 6
    case PollUnlock => 7
    case Poll => if s.running then 5 else 8
    case UnlockAlready => 1
    case UnlockFailed => 1
    case Create => 9
    case LockContinue => 10
    case UnlockRunning => 11
    case Look => 12
    case LockRunning => 13
  }

  /** Start has not created its thread yet. */
  function Before(s: State): nat {
    if s.starter in {LockRunning, Look, UnlockRunning, LockContinue, Create} then 1 else 0
  }

  /** No deadlock: a thread that cannot move waits for a mutex of the caller, who can. */
  lemma NoDeadlock(s: State)
    requires s.Inv() && s.starter != Outside
    ensures s.ThreadReady() || s.StarterReady()
    ensures s.Waiting() && !s.running && !s.ThreadReady() ==> s.starter in {Poll, PollUnlock}
  {
  }

  /** From every reachable state Start can return, whether pthread_create succeeds or not. */
  lemma {:induction false} StartReturns(s: State, created: bool) returns (steps: seq<Step>, s1: State)
    requires s.Inv()
    ensures s1.Inv() && s1.starter == Outside && Follows(s, steps, s1)
    decreases Before(s), ThreadAhead(s), StarterAhead(s)
  {
    if s.starter == Outside {
      return [], s;
    }
    NoDeadlock(s);
    var e := if s.ThreadReady() then ByThread else ByStarter(created);
    if e.ByThread? { ThreadKeeps(s); } else { StarterKeeps(s, created); }
    var rest;
    rest, s1 := StartReturns(s.Do(e), created);
    steps := [e] + rest;
    assert steps[1..] == rest;
  }

  // ---- what Start returns ----

  /** The steps lead from s to s1, and Start is not called again on the way. */
  ghost predicate Within(s: State, steps: seq<Step>, s1: State)
    decreases |steps|
  {
    if steps == [] then s1 == s else
      && s.Ready(steps[0]) && (steps[0].ByStarter? ==> s.starter != Outside)
      && Within(s.Do(steps[0]), steps[1..], s1)
  }

  /** A call of Start that began with no thread, `ok` meaning that pthread_create succeeds. */
  predicate Clean(s: State, ok: bool) {
    && s.Inv() && (s.starter in {LockRunning, Look} ==> s.thread == Absent) && s.starter != UnlockAlready
    && (ok ==> s.starter != UnlockFailed)
    && (s.starter == Outside ==> if ok then s.result == Ok else s.result in {Ok, CantStart})
  }

  lemma CleanKeeps(s: State, e: Step, ok: bool)
    requires Clean(s, ok) && s.Ready(e) && (e.ByStarter? ==> s.starter != Outside && (ok ==> e.created))
    ensures Clean(s.Do(e), ok)
  {
    match e
    case ByStarter(created) => StarterKeeps(s, created);
    case ByThread => ThreadKeeps(s);
  }

  lemma {:induction false} CleanWithin(s: State, steps: seq<Step>, s1: State, ok: bool)
    requires Clean(s, ok) && Within(s, steps, s1) && (ok ==> ByStarter(false) !in steps)
    ensures Clean(s1, ok)
    decreases |steps|
  {
    if steps != [] {
      CleanKeeps(s, steps[0], ok);
      CleanWithin(s.Do(steps[0]), steps[1..], s1, ok);
    }
  }

  /** Where there is no thread Start does not report one: in every interleaving it returns 0 if
      pthread_create succeeds, and it reports a failure only if pthread_create fails. */
  lemma StartSucceeds(s: State, c: bool, steps: seq<Step>, s1: State)
    requires s.Inv() && s.starter == Outside && s.thread == Absent
    requires Within(s.StarterStep(c), steps, s1) && s1.starter == Outside
    ensures s1.result in {Ok, CantStart}
    ensures s1.result == CantStart ==> ByStarter(false) in steps
  {
    StarterKeeps(s, c);
    CleanWithin(s.StarterStep(c), steps, s1, false);
    if ByStarter(false) !in steps { CleanWithin(s.StarterStep(c), steps, s1, true); }
  }

  /** While the thread is inside its body every call of Start reports that. */
  lemma {:induction false} StartRefuses(s: State, steps: seq<Step>, s1: State)
    requires s.Inv() && s.running && ByThread !in steps && Within(s, steps, s1) && s1.starter == Outside
    requires s.starter in {LockRunning, Look, UnlockAlready} || (s.starter == Outside && s.result == AlreadyRunning)
    ensures s1.result == AlreadyRunning && s1.thread == s.thread
    decreases |steps|
  {
    if steps != [] {
      StarterKeeps(s, steps[0].created);
      StartRefuses(s.Do(steps[0]), steps[1..], s1);
    }
  }

  ghost predicate Follows(s: State, steps: seq<Step>, s1: State)
    decreases |steps|
  {
    if steps == [] then s1 == s else s.Ready(steps[0]) && Follows(s.Do(steps[0]), steps[1..], s1)
  }
}

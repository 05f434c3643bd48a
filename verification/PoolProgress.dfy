/** The pool can always finish its work: as long as it runs, whatever has happened to its workers,
    every accepted task can still be carried out. */
module PoolProgress {
  import opened ThreadPool

  /** A pool with at least one slot that has not been stopped. */
  ghost predicate Runs(s: State) {
    TasksInv(s) && SlotsInv(s) && s.sh.running && s.workers != []
  }

  /** No worker dies, nobody submits or stops. */
  predicate IsWork(e: Event) {
    !e.WorkerDies? && !e.SubmitTest? && !e.SubmitEnqueue? && !e.Stop?
  }

  predicate OnlyWork(es: seq<Event>) {
    forall i :: 0 <= i < |es| ==> IsWork(es[i])
  }

  ghost predicate AllDone(s: State) {
    s.sh.tasks == [] && Held(s.workers) == multiset{}
  }

  lemma StepRuns(s: State, e: Event)
    requires Runs(s) && IsWork(e)
    ensures Runs(Step(s, e)) && Step(s, e).accepted == s.accepted
  {
    SlotsAreFree(s);
    StepKeepsTasks(s, e);
    StepKeepsSlots(s, e);
    StepFixes(s, e);
    WorkAcceptsNothing(s, e);
  }

  lemma WorkAcceptsNothing(s: State, e: Event)
    requires IsWork(e)
    ensures Step(s, e).accepted == s.accepted && Step(s, e).sh.running == s.sh.running
  {}

  function TasksLeft(s: State): nat {
    2 * |s.sh.tasks| + |Held(s.workers)|
  }

  /** How far the first slot is from a worker that takes a task. */
  function Distance(s: State): int {
    2 * (|s.workers| - s.created) + (if s.sup.SNotCreated? then 1 else 0)
    + if s.workers == [] then 0
      else match s.workers[0]
        case AtTop => 1
        case Exiting => 8 * |s.sh.finishedIds| + Turns(s.sup) + 11
        case Gone => 8 * |s.sh.finishedIds| + Turns(s.sup) + 2
        case _ => 0
  }

  function Turns(sup: Supervisor): nat {
    match sup
    case SHolds(_) => 6
    case SJoined(_) => 5
    case SReplacing(_) => 4
    case SNotCreated => 3
    case STop => 3
    case SEntering => 2
    case SWaiting => 2
    case SExited(_) => 0
  }

  lemma {:induction false} SomeoneHolds(workers: seq<Worker>) returns (i: nat)
    requires Held(workers) != multiset{}
    ensures i < |workers| && workers[i].Holding?
  {
    if workers[0].Holding? {
      i := 0;
    } else {
      assert multiset{} + Held(workers[1..]) == Held(workers[1..]);
      i := SomeoneHolds(workers[1..]);
      i := i + 1;
    }
  }

  /** A worker with a task can end it. */
  lemma EndingHelps(s: State, i: nat)
    requires Runs(s) && i < |s.workers| && s.workers[i].Holding?
    ensures TasksLeft(Step(s, TaskEnds(i))) < TasksLeft(s)
  {
    HeldUpdate(s.workers, i, AtTop);
    assert Held(s.workers) == Held(s.workers[i := AtTop]) + multiset{s.workers[i].task};
    WorkerEventIsStep(s, i, TaskEnds(i));
  }

  /** A worker at the lock can take one. */
  lemma TakingHelps(s: State)
    requires Runs(s) && s.sh.tasks != [] && (s.workers[0].Entering? || s.workers[0].Waiting?)
    ensures TasksLeft(Step(s, WorkerLock(0))) < TasksLeft(s)
  {
    var t := s.sh.tasks[0];
    WorkerEventIsStep(s, 0, WorkerLock(0));
    HeldUpdate(s.workers, 0, Holding(t));
    assert |Held(s.workers) + multiset{t}| == |Held(s.workers)| + 1;
  }

  /** The supervisor's next step. */
  function SupervisorEvent(sup: Supervisor): Event {
    match sup
    case SHolds(_) => SupervisorJoins
    case SReplacing(_) => SupervisorReplaces
    case SEntering => SupervisorLock
    case SWaiting => SupervisorLock
    case _ => SupervisorTest
  }

  /** A thread that replaces one that has ended holds no task, nor does a new one. */
  lemma NewThreadsHoldNothing(s: State, i: nat)
    requires i < |s.workers| && !s.workers[i].Holding?
    ensures Held(s.workers[i := AtTop]) == Held(s.workers)
    ensures Held(s.workers[i := Entering]) == Held(s.workers)
    ensures Held(s.workers[i := Gone]) == Held(s.workers)
  {
    HeldUpdate(s.workers, i, AtTop);
    HeldUpdate(s.workers, i, Entering);
    HeldUpdate(s.workers, i, Gone);
    assert Held(s.workers) + multiset{} == Held(s.workers);
  }

  /** Fewer tasks, or as many and the first slot nearer to one that takes them. */
  predicate Helps(s: State, s': State) {
    || TasksLeft(s') < TasksLeft(s)
    || (TasksLeft(s') == TasksLeft(s) && 0 <= Distance(s') < Distance(s))
  }

  lemma SlotIsNew(s: State)
    requires Runs(s)
    ensures s.created <= |s.workers| && (s.created < |s.workers| ==> s.workers[s.created].NotCreated?)
  {}

  lemma CreatingHelps(s: State)
    requires s.created < |s.workers| && s.workers[s.created].NotCreated?
    ensures Helps(s, Step(s, CreateWorker))
  {
    NewThreadsHoldNothing(s, s.created);
    var s' := Step(s, CreateWorker);
    Creates(s);
    FirstSlot(s'.workers, s.workers, s.created);
    CreatedHelps(s, s');
  }

  lemma CreatedHelps(s: State, s': State)
    requires s'.sh == s.sh && s'.sup == s.sup && Held(s'.workers) == Held(s.workers)
    requires |s'.workers| == |s.workers| && 0 < |s.workers| && s.created < s'.created == s.created + 1 <= |s.workers|
    requires s'.workers[0] == s.workers[0] || (s.workers[0].NotCreated? && s'.workers[0].AtTop?)
    ensures Helps(s, s')
  {}

  lemma Creates(s: State)
    requires s.created < |s.workers|
    ensures Step(s, CreateWorker) == s.(workers := s.workers[s.created := AtTop], created := s.created + 1)
  {}

  lemma FirstSlot(workers': seq<Worker>, workers: seq<Worker>, i: nat)
    requires i < |workers| && workers' == workers[i := AtTop]
    ensures |workers'| == |workers| && workers'[0] == if i == 0 then AtTop else workers[0]
  {}

  lemma StartingHelps(s: State)
    requires s.workers != [] && s.created == |s.workers| && s.sup.SNotCreated?
    ensures Helps(s, Step(s, CreateSupervisor))
  {}

  lemma TestingWorkerHelps(s: State)
    requires s.workers != [] && s.created <= |s.workers| && s.workers[0].AtTop? && s.sh.running
    ensures Helps(s, Step(s, WorkerTest(0)))
  {
    NewThreadsHoldNothing(s, 0);
    WorkerEventIsStep(s, 0, WorkerTest(0));
  }

  lemma LeavingHelps(s: State)
    requires s.workers != [] && s.created <= |s.workers| && s.workers[0].Exiting?
    ensures Helps(s, Step(s, ExitGuard(0)))
  {
    NewThreadsHoldNothing(s, 0);
    var s' := Step(s, ExitGuard(0));
    WorkerEventIsStep(s, 0, ExitGuard(0));
    assert s' == s.(workers := s.workers[0 := Gone], sh := s.sh.(finishedIds := s.sh.finishedIds + [0]));
    LeftHelps(s, s');
  }

  lemma LeftHelps(s: State, s': State)
    requires s'.sh.tasks == s.sh.tasks && |s'.sh.finishedIds| == |s.sh.finishedIds| + 1
    requires s'.sup == s.sup && Held(s'.workers) == Held(s.workers)
    requires |s'.workers| == |s.workers| && 0 < |s.workers| && s'.created == s.created <= |s.workers|
    requires s.workers[0].Exiting? && s'.workers[0].Gone?
    ensures Helps(s, s')
  {}

  lemma LockingHelps(s: State)
    requires Runs(s) && s.created == |s.workers| && s.workers[0].Gone? && (s.sup.SEntering? || s.sup.SWaiting?)
    ensures
      var s' := Step(s, SupervisorLock);
      && s'.workers == s.workers && s'.created == s.created && s'.sup.SHolds?
      && |s'.sh.finishedIds| == |s.sh.finishedIds| - 1
  {
    assert Vacancies(s, 0) == 1;
    assert multiset(s.sh.finishedIds)[0] == 1;
    assert 0 in multiset(s.sh.finishedIds);
  }

  lemma JoiningHelps(s: State)
    requires Runs(s) && s.sup.SHolds?
    ensures Step(s, SupervisorJoins) == s.(sup := SJoined(s.sup.id))
  {
    assert Vacancies(s, s.sup.id) >= 1;
  }

  lemma ReplacingHelps(s: State)
    requires Runs(s) && s.sup.SReplacing?
    ensures s.sup.id < |s.workers| && s.workers[s.sup.id].Gone?
    ensures Step(s, SupervisorReplaces) == s.(workers := s.workers[s.sup.id := AtTop], sup := STop)
  {
    assert Vacancies(s, s.sup.id) >= 1;
  }

  /** The supervisor comes nearer to the first slot, or has reached it. */
  predicate Approaches(s: State, s': State) {
    && s'.created == s.created && |s'.workers| == |s.workers| && !s'.sup.SNotCreated?
    && |s.workers| > 0 && (s'.workers[0].Gone? || s'.workers[0].AtTop?)
    && 8 * |s'.sh.finishedIds| + Turns(s'.sup) < 8 * |s.sh.finishedIds| + Turns(s.sup)
  }

  lemma ApproachingHelps(s: State, s': State)
    requires Approaches(s, s') && s.created == |s.workers| && s.workers[0].Gone?
    requires s'.sh.tasks == s.sh.tasks && Held(s'.workers) == Held(s.workers)
    ensures Helps(s, s')
  {}

  lemma SupervisorHelps(s: State)
    requires Runs(s) && s.created == |s.workers| && !s.sup.SNotCreated? && s.workers[0].Gone?
    ensures Helps(s, Step(s, SupervisorEvent(s.sup)))
  {
    var s' := Step(s, SupervisorEvent(s.sup));
    SupervisorApproaches(s);
    SupervisorLeavesTasks(s, SupervisorEvent(s.sup));
    if s.sup.SReplacing? {
      ReplacingHelps(s);
      NewThreadsHoldNothing(s, s.sup.id);
    }
    ApproachingHelps(s, s');
  }

  lemma SupervisorApproaches(s: State)
    requires Runs(s) && s.created == |s.workers| && !s.sup.SNotCreated? && s.workers[0].Gone?
    ensures Approaches(s, Step(s, SupervisorEvent(s.sup)))
  {
    if s.sup.SEntering? || s.sup.SWaiting? {
      LockingHelps(s);
    } else if s.sup.SHolds? {
      JoiningHelps(s);
    } else if s.sup.SReplacing? {
      ReplacingHelps(s);
    } else {
      TestingHelps(s);
    }
  }

  lemma TestingHelps(s: State)
    requires Runs(s) && (s.sup.STop? || s.sup.SJoined?)
    ensures Step(s, SupervisorTest) == s.(sup := if s.sup.STop? then SEntering else SReplacing(s.sup.id))
  {}

  /** Something can be done that leaves less to do. */
  lemma WorkHelps(s: State) returns (e: Event)
    requires Runs(s) && !AllDone(s)
    ensures IsWork(e) && Helps(s, Step(s, e)) && 0 <= Distance(s)
  {
    SlotIsNew(s);
    if Held(s.workers) != multiset{} {
      var i := SomeoneHolds(s.workers);
      EndingHelps(s, i);
      e := TaskEnds(i);
    } else if s.created < |s.workers| {
      CreatingHelps(s);
      e := CreateWorker;
    } else if s.sup.SNotCreated? {
      StartingHelps(s);
      e := CreateSupervisor;
    } else {
      FirstHoldsNothing(s);
      e := FirstSlotHelps(s);
    }
  }

  lemma FirstSlotHelps(s: State) returns (e: Event)
    requires Runs(s) && s.created == |s.workers| && !s.sup.SNotCreated?
    requires s.sh.tasks != [] && !s.workers[0].Holding?
    ensures IsWork(e) && Helps(s, Step(s, e))
  {
    if s.workers[0].AtTop? {
      TestingWorkerHelps(s);
      e := WorkerTest(0);
    } else if s.workers[0].Exiting? {
      LeavingHelps(s);
      e := ExitGuard(0);
    } else if s.workers[0].Gone? {
      SupervisorHelps(s);
      e := SupervisorEvent(s.sup);
    } else {
      TakingHelps(s);
      e := WorkerLock(0);
    }
  }

  lemma FirstHoldsNothing(s: State)
    requires s.workers != [] && Held(s.workers) == multiset{}
    ensures !s.workers[0].Holding?
  {
    assert |Held(s.workers)| == |Abandoned(s.workers[0])| + |Held(s.workers[1..])|;
  }

  lemma {:induction false} WorkCanEnd(s: State) returns (es: seq<Event>)
    requires Runs(s)
    ensures OnlyWork(es) && AllDone(Run(s, es)) && Runs(Run(s, es)) && Run(s, es).accepted == s.accepted
    decreases TasksLeft(s), Distance(s)
  {
    if AllDone(s) {
      es := [];
    } else {
      var e := WorkHelps(s);
      StepRuns(s, e);
      var rest := WorkCanEnd(Step(s, e));
      es := [e] + rest;
      assert es[1..] == rest;
    }
  }

  /** From every state of a pool that has not been stopped, however many of its workers have died
      and wherever its supervisor is, there is a way to carry out every accepted task. */
  lemma TasksCanAllBeDone(n: nat, maxQueueSize: nat, es: seq<Event>) returns (more: seq<Event>)
    requires n > 0 && Run(Start(n, maxQueueSize), es).sh.running
    ensures
      var s := Run(Start(n, maxQueueSize), es);
      var s' := Run(s, more);
      OnlyWork(more) && s'.accepted == s.accepted && s'.sh.tasks == [] && s'.ended == multiset(s.accepted)
  {
    NobodyHoldsAtStart(n);
    RunKeeps(Start(n, maxQueueSize), es);
    var s := Run(Start(n, maxQueueSize), es);
    more := WorkCanEnd(s);
    var s' := Run(s, more);
    assert s'.taken + [] == s'.taken;
    assert multiset{} + s'.ended == s'.ended;
  }
}

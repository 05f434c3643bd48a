/** The supervised thread pool from a fresh `start` on, as a step system.

    One step is one critical section, one test of `m_running`, or the creation, the end or the
    join of a thread. Tasks are numbers. A worker may leave its loop abnormally at any point
    before its exit guard runs. `accepted`, `taken` and `ended` are the tasks accepted, dequeued
    and finished so far, in that order of events.
  */
module ThreadPool {
  import opened Text

  type Task = nat

  /** What the two mutexes and the atomic flag protect. */
  datatype Shared = Shared(running: bool, maxQueueSize: nat, tasks: seq<Task>, finishedIds: seq<nat>)

  datatype Worker =
    | NotCreated
    | AtTop
    | Entering
    | Waiting
    | Holding(task: Task)
    | Exiting
    | Gone

  datatype Supervisor =
    | SNotCreated
    | STop
    | SEntering
    | SWaiting
    | SHolds(id: nat)
    | SJoined(id: nat)
    | SReplacing(id: nat)
    | SExited(dropped: Option<nat>)

  datatype State = State(
    sh: Shared, workers: seq<Worker>, sup: Supervisor, created: nat,
    admitted: multiset<Task>, accepted: seq<Task>, taken: seq<Task>, ended: multiset<Task>)

  datatype Event =
    | SubmitTest(task: Task, empty: bool)
    | SubmitEnqueue(task: Task)
    | CreateWorker
    | CreateSupervisor
    | WorkerTest(i: nat)
    | WorkerLock(i: nat)
    | TaskEnds(i: nat)
    | WorkerDies(i: nat)
    | ExitGuard(i: nat)
    | SupervisorTest
    | SupervisorLock
    | SupervisorJoins
    | SupervisorReplaces
    | Stop

  /** `submit` with the lock held. */
  function Enqueue(sh: Shared, task: Task): (Shared, bool) {
    if sh.maxQueueSize > 0 && |sh.tasks| >= sh.maxQueueSize then (sh, false)
    else (sh.(tasks := sh.tasks + [task]), true)
  }

  /** A worker with the lock held, until it waits, leaves the loop, starts over or has a task. */
  function TakeTask(sh: Shared): (Shared, Worker) {
    if sh.tasks == [] && sh.running then (sh, Waiting)
    else if !sh.running then (sh, Exiting)
    else (sh.(tasks := sh.tasks[1..]), Holding(sh.tasks[0]))
  }

  function PushFinished(sh: Shared, id: nat): Shared {
    sh.(finishedIds := sh.finishedIds + [id])
  }

  function TakeFinished(sh: Shared): (Shared, Supervisor) {
    if sh.finishedIds == [] && sh.running then (sh, SWaiting)
    else if !sh.running then (sh, SExited(None))
    else (sh.(finishedIds := sh.finishedIds[1..]), SHolds(sh.finishedIds[0]))
  }

  predicate InLoop(w: Worker) {
    w.AtTop? || w.Entering? || w.Waiting? || w.Holding?
  }

  predicate Live(w: Worker) {
    InLoop(w) || w.Exiting?
  }

  function Abandoned(w: Worker): multiset<Task> {
    if w.Holding? then multiset{w.task} else multiset{}
  }

  function WorkerStep(s: State, i: nat, e: Event): State
    requires i < |s.workers|
  {
    var w := s.workers[i];
    if e == WorkerTest(i) && w.AtTop? then
      s.(workers := s.workers[i := if s.sh.running then Entering else Exiting])
    else if e == WorkerLock(i) && (w.Entering? || w.Waiting?) then
      var (sh, w') := TakeTask(s.sh);
      s.(sh := sh, workers := s.workers[i := w'], taken := s.taken + if w'.Holding? then [w'.task] else [])
    else if e == TaskEnds(i) && w.Holding? then
      s.(workers := s.workers[i := AtTop], ended := s.ended + multiset{w.task})
    else if e == WorkerDies(i) && InLoop(w) then
      s.(workers := s.workers[i := Exiting], ended := s.ended + Abandoned(w))
    else if e == ExitGuard(i) && w.Exiting? then
      s.(workers := s.workers[i := Gone], sh := PushFinished(s.sh, i))
    else s
  }

  function SupervisorStep(s: State, e: Event): State {
    match (e, s.sup)
    case (SupervisorTest, STop) => s.(sup := if s.sh.running then SEntering else SExited(None))
    case (SupervisorTest, SJoined(id)) => s.(sup := if s.sh.running then SReplacing(id) else SExited(Some(id)))
    case (SupervisorLock, SEntering) => s.(sh := TakeFinished(s.sh).0, sup := TakeFinished(s.sh).1)
    case (SupervisorLock, SWaiting) => s.(sh := TakeFinished(s.sh).0, sup := TakeFinished(s.sh).1)
    case (SupervisorJoins, SHolds(id)) =>
      if id >= |s.workers| then s.(sup := STop)
      else if s.workers[id].Gone? then s.(sup := SJoined(id))
      else s
    case (SupervisorReplaces, SReplacing(id)) =>
      if id < |s.workers| then s.(workers := s.workers[id := AtTop], sup := STop) else s
    case _ => s
  }

  /** One step; an event that is not possible in a state leaves it as it is. */
  function Step(s: State, e: Event): State {
    match e
    case SubmitTest(task, empty) =>
      if empty || !s.sh.running then s else s.(admitted := s.admitted + multiset{task})
    case SubmitEnqueue(task) =>
      if task !in s.admitted then s
      else
        var (sh, ok) := Enqueue(s.sh, task);
        s.(sh := sh, admitted := s.admitted - multiset{task}, accepted := s.accepted + if ok then [task] else [])
    case CreateWorker =>
      if s.created < |s.workers| then s.(workers := s.workers[s.created := AtTop], created := s.created + 1) else s
    case CreateSupervisor =>
      if s.created == |s.workers| && s.sup.SNotCreated? then s.(sup := STop) else s
    case Stop => if s.sup.SNotCreated? then s else s.(sh := s.sh.(running := false))
    case WorkerTest(i) => if i < |s.workers| then WorkerStep(s, i, e) else s
    case WorkerLock(i) => if i < |s.workers| then WorkerStep(s, i, e) else s
    case TaskEnds(i) => if i < |s.workers| then WorkerStep(s, i, e) else s
    case WorkerDies(i) => if i < |s.workers| then WorkerStep(s, i, e) else s
    case ExitGuard(i) => if i < |s.workers| then WorkerStep(s, i, e) else s
    case SupervisorTest => SupervisorStep(s, e)
    case SupervisorLock => SupervisorStep(s, e)
    case SupervisorJoins => SupervisorStep(s, e)
    case SupervisorReplaces => SupervisorStep(s, e)
  }

  function Run(s: State, es: seq<Event>): State
    decreases |es|
  {
    if es == [] then s else Run(Step(s, es[0]), es[1..])
  }

  /** `start(n)` on a pool that has never run, just after it sets `m_running`. */
  function Start(n: nat, maxQueueSize: nat): State {
    State(Shared(true, maxQueueSize, [], []), seq(n, _ => NotCreated), SNotCreated, 0,
          multiset{}, [], [], multiset{})
  }

  /** The tasks that workers hold. */
  function Held(workers: seq<Worker>): multiset<Task> {
    if workers == [] then multiset{} else Abandoned(workers[0]) + Held(workers[1..])
  }

  lemma {:induction false} HeldUpdateAt(workers: seq<Worker>, i: nat, w: Worker, t: Task)
    requires i < |workers|
    ensures Held(workers[i := w])[t] + Abandoned(workers[i])[t] == Held(workers)[t] + Abandoned(w)[t]
  {
    var updated := workers[i := w];
    if i == 0 {
      assert updated[1..] == workers[1..];
    } else {
      assert updated[1..] == workers[1..][i - 1 := w];
      HeldUpdateAt(workers[1..], i - 1, w, t);
    }
  }

  /** When one worker lets go of its task, if it has any, or takes one, so do all together. */
  lemma HeldUpdate(workers: seq<Worker>, i: nat, w: Worker)
    requires i < |workers|
    ensures !w.Holding? ==> Held(workers) == Held(workers[i := w]) + Abandoned(workers[i])
    ensures !workers[i].Holding? ==> Held(workers[i := w]) == Held(workers) + Abandoned(w)
  {
    forall t: Task
      ensures Held(workers[i := w])[t] + Abandoned(workers[i])[t] == Held(workers)[t] + Abandoned(w)[t]
    {
      HeldUpdateAt(workers, i, w, t);
    }
  }

  lemma Regroup(a: multiset<Task>, b: multiset<Task>, c: multiset<Task>)
    ensures a + b + c == a + (c + b)
  {}

  /** No task is lost, duplicated or overtaken, and the queue respects its limit. */
  ghost predicate TasksInv(s: State) {
    && s.accepted == s.taken + s.sh.tasks
    && multiset(s.taken) == Held(s.workers) + s.ended
    && (s.sh.maxQueueSize > 0 ==> |s.sh.tasks| <= s.sh.maxQueueSize)
  }

  function SupervisorHas(sup: Supervisor, i: nat): nat {
    match sup
    case SHolds(id) => if id == i then 1 else 0
    case SJoined(id) => if id == i then 1 else 0
    case SReplacing(id) => if id == i then 1 else 0
    case SExited(dropped) => if dropped == Some(i) then 1 else 0
    case _ => 0
  }

  /** How often a slot is waiting for a new thread: in the queue of finished ids, or in the
      supervisor's hands. */
  function Vacancies(s: State, i: nat): nat {
    multiset(s.sh.finishedIds)[i] + SupervisorHas(s.sup, i)
  }

  ghost predicate SlotsInv(s: State) {
    && s.created <= |s.workers|
    && (forall i :: 0 <= i < |s.workers| ==> (s.workers[i].NotCreated? <==> i >= s.created))
    && (forall i :: 0 <= i < |s.workers| ==> Vacancies(s, i) == if s.workers[i].Gone? then 1 else 0)
    && (forall i: nat :: i >= |s.workers| ==> Vacancies(s, i) == 0)
    && (s.sup.SNotCreated? ==> s.sh.running)
    && (s.sup.SExited? ==> !s.sh.running)
    && (!s.sup.SNotCreated? ==> s.created == |s.workers|)
  }

  lemma TakeExtends(taken: seq<Task>, tasks: seq<Task>)
    requires tasks != []
    ensures taken + tasks == taken + [tasks[0]] + tasks[1..]
    ensures multiset(taken + [tasks[0]]) == multiset(taken) + multiset{tasks[0]}
  {}

  /** A worker that takes no task ends the one it held, if any. */
  lemma WorkerReleases(s: State, s': State, i: nat)
    requires TasksInv(s) && i < |s.workers| == |s'.workers|
    requires s'.workers == s.workers[i := s'.workers[i]] && !s'.workers[i].Holding?
    requires s'.sh.tasks == s.sh.tasks && s'.accepted == s.accepted && s'.taken == s.taken
    requires s'.sh.maxQueueSize == s.sh.maxQueueSize
    requires s'.ended == s.ended + Abandoned(s.workers[i])
    ensures TasksInv(s')
  {
    HeldUpdate(s.workers, i, s'.workers[i]);
    Regroup(Held(s'.workers), Abandoned(s.workers[i]), s.ended);
  }

  lemma WorkerTakes(s: State, s': State, i: nat)
    requires TasksInv(s) && i < |s.workers| == |s'.workers| && s.sh.tasks != []
    requires !s.workers[i].Holding? && s'.workers == s.workers[i := Holding(s.sh.tasks[0])]
    requires s'.sh.tasks == s.sh.tasks[1..] && s'.accepted == s.accepted && s'.taken == s.taken + [s.sh.tasks[0]]
    requires s'.sh.maxQueueSize == s.sh.maxQueueSize && s'.ended == s.ended
    ensures TasksInv(s')
  {
    TakeExtends(s.taken, s.sh.tasks);
    HeldUpdate(s.workers, i, s'.workers[i]);
    Regroup(Held(s.workers), multiset{s.sh.tasks[0]}, s.ended);
  }

  lemma WorkerKeepsTasks(s: State, i: nat, e: Event)
    requires TasksInv(s) && i < |s.workers|
    ensures TasksInv(WorkerStep(s, i, e))
  {
    var s' := WorkerStep(s, i, e);
    var w := s.workers[i];
    if e == WorkerLock(i) && (w.Entering? || w.Waiting?) {
      if s.sh.tasks != [] && s.sh.running {
        WorkerTakes(s, s', i);
      } else {
        assert s.taken + [] == s.taken;
        WorkerReleases(s, s', i);
      }
    } else if e == TaskEnds(i) && w.Holding? {
      WorkerReleases(s, s', i);
    } else if e == WorkerDies(i) && InLoop(w) {
      WorkerReleases(s, s', i);
    } else if (e == WorkerTest(i) && w.AtTop?) || (e == ExitGuard(i) && w.Exiting?) {
      assert s.ended + multiset{} == s.ended;
      WorkerReleases(s, s', i);
    }
  }

  /** Giving a slot a new thread does not touch any task. */
  lemma NewThreadHoldsNothing(s: State, i: nat)
    requires TasksInv(s) && i < |s.workers| && !s.workers[i].Holding?
    ensures multiset(s.taken) == Held(s.workers[i := AtTop]) + s.ended
  {
    HeldUpdate(s.workers, i, AtTop);
    assert Held(s.workers) + multiset{} == Held(s.workers);
  }

  /** The slots that are about to get a thread have no task. */
  predicate FreeSlots(s: State) {
    && (s.created < |s.workers| ==> !s.workers[s.created].Holding?)
    && (s.sup.SReplacing? && s.sup.id < |s.workers| ==> !s.workers[s.sup.id].Holding?)
  }

  lemma SlotsAreFree(s: State)
    requires SlotsInv(s)
    ensures FreeSlots(s)
  {
    if s.sup.SReplacing? { assert Vacancies(s, s.sup.id) >= 1; }
  }

  lemma CreateKeepsTasks(s: State)
    requires TasksInv(s) && FreeSlots(s)
    ensures TasksInv(Step(s, CreateWorker))
  {
    if s.created < |s.workers| { NewThreadHoldsNothing(s, s.created); }
  }

  lemma SubmitKeepsTasks(s: State, task: Task)
    requires TasksInv(s)
    ensures TasksInv(Step(s, SubmitEnqueue(task)))
  {
    assert s.taken + (s.sh.tasks + [task]) == s.taken + s.sh.tasks + [task];
    assert s.accepted + [] == s.accepted;
  }

  predicate Replaces(s: State, e: Event) {
    e.SupervisorReplaces? && s.sup.SReplacing? && s.sup.id < |s.workers|
  }

  lemma SupervisorLeavesTasks(s: State, e: Event)
    ensures
      var s' := SupervisorStep(s, e);
      && s'.accepted == s.accepted && s'.taken == s.taken && s'.ended == s.ended
      && s'.sh.tasks == s.sh.tasks && s'.sh.maxQueueSize == s.sh.maxQueueSize
      && s'.workers == if Replaces(s, e) then s.workers[s.sup.id := AtTop] else s.workers
  {}

  lemma SupervisorKeepsTasks(s: State, e: Event)
    requires TasksInv(s) && FreeSlots(s)
    ensures TasksInv(SupervisorStep(s, e))
  {
    SupervisorLeavesTasks(s, e);
    if Replaces(s, e) { NewThreadHoldsNothing(s, s.sup.id); }
  }

  predicate IsWorkerEvent(e: Event, i: nat) {
    e == WorkerTest(i) || e == WorkerLock(i) || e == TaskEnds(i) || e == WorkerDies(i) || e == ExitGuard(i)
  }

  predicate IsSupervisorEvent(e: Event) {
    e.SupervisorTest? || e.SupervisorLock? || e.SupervisorJoins? || e.SupervisorReplaces?
  }

  lemma WorkerEventIsStep(s: State, i: nat, e: Event)
    requires IsWorkerEvent(e, i)
    ensures Step(s, e) == if i < |s.workers| then WorkerStep(s, i, e) else s
  {}

  lemma WorkerEventKeepsTasks(s: State, i: nat, e: Event)
    requires TasksInv(s) && IsWorkerEvent(e, i)
    ensures TasksInv(Step(s, e))
  {
    WorkerEventIsStep(s, i, e);
    if i < |s.workers| { WorkerKeepsTasks(s, i, e); }
  }

  lemma SupervisorEventKeepsTasks(s: State, e: Event)
    requires TasksInv(s) && FreeSlots(s) && IsSupervisorEvent(e)
    ensures TasksInv(Step(s, e))
  {
    SupervisorKeepsTasks(s, e);
  }

  lemma OtherEventKeepsTasks(s: State, e: Event)
    requires TasksInv(s) && (e.SubmitTest? || e.CreateSupervisor? || e.Stop?)
    ensures TasksInv(Step(s, e))
  {
    OtherEventLeavesTasks(s, e);
  }

  lemma OtherEventLeavesTasks(s: State, e: Event)
    requires e.SubmitTest? || e.CreateSupervisor? || e.Stop?
    ensures
      var s' := Step(s, e);
      && s'.accepted == s.accepted && s'.taken == s.taken && s'.ended == s.ended && s'.workers == s.workers
      && s'.sh.tasks == s.sh.tasks && s'.sh.maxQueueSize == s.sh.maxQueueSize
  {}

  lemma StepKeepsTasks(s: State, e: Event)
    requires TasksInv(s) && FreeSlots(s)
    ensures TasksInv(Step(s, e))
  {
    match e
    case SubmitEnqueue(task) => SubmitKeepsTasks(s, task);
    case CreateWorker => CreateKeepsTasks(s);
    case WorkerTest(i) => WorkerEventKeepsTasks(s, i, e);
    case WorkerLock(i) => WorkerEventKeepsTasks(s, i, e);
    case TaskEnds(i) => WorkerEventKeepsTasks(s, i, e);
    case WorkerDies(i) => WorkerEventKeepsTasks(s, i, e);
    case ExitGuard(i) => WorkerEventKeepsTasks(s, i, e);
    case SupervisorTest => SupervisorEventKeepsTasks(s, e);
    case SupervisorLock => SupervisorEventKeepsTasks(s, e);
    case SupervisorJoins => SupervisorEventKeepsTasks(s, e);
    case SupervisorReplaces => SupervisorEventKeepsTasks(s, e);
    case _ => OtherEventKeepsTasks(s, e);
  }

  predicate Leaves(s: State, i: nat, e: Event)
    requires i < |s.workers|
  {
    e == ExitGuard(i) && s.workers[i].Exiting?
  }

  lemma WorkerMoves(s: State, i: nat, e: Event)
    requires i < |s.workers|
    ensures
      var s' := WorkerStep(s, i, e);
      && s'.sup == s.sup && s'.created == s.created && s'.sh.running == s.sh.running
      && s'.sh.finishedIds == s.sh.finishedIds + (if Leaves(s, i, e) then [i] else [])
      && |s'.workers| == |s.workers| && s'.workers == s.workers[i := s'.workers[i]]
      && s'.workers[i].NotCreated? == s.workers[i].NotCreated?
      && (s'.workers[i].Gone? <==> s.workers[i].Gone? || Leaves(s, i, e))
  {
    assert s.sh.finishedIds + [] == s.sh.finishedIds;
  }

  lemma WorkerKeepsSlots(s: State, i: nat, e: Event)
    requires SlotsInv(s) && i < |s.workers|
    ensures SlotsInv(WorkerStep(s, i, e))
  {
    WorkerMoves(s, i, e);
    var s' := WorkerStep(s, i, e);
    forall k: nat
      ensures Vacancies(s', k) == Vacancies(s, k) + if k == i && Leaves(s, i, e) then 1 else 0
    {
    }
  }

  lemma SupervisorKeepsSlots(s: State, e: Event)
    requires SlotsInv(s)
    ensures SlotsInv(SupervisorStep(s, e))
  {
    var s' := SupervisorStep(s, e);
    var ids := s.sh.finishedIds;
    if ids != [] { assert ids == [ids[0]] + ids[1..]; }
    if s.sup.SHolds? || s.sup.SReplacing? { assert Vacancies(s, s.sup.id) >= 1; }
    forall k: nat
      ensures Vacancies(s', k) == Vacancies(s, k) - if e.SupervisorReplaces? && s.sup == SReplacing(k) then 1 else 0
    {
    }
  }

  lemma WorkerEventKeepsSlots(s: State, i: nat, e: Event)
    requires SlotsInv(s) && IsWorkerEvent(e, i)
    ensures SlotsInv(Step(s, e))
  {
    WorkerEventIsStep(s, i, e);
    if i < |s.workers| { WorkerKeepsSlots(s, i, e); }
  }

  lemma OtherEventKeepsSlots(s: State, e: Event)
    requires SlotsInv(s)
    requires e.SubmitTest? || e.SubmitEnqueue? || e.CreateWorker? || e.CreateSupervisor? || e.Stop?
    ensures SlotsInv(Step(s, e))
  {
    var s' := Step(s, e);
    forall k: nat ensures Vacancies(s', k) == Vacancies(s, k) {}
  }

  lemma StepKeepsSlots(s: State, e: Event)
    requires SlotsInv(s)
    ensures SlotsInv(Step(s, e))
  {
    match e
    case WorkerTest(i) => WorkerEventKeepsSlots(s, i, e);
    case WorkerLock(i) => WorkerEventKeepsSlots(s, i, e);
    case TaskEnds(i) => WorkerEventKeepsSlots(s, i, e);
    case WorkerDies(i) => WorkerEventKeepsSlots(s, i, e);
    case ExitGuard(i) => WorkerEventKeepsSlots(s, i, e);
    case SupervisorTest => SupervisorKeepsSlots(s, e);
    case SupervisorLock => SupervisorKeepsSlots(s, e);
    case SupervisorJoins => SupervisorKeepsSlots(s, e);
    case SupervisorReplaces => SupervisorKeepsSlots(s, e);
    case _ => OtherEventKeepsSlots(s, e);
  }

  lemma StepFixes(s: State, e: Event)
    ensures |Step(s, e).workers| == |s.workers|
    ensures Step(s, e).sh.maxQueueSize == s.sh.maxQueueSize
  {}

  lemma {:induction false} RunKeeps(s: State, es: seq<Event>)
    requires TasksInv(s) && SlotsInv(s)
    ensures TasksInv(Run(s, es)) && SlotsInv(Run(s, es))
    ensures |Run(s, es).workers| == |s.workers|
    ensures Run(s, es).sh.maxQueueSize == s.sh.maxQueueSize
    decreases |es|
  {
    if es != [] {
      var s' := Step(s, es[0]);
      SlotsAreFree(s);
      StepKeepsTasks(s, es[0]);
      StepKeepsSlots(s, es[0]);
      StepFixes(s, es[0]);
      RunKeeps(s', es[1..]);
    }
  }

  lemma {:induction false} NobodyHoldsAtStart(n: nat)
    ensures Held(seq(n, _ => NotCreated)) == multiset{}
  {
    if n > 0 {
      assert seq(n, _ => NotCreated)[1..] == seq(n - 1, _ => NotCreated);
      NobodyHoldsAtStart(n - 1);
    }
  }

  /** In every reachable state the accepted tasks are the dequeued ones followed by the queued
      ones, in acceptance order; the dequeued ones are those that run and those that have ended,
      each once; and the queue stays within a positive limit. */
  lemma TasksAreConserved(n: nat, maxQueueSize: nat, es: seq<Event>)
    ensures
      var s := Run(Start(n, maxQueueSize), es);
      && s.accepted == s.taken + s.sh.tasks
      && multiset(s.accepted) == multiset(s.sh.tasks) + Held(s.workers) + s.ended
      && (maxQueueSize > 0 ==> |s.sh.tasks| <= maxQueueSize)
  {
    NobodyHoldsAtStart(n);
    RunKeeps(Start(n, maxQueueSize), es);
  }

  /** In every reachable state a slot whose thread was created either has a live thread, and
      then is nowhere else, or is in exactly one place: once among the finished ids or with the
      supervisor. Until `stop` no slot is dropped, and a thread is only ever replaced when it
      has ended. */
  lemma SlotsAreConserved(n: nat, maxQueueSize: nat, es: seq<Event>, i: nat)
    requires i < n
    ensures
      var s := Run(Start(n, maxQueueSize), es);
      var queued := multiset(s.sh.finishedIds)[i];
      var supervised := SupervisorHas(s.sup, i);
      && |s.workers| == n
      && (i < s.created ==>
            if Live(s.workers[i]) then queued == supervised == 0 else s.workers[i].Gone? && queued + supervised == 1)
      && (i >= s.created ==> s.workers[i].NotCreated? && queued == supervised == 0)
      && (s.sh.running ==> !s.sup.SExited?)
      && (s.sup == SReplacing(i) ==> s.workers[i].Gone?)
  {
    NobodyHoldsAtStart(n);
    RunKeeps(Start(n, maxQueueSize), es);
    var s := Run(Start(n, maxQueueSize), es);
    assert Vacancies(s, i) == if s.workers[i].Gone? then 1 else 0;
  }

  /** An admitted task is accepted exactly if the queue has room, and then queued last. */
  lemma SubmitAcceptsIff(n: nat, maxQueueSize: nat, es: seq<Event>, task: Task)
    requires task in Run(Start(n, maxQueueSize), es).admitted
    ensures
      var s := Run(Start(n, maxQueueSize), es);
      var s' := Step(s, SubmitEnqueue(task));
      if maxQueueSize == 0 || |s.sh.tasks| < maxQueueSize
      then s'.accepted == s.accepted + [task] && s'.sh.tasks == s.sh.tasks + [task]
      else s'.accepted == s.accepted && s'.sh.tasks == s.sh.tasks
  {
    NobodyHoldsAtStart(n);
    RunKeeps(Start(n, maxQueueSize), es);
  }

  /** The first test of `submit` admits a task exactly if it is not empty and the pool runs, and
      changes nothing else. */
  lemma SubmitTestAdmitsIff(n: nat, maxQueueSize: nat, es: seq<Event>, task: Task, empty: bool)
    ensures
      var s := Run(Start(n, maxQueueSize), es);
      var s' := Step(s, SubmitTest(task, empty));
      && s' == s.(admitted := s'.admitted)
      && (s'.admitted == s.admitted + multiset{task} <==> !empty && s.sh.running)
      && (s'.admitted == s.admitted <==> empty || !s.sh.running)
  {
    var s := Run(Start(n, maxQueueSize), es);
    assert (s.admitted + multiset{task})[task] == s.admitted[task] + 1;
  }

  /** A whole call of `submit` that nothing interrupts: on a running pool with room the task is
      accepted and queued last, on one without room nothing changes, and on a stopped one, or
      with an empty task, nothing changes either. */
  lemma SubmitMeans(n: nat, maxQueueSize: nat, es: seq<Event>, task: Task, empty: bool)
    ensures
      var s := Run(Start(n, maxQueueSize), es);
      var s1 := Step(s, SubmitTest(task, empty));
      var s2 := Step(s1, SubmitEnqueue(task));
      if empty || !s.sh.running then s1 == s
      else if maxQueueSize == 0 || |s.sh.tasks| < maxQueueSize then
        s2 == s.(accepted := s.accepted + [task], sh := s.sh.(tasks := s.sh.tasks + [task]))
      else s2 == s
  {
    NobodyHoldsAtStart(n);
    RunKeeps(Start(n, maxQueueSize), es);
    SubmitInTwoSteps(Run(Start(n, maxQueueSize), es), task, empty);
  }

  lemma SubmitInTwoSteps(s: State, task: Task, empty: bool)
    ensures
      var s1 := Step(s, SubmitTest(task, empty));
      var s2 := Step(s1, SubmitEnqueue(task));
      if empty || !s.sh.running then s1 == s
      else if s.sh.maxQueueSize == 0 || |s.sh.tasks| < s.sh.maxQueueSize then
        s2 == s.(accepted := s.accepted + [task], sh := s.sh.(tasks := s.sh.tasks + [task]))
      else s2 == s
  {
    if !empty && s.sh.running {
      var s1 := Step(s, SubmitTest(task, empty));
      assert s1 == s.(admitted := s.admitted + multiset{task});
      EnqueueAdmitted(s1, task);
      assert s.admitted + multiset{task} - multiset{task} == s.admitted;
    }
  }

  lemma EnqueueAdmitted(s: State, task: Task)
    requires task in s.admitted
    ensures
      var rest := s.admitted - multiset{task};
      Step(s, SubmitEnqueue(task))
      == if s.sh.maxQueueSize == 0 || |s.sh.tasks| < s.sh.maxQueueSize
         then s.(admitted := rest, accepted := s.accepted + [task], sh := s.sh.(tasks := s.sh.tasks + [task]))
         else s.(admitted := rest)
  {
    assert s.accepted + [] == s.accepted;
  }

  /** What the worker loop does on a running pool: from its top it takes the oldest task if there
      is one and waits otherwise, and after a task it is at its top again. */
  lemma WorkerServes(n: nat, maxQueueSize: nat, es: seq<Event>, i: nat)
    requires i < n && Run(Start(n, maxQueueSize), es).sh.running
    ensures
      var s := Run(Start(n, maxQueueSize), es);
      i < |s.workers| &&
      var s' := Step(Step(s, WorkerTest(i)), WorkerLock(i));
      && (s.workers[i].AtTop? ==>
            if s.sh.tasks == [] then s' == s.(workers := s.workers[i := Waiting])
            else s' == s.(workers := s.workers[i := Holding(s.sh.tasks[0])], taken := s.taken + [s.sh.tasks[0]],
                          sh := s.sh.(tasks := s.sh.tasks[1..])))
      && (s.workers[i].Holding? ==>
            Step(s, TaskEnds(i))
            == s.(workers := s.workers[i := AtTop], ended := s.ended + multiset{s.workers[i].task}))
  {
    NobodyHoldsAtStart(n);
    RunKeeps(Start(n, maxQueueSize), es);
    var s := Run(Start(n, maxQueueSize), es);
    if s.workers[i].AtTop? { WorkerFromTop(s, i); }
    if s.workers[i].Holding? { WorkerEndsTask(s, i); }
  }

  lemma WorkerEndsTask(s: State, i: nat)
    requires i < |s.workers| && s.workers[i].Holding?
    ensures Step(s, TaskEnds(i))
      == s.(workers := s.workers[i := AtTop], ended := s.ended + multiset{s.workers[i].task})
  {}

  lemma WorkerFromTop(s: State, i: nat)
    requires i < |s.workers| && s.workers[i].AtTop? && s.sh.running
    ensures
      var s' := Step(Step(s, WorkerTest(i)), WorkerLock(i));
      if s.sh.tasks == [] then s' == s.(workers := s.workers[i := Waiting])
      else s' == s.(workers := s.workers[i := Holding(s.sh.tasks[0])], taken := s.taken + [s.sh.tasks[0]],
                    sh := s.sh.(tasks := s.sh.tasks[1..]))
  {
    var s1 := Step(s, WorkerTest(i));
    assert s1 == s.(workers := s.workers[i := Entering]);
    WorkerLocks(s1, i);
    assert s1.workers[i := Waiting] == s.workers[i := Waiting];
    if s.sh.tasks != [] {
      assert s1.workers[i := Holding(s.sh.tasks[0])] == s.workers[i := Holding(s.sh.tasks[0])];
    }
  }

  lemma WorkerLocks(s: State, i: nat)
    requires i < |s.workers| && s.workers[i].Entering? && s.sh.running
    ensures
      var s' := Step(s, WorkerLock(i));
      if s.sh.tasks == [] then s' == s.(workers := s.workers[i := Waiting])
      else s' == s.(workers := s.workers[i := Holding(s.sh.tasks[0])], taken := s.taken + [s.sh.tasks[0]],
                    sh := s.sh.(tasks := s.sh.tasks[1..]))
  {
    assert s.taken + [] == s.taken;
  }

  /** `stop` stops the pool, once it has started. */
  lemma StopStops(n: nat, maxQueueSize: nat, es: seq<Event>)
    ensures
      var s := Run(Start(n, maxQueueSize), es);
      Step(s, Stop) == if s.sup.SNotCreated? then s else s.(sh := s.sh.(running := false))
  {}

  lemma StoppedStep(s: State, e: Event)
    requires !s.sh.running
    ensures
      var s' := Step(s, e);
      !s'.sh.running && s'.taken == s.taken && s'.admitted <= s.admitted
  {}

  /** From then on no task is admitted or dequeued any more. */
  lemma {:induction false} StoppedForGood(s: State, es: seq<Event>)
    requires !s.sh.running
    ensures
      var s' := Run(s, es);
      !s'.sh.running && s'.taken == s.taken && s'.admitted <= s.admitted
    decreases |es|
  {
    if es != [] {
      StoppedStep(s, es[0]);
      StoppedForGood(Step(s, es[0]), es[1..]);
    }
  }

  /** Each thread of a stopped pool leaves its loop at its next test, a worker by way of the
      finished ids, and the supervisor without replacing anyone. */
  lemma StoppedThreadsLeave(s: State, i: nat)
    requires !s.sh.running && i < |s.workers|
    ensures s.workers[i].AtTop? ==> Step(s, WorkerTest(i)) == s.(workers := s.workers[i := Exiting])
    ensures s.workers[i].Entering? || s.workers[i].Waiting? ==>
      Step(s, WorkerLock(i)) == s.(workers := s.workers[i := Exiting])
    ensures s.workers[i].Exiting? ==>
      Step(s, ExitGuard(i))
      == s.(workers := s.workers[i := Gone], sh := s.sh.(finishedIds := s.sh.finishedIds + [i]))
    ensures s.sup.STop? ==> Step(s, SupervisorTest) == s.(sup := SExited(None))
    ensures s.sup.SEntering? || s.sup.SWaiting? ==> Step(s, SupervisorLock) == s.(sup := SExited(None))
    ensures s.sup.SJoined? ==> Step(s, SupervisorTest) == s.(sup := SExited(Some(s.sup.id)))
  {
    assert s.taken + [] == s.taken;
  }

  /** A worker at the lock of a running pool gets the oldest accepted task that nobody has
      taken, if there is one. */
  lemma WorkerTakesOldest(n: nat, maxQueueSize: nat, es: seq<Event>, i: nat)
    requires
      var s := Run(Start(n, maxQueueSize), es);
      && i < |s.workers| && (s.workers[i].Entering? || s.workers[i].Waiting?)
      && s.sh.running && |s.taken| < |s.accepted|
    ensures
      var s := Run(Start(n, maxQueueSize), es);
      Step(s, WorkerLock(i)).workers == s.workers[i := Holding(s.accepted[|s.taken|])]
  {
    NobodyHoldsAtStart(n);
    RunKeeps(Start(n, maxQueueSize), es);
    TakesOldest(Run(Start(n, maxQueueSize), es), i);
  }

  lemma TakesOldest(s: State, i: nat)
    requires s.accepted == s.taken + s.sh.tasks && s.sh.tasks != [] && s.sh.running
    requires i < |s.workers| && (s.workers[i].Entering? || s.workers[i].Waiting?)
    ensures Step(s, WorkerLock(i)).workers == s.workers[i := Holding(s.accepted[|s.taken|])]
  {}

  /** A finished slot that the waiting supervisor picks up has a live thread again after the
      supervisor's next four steps, and is no longer vacant. */
  lemma SupervisorRestarts(n: nat, maxQueueSize: nat, es: seq<Event>)
    requires
      var s := Run(Start(n, maxQueueSize), es);
      s.sh.running && s.sup == SWaiting && s.sh.finishedIds != []
    ensures
      var s := Run(Start(n, maxQueueSize), es);
      var id := s.sh.finishedIds[0];
      var s' := Step(Step(Step(Step(s, SupervisorLock), SupervisorJoins), SupervisorTest), SupervisorReplaces);
      && id < n == |s.workers| == |s'.workers|
      && s.workers[id].Gone? && s'.workers == s.workers[id := AtTop]
      && Vacancies(s', id) == 0
  {
    NobodyHoldsAtStart(n);
    RunKeeps(Start(n, maxQueueSize), es);
    var s := Run(Start(n, maxQueueSize), es);
    var id := s.sh.finishedIds[0];
    assert id in multiset(s.sh.finishedIds);
    assert Vacancies(s, id) >= 1;
    Restarts(s, id);
  }

  lemma Restarts(s: State, id: nat)
    requires SlotsInv(s) && s.sh.running && s.sup == SWaiting && s.sh.finishedIds != [] && id == s.sh.finishedIds[0]
    requires id < |s.workers| && s.workers[id].Gone?
    ensures
      var s' := Step(Step(Step(Step(s, SupervisorLock), SupervisorJoins), SupervisorTest), SupervisorReplaces);
      s'.workers == s.workers[id := AtTop] && Vacancies(s', id) == 0
  {
    var s1 := Step(s, SupervisorLock);
    var s2 := Step(s1, SupervisorJoins);
    var s3 := Step(s2, SupervisorTest);
    var s4 := Step(s3, SupervisorReplaces);
    assert s1.sup == SHolds(id) && s2.sup == SJoined(id) && s3.sup == SReplacing(id);
    SupervisorKeepsSlots(s, SupervisorLock);
    SupervisorKeepsSlots(s1, SupervisorJoins);
    SupervisorKeepsSlots(s2, SupervisorTest);
    SupervisorKeepsSlots(s3, SupervisorReplaces);
  }

  /** The pool object. Each method is one critical section of the C++ code. */
  class SupervisedThreadPool {
    var running: bool
    var maxQueueSize: nat
    var tasks: seq<Task>
    var finishedIds: seq<nat>

    function View(): Shared
      reads this
    {
      Shared(running, maxQueueSize, tasks, finishedIds)
    }

    constructor (maxQueueSize: nat)
      ensures View() == Start(0, maxQueueSize).sh.(running := false)
    {
      running, this.maxQueueSize, tasks, finishedIds := false, maxQueueSize, [], [];
    }

    /** A whole call of `submit` without another thread. */
    method Submit(task: Task, empty: bool) returns (ok: bool)
      modifies this`tasks
      ensures ok <==> !empty && running && (maxQueueSize == 0 || |old(tasks)| < maxQueueSize)
      ensures tasks == if ok then old(tasks) + [task] else old(tasks)
    {
      if empty || !running {
        return false;
      }
      ok := LockedSubmit(task);
    }

    method LockedSubmit(task: Task) returns (ok: bool)
      modifies this`tasks
      ensures (View(), ok) == Enqueue(old(View()), task)
    {
      if maxQueueSize > 0 && |tasks| >= maxQueueSize {
        return false;
      }
      tasks := tasks + [task];
      return true;
    }

    method LockedTake() returns (next: Worker)
      modifies this`tasks
      ensures (View(), next) == TakeTask(old(View()))
    {
      if tasks == [] && running {
        return Waiting;
      }
      if !running {
        return Exiting;
      }
      next := Holding(tasks[0]);
      tasks := tasks[1..];
    }

    method LockedPushFinished(workerId: nat)
      modifies this`finishedIds
      ensures View() == PushFinished(old(View()), workerId)
    {
      finishedIds := finishedIds + [workerId];
    }

    method LockedTakeFinished() returns (next: Supervisor)
      modifies this`finishedIds
      ensures (View(), next) == TakeFinished(old(View()))
    {
      if finishedIds == [] && running {
        return SWaiting;
      }
      if !running {
        return SExited(None);
      }
      next := SHolds(finishedIds[0]);
      finishedIds := finishedIds[1..];
    }
  }
}

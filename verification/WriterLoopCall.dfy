/** `runOnWriterLoopSync`: a worker thread runs a callback on the writer's IO loop and waits.

    The callback captures the worker's stack by reference, so it must never run once the
    worker has stopped waiting. A run interleaves the two threads; what either does while it
    holds the mutex is one step. A wake-up may be a timeout, a notification or spurious, at any
    time and any number of times. The callback does not throw.
  */
module WriterLoopCall {

  /** The members of `SyncWriterCall` that the mutex protects; `fn` says whether the stored
      callback is non-empty. */
  datatype Shared = Shared(fn: bool, started: bool, done: bool)

  datatype Caller =
    | Entering
    | Waiting
    | Returned(result: bool)

  datatype Loop =
    | NoEvent
    | Pending
    | Taken(localFn: bool)
    | InCallback
    | AfterCallback
    | Finished

  /** `begun` and `ended` count the starts and the ends of the callback. */
  datatype State = State(shared: Shared, caller: Caller, loop: Loop, begun: nat, ended: nat)

  datatype Event =
    | CallerEnters
    | CallerWakes(timeout: bool)
    | LoopTakes
    | LoopCalls
    | CallbackReturns
    | LoopFinishes

  /** What the worker finds before it may wait: no loop to post to, its own loop, or another
      thread's loop, on which the post succeeds or fails. */
  datatype Target = NoLoop | OwnLoop | OtherLoop(posted: bool)

  function Start(hasFn: bool, target: Target): State {
    var sh := Shared(hasFn, false, false);
    match target
    case NoLoop => State(sh, Returned(false), NoEvent, 0, 0)
    case OwnLoop => State(sh, Returned(true), NoEvent, Runs(hasFn), Runs(hasFn))
    case OtherLoop(false) => State(sh, Returned(false), NoEvent, 0, 0)
    case OtherLoop(true) => State(sh, Entering, Pending, 0, 0)
  }

  function Runs(hasFn: bool): nat { if hasFn then 1 else 0 }

  /** The top of the waiting loop: return if done, wait otherwise. */
  function CheckDone(sh: Shared): Caller {
    if sh.done then Returned(true) else Waiting
  }

  function TakeRun(sh: Shared): Shared { sh.(started := true) }

  function FinishRun(sh: Shared): Shared { sh.(fn := false, done := true) }

  /** Waking up with the mutex held. */
  function Wake(sh: Shared, timeout: bool): (Shared, Caller) {
    if timeout && !sh.started then (FinishRun(sh), Returned(false)) else (sh, CheckDone(sh))
  }

  function Step(s: State, e: Event): State {
    match (e, s.caller, s.loop)
    case (CallerEnters, Entering, _) => s.(caller := CheckDone(s.shared))
    case (CallerWakes(timeout), Waiting, _) =>
      var (sh, c) := Wake(s.shared, timeout);
      s.(shared := sh, caller := c)
    case (LoopTakes, _, Pending) => s.(shared := TakeRun(s.shared), loop := Taken(s.shared.fn))
    case (LoopCalls, _, Taken(localFn)) =>
      if localFn then s.(loop := InCallback, begun := s.begun + 1) else s.(loop := AfterCallback)
    case (CallbackReturns, _, InCallback) => s.(loop := AfterCallback, ended := s.ended + 1)
    case (LoopFinishes, _, AfterCallback) => s.(shared := FinishRun(s.shared), loop := Finished)
    case _ => s
  }

  function Run(s: State, es: seq<Event>): State
    decreases |es|
  {
    if es == [] then s else Run(Step(s, es[0]), es[1..])
  }

  lemma {:induction false} RunConcat(s: State, es: seq<Event>, es': seq<Event>)
    ensures Run(s, es + es') == Run(Run(s, es), es')
    decreases |es|
  {
    if es == [] {
      assert es + es' == es';
    } else {
      assert (es + es')[1..] == es[1..] + es';
      RunConcat(Step(s, es[0]), es[1..], es');
    }
  }

  ghost predicate Inv(hasFn: bool, s: State) {
    var runs := Runs(hasFn);
    && (s.caller == Returned(false) ==>
          && s.begun == s.ended == 0
          && s.loop != InCallback
          && s.loop != Taken(true)
          && (s.loop == Pending ==> !s.shared.fn))
    && (s.caller == Returned(true) ==>
          && s.begun == s.ended == runs
          && (s.loop == Finished || s.loop == NoEvent))
    && (!s.caller.Returned? ==>
          && s.loop != NoEvent
          && (s.loop == Pending ==> s.shared.fn == hasFn && s.begun == s.ended == 0)
          && (s.loop.Taken? ==> s.loop.localFn == hasFn && s.begun == s.ended == 0)
          && (s.loop == InCallback ==> hasFn && s.begun == 1 && s.ended == 0)
          && (s.loop == AfterCallback || s.loop == Finished ==> s.begun == s.ended == runs)
          && (s.shared.started <==> s.loop != Pending)
          && (s.shared.done <==> s.loop == Finished))
  }

  lemma StepKeeps(hasFn: bool, s: State, e: Event)
    requires Inv(hasFn, s)
    ensures Inv(hasFn, Step(s, e))
    ensures s.caller.Returned? ==> Step(s, e).caller == s.caller
  {}

  lemma {:induction false} RunKeeps(hasFn: bool, s: State, es: seq<Event>)
    requires Inv(hasFn, s)
    ensures Inv(hasFn, Run(s, es))
    ensures s.caller.Returned? ==> Run(s, es).caller == s.caller
    decreases |es|
  {
    if es != [] {
      StepKeeps(hasFn, s, es[0]);
      RunKeeps(hasFn, Step(s, es[0]), es[1..]);
    }
  }

  /** Returning true means that the callback ran to completion exactly once, and returning
      false that it never starts: both at the return and at every later point of every run.
      Whatever the result, the callback is not running once the worker has returned. */
  lemma ReturnValueTellsTheTruth(hasFn: bool, target: Target, before: seq<Event>, after: seq<Event>)
    ensures
      var s := Run(Start(hasFn, target), before);
      var s' := Run(Start(hasFn, target), before + after);
      s.caller.Returned? ==>
        && s'.caller == s.caller
        && s.loop != InCallback && s'.loop != InCallback
        && s.begun == s.ended == s'.begun == s'.ended == (if s.caller.result then Runs(hasFn) else 0)
  {
    var s := Run(Start(hasFn, target), before);
    RunConcat(Start(hasFn, target), before, after);
    RunKeeps(hasFn, Start(hasFn, target), before);
    RunKeeps(hasFn, s, after);
  }

  /** What a call comes to when there is nothing to wait for: without a loop, or if the post fails,
      it returns false and the callback never runs; on the loop's own thread it returns true
      and the callback has run. */
  lemma AnswersAtOnce(hasFn: bool, target: Target, es: seq<Event>)
    ensures
      var s := Run(Start(hasFn, target), es);
      && (target == NoLoop || target == OtherLoop(false) ==> s.caller == Returned(false) && s.begun == s.ended == 0)
      && (target == OwnLoop ==> s.caller == Returned(true) && s.begun == s.ended == if hasFn then 1 else 0)
      && (target == OtherLoop(true) && es == [] ==> !s.caller.Returned? && s.loop == Pending && s.begun == 0)
  {
    RunKeeps(hasFn, Start(hasFn, target), es);
  }

  lemma RunFour(s: State, a: Event, b: Event, c: Event, d: Event)
    ensures Run(s, [a, b, c, d]) == Step(Step(Step(Step(s, a), b), c), d)
  {
    RunTwo(s, a, b);
    RunTwo(Step(Step(s, a), b), c, d);
    RunConcat(s, [a, b], [c, d]);
    assert [a, b, c, d] == [a, b] + [c, d];
  }

  lemma RunTwo(s: State, a: Event, b: Event)
    ensures Run(s, [a, b]) == Step(Step(s, a), b)
  {
    assert [a, b][1..] == [b] && [b][1..] == [];
    assert Run(Step(s, a), [b]) == Step(Step(s, a), b);
  }

  /** A loop that has time for the posted event carries it out, whatever it has done of it so far:
      it runs the callback unless the worker has given up, and then a worker that has not
      given up returns true at its next step. */
  lemma LoopCarriesOut(hasFn: bool, es: seq<Event>, timeout: bool)
    ensures
      var s := Run(Start(hasFn, OtherLoop(true)), es);
      var s' := Run(s, [LoopTakes, LoopCalls, CallbackReturns, LoopFinishes]);
      && s'.loop == Finished && s'.caller == s.caller
      && s'.begun == s'.ended == (if s.caller == Returned(false) then 0 else Runs(hasFn))
      && (s.caller == Entering ==> Step(s', CallerEnters).caller == Returned(true))
      && (s.caller == Waiting ==> Step(s', CallerWakes(timeout)).caller == Returned(true))
  {
    RunKeeps(hasFn, Start(hasFn, OtherLoop(true)), es);
    var s := Run(Start(hasFn, OtherLoop(true)), es);
    StaysPosted(Start(hasFn, OtherLoop(true)), es);
    RunFour(s, LoopTakes, LoopCalls, CallbackReturns, LoopFinishes);
    RunKeeps(hasFn, s, [LoopTakes, LoopCalls, CallbackReturns, LoopFinishes]);
  }

  lemma {:induction false} StaysPosted(s: State, es: seq<Event>)
    requires s.loop != NoEvent
    ensures Run(s, es).loop != NoEvent
    decreases |es|
  {
    if es != [] { StaysPosted(Step(s, es[0]), es[1..]); }
  }

  /** A wake-up makes the worker give up exactly when it is a timeout and the loop has not
      started; it returns true exactly when the loop has finished. */
  lemma WakeDecides(hasFn: bool, target: Target, es: seq<Event>, timeout: bool)
    requires Run(Start(hasFn, target), es).caller == Waiting
    ensures
      var s := Run(Start(hasFn, target), es);
      var c := Step(s, CallerWakes(timeout)).caller;
      && (c == Returned(false) <==> timeout && s.loop == Pending)
      && (c == Returned(true) <==> s.loop == Finished)
  {
    RunKeeps(hasFn, Start(hasFn, target), es);
  }

  /** The object both threads share. Each method is one critical section. */
  class SyncWriterCall {
    var fn: bool
    var started: bool
    var done: bool

    function View(): Shared
      reads this
    {
      Shared(fn, started, done)
    }

    constructor (callback: bool)
      ensures View() == Start(callback, OtherLoop(true)).shared
    {
      fn, started, done := callback, false, false;
    }

    /** The loop marks the call as started and copies the callback. */
    method BeginRun() returns (localFn: bool)
      modifies this
      ensures View() == TakeRun(old(View())) && localFn == old(fn)
    {
      started := true;
      localFn := fn;
    }

    /** The loop drops the callback and reports completion. */
    method EndRun()
      modifies this
      ensures View() == FinishRun(old(View()))
    {
      fn := false;
      done := true;
    }

    /** The worker's waiting loop, from one wake-up to the next wait or to the return. */
    method Woken(timeout: bool) returns (next: Caller)
      modifies this
      ensures (View(), next) == Wake(old(View()), timeout)
    {
      if timeout {
        if !started {
          fn := false;
          done := true;
          return Returned(false);
        }
      }
      if done { return Returned(true); }
      return Waiting;
    }
  }
}

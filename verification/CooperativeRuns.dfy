/** Runs of the event-driven transfer with a cooperative writer: they end, and only in success.

    The peer stays connected and drained whenever the pump looks, no call is refused, posts
    succeed, the writer keeps its callbacks, and reads are full. Everything else is open: the
    order of the events, and when and how often `onwrite` fires, nested or not.
  */
module CooperativeRuns {
  import opened StreamTransfer
  import opened StreamRuns

  /** A stream that has fallen short reads nothing more, so turns that all read something are
      turns that read all they ask for. */
  predicate Cooperates(s: State, e: Event) {
    match e
    case RunStart(connected) => connected
    case PumpTurn(connected, drained, available) =>
      connected && drained && 0 < Got(s.bytes, s.req.file, available) == ToRead(s.bytes)
    case CallReturns(code, posted) => code >= 0 && posted
    case OnClose => false
    case Forget(_, _) => false
    case _ => true
  }

  predicate CooperativeRun(s: State, es: seq<Event>)
    decreases |es|
  {
    es == [] || (Cooperates(s, es[0]) && CooperativeRun(Step(s, es[0]), es[1..]))
  }

  /** The part of the stack below the pump: `onwrite` may fire inside `EndHeaders`. */
  predicate IsBase(k: Stack) {
    k == Empty || k == On(Starting, Empty)
  }

  predicate IsShape(k: Stack) {
    match k
    case Empty => true
    case On(Starting, below) => below == Empty
    case On(ZeroHeaders, below) => below == Empty
    case On(ZeroEnding, below) => below == Empty
    case On(Completing, On(PumpLeaving, below)) => IsBase(below)
    case On(Completing, below) => below == Empty
    case On(_, below) => IsBase(below)
  }

  predicate InZero(k: Stack) {
    k.On? && (k.top.ZeroHeaders? || k.top.ZeroEnding?)
  }

  /** What holds throughout a cooperative run. */
  ghost predicate GoesWell(s: State) {
    && Inv(s) && IsShape(s.stack)
    && 0 <= s.bytes.remaining && s.req.start + s.req.length <= |s.req.file|
    && (s.bytes.remaining > 0 ==> s.bytes.readGood)
    && s.report.ends == (if s.report.finished then [true] else [])
    && (!s.report.finished ==> s.refs.owned && (s.refs.startPosted || s.refs.onwrite || InZero(s.stack)))
    && (s.stack.On? && s.stack.top.PumpLeaving? ==> s.report.finished)
    && (s.stack.On? && (s.stack.top.PumpTop? || s.stack.top.PumpWriting? || s.stack.top.PumpEnding?) ==>
          !s.report.finished)
    && (s.report.finished && s.report.cleanupScheduled && !s.refs.cleanupPosted ==>
          s.stack.Empty? && !s.refs.onwrite && !s.refs.onclose && !s.refs.owned)
  }

  lemma StartGoesWell(req: Request)
    requires 0 <= req.length && req.start + req.length <= |req.file|
    ensures GoesWell(Send(req, Opened(true)))
  {
    SendStarts(req, Opened(true));
  }

  lemma ReturnGoesWell(s: State, code: int)
    requires GoesWell(s) && s.stack.On? && code >= 0
    ensures GoesWell(Step(s, CallReturns(code, true)))
  {
    StepKeepsInv(s, CallReturns(code, true));
  }

  lemma TurnGoesWell(s: State, available: nat)
    requires GoesWell(s) && s.stack.On? && s.stack.top.PumpTop?
    requires 0 < Got(s.bytes, s.req.file, available) == ToRead(s.bytes)
    ensures GoesWell(Step(s, PumpTurn(true, true, available)))
  {
    StepKeepsInv(s, PumpTurn(true, true, available));
  }

  lemma StepGoesWell(s: State, e: Event)
    requires GoesWell(s) && Cooperates(s, e)
    ensures GoesWell(Step(s, e))
  {
    StepKeepsInv(s, e);
    match e
    case PumpTurn(_, _, available) =>
      if s.stack.On? && s.stack.top.PumpTop? { TurnGoesWell(s, available); }
    case CallReturns(code, _) => if s.stack.On? { ReturnGoesWell(s, code); }
    case _ =>
  }

  lemma {:induction false} RunGoesWell(s: State, es: seq<Event>)
    requires GoesWell(s) && CooperativeRun(s, es)
    ensures GoesWell(Run(s, es))
    decreases |es|
  {
    if es != [] {
      StepGoesWell(s, es[0]);
      RunGoesWell(Step(s, es[0]), es[1..]);
    }
  }

  /** An upper bound on the steps still to come. */
  function Work(s: State): nat {
    Response(s) + Weight(s.refs.sending) + 2 * Weight(s.refs.startPosted) + Weight(!s.destroyed)
    + Weight(HasBase(s.stack))
  }

  function Weight(b: bool): nat { if b then 1 else 0 }

  predicate HasBase(k: Stack) {
    match k
    case Empty => false
    case On(Starting, _) => true
    case On(_, below) => HasBase(below)
  }

  function Response(s: State): nat {
    var bytes := if s.bytes.remaining > 0 then 2 * s.bytes.remaining else 0;
    if s.report.finished then
      (if s.report.cleanupScheduled then 0 else 2) + Weight(s.pumping) + Weight(s.refs.cleanupPosted)
    else
      match PhaseOf(s.stack)
      case Quiet => bytes + if s.pumping then 8 else 10
      case Writing => bytes + 9
      case Ending => 6
      case ZeroStart => 6
      case ZeroEnd => 5
  }

  lemma ReturnWorks(s: State, code: int)
    requires GoesWell(s) && s.stack.On? && code >= 0
    ensures
      var s' := Step(s, CallReturns(code, true));
      s' == s || Work(s') < Work(s)
  {}

  /** Each step of a cooperative run that does anything brings the end nearer. */
  lemma StepWorks(s: State, e: Event)
    requires GoesWell(s) && Cooperates(s, e)
    ensures Step(s, e) == s || Work(Step(s, e)) < Work(s)
  {
    if e.CallReturns? && s.stack.On? { ReturnWorks(s, e.code); }
  }

  /** Success, and nothing left: the state is destroyed and has given up the writer. */
  predicate Complete(s: State) {
    s.report.ends == [true] && s.destroyed && !s.refs.owned
  }

  /** A step that a cooperative writer can make from a state that is not complete. */
  function NextEvent(s: State): Event {
    if s.stack.On? then
      match s.stack.top
      case PumpTop => PumpTurn(true, true, CHUNK_SIZE)
      case PumpLeaving => PumpReturns
      case _ => CallReturns(0, true)
    else if s.refs.sending then SendReturns
    else if s.refs.startPosted then RunStart(true)
    else if !s.report.finished then OnWrite
    else if s.refs.cleanupPosted then RunCleanup
    else Destroy
  }

  lemma NextWorks(s: State)
    requires GoesWell(s) && !Complete(s)
    ensures Cooperates(s, NextEvent(s)) && Step(s, NextEvent(s)) != s
  {}

  function Effective(s: State, es: seq<Event>): nat
    decreases |es|
  {
    if es == [] then 0
    else Weight(Step(s, es[0]) != s) + Effective(Step(s, es[0]), es[1..])
  }

  lemma {:induction false} RunWorks(s: State, es: seq<Event>)
    requires GoesWell(s) && CooperativeRun(s, es)
    ensures Effective(s, es) + Work(Run(s, es)) <= Work(s)
    decreases |es|
  {
    if es != [] {
      StepWorks(s, es[0]);
      StepGoesWell(s, es[0]);
      RunWorks(Step(s, es[0]), es[1..]);
    }
  }

  /** Every run with a cooperative writer, on a file that is long enough, completes as successful:
      it never reports a failure, it has at most 2 * length + 14 steps that do anything, and it
      can stop doing anything only when it is complete. */
  lemma CooperativeWriterCompletes(req: Request, es: seq<Event>)
    requires 0 <= req.length && req.start + req.length <= |req.file|
    requires CooperativeRun(Send(req, Opened(true)), es)
    ensures
      var s := Run(Send(req, Opened(true)), es);
      && (s.report.ends == [] || s.report.ends == [true])
      && Effective(Send(req, Opened(true)), es) <= 2 * req.length + 14
      && ((forall e :: Cooperates(s, e) ==> Step(s, e) == s) ==> Complete(s))
  {
    var s0 := Send(req, Opened(true));
    StartGoesWell(req);
    RunGoesWell(s0, es);
    RunWorks(s0, es);
    var s := Run(s0, es);
    if !Complete(s) { NextWorks(s); }
  }

  /** From every state of such a run, completion can still be reached. */
  lemma {:induction false} CompletionCanBeReached(s: State) returns (es: seq<Event>)
    requires GoesWell(s)
    ensures CooperativeRun(s, es) && Complete(Run(s, es))
    decreases Work(s)
  {
    if Complete(s) {
      es := [];
    } else {
      var e := NextEvent(s);
      NextWorks(s);
      StepWorks(s, e);
      StepGoesWell(s, e);
      var rest := CompletionCanBeReached(Step(s, e));
      es := [e] + rest;
      RunFirst(s, e, rest);
      assert es[1..] == rest;
    }
  }
}

/** The event-driven file transfer, under every behaviour of the writer.

    The writer and the IO loop are nondeterministic. `EndHeaders`, `WriteBody`, `End` and the
    completion callback may call `onwrite` and `onclose` before they return, any number of
    times and to any depth, and return any code. The frames of those calls are a stack; one
    step runs a frame from one outside call to the next, or is an action of the environment.
    The file is a string of bytes and a read may fall short; as with `std::ifstream`, a stream
    that fell short once reads nothing more.
  */
module StreamTransfer {
  import opened TransferParams

  const CHUNK_SIZE := 256 * 1024

  datatype Frame =
    | Starting       // startStreaming, in EndHeaders
    | PumpTop        // pump, at the test of its loop
    | PumpWriting    // pump, in WriteBody
    | PumpEnding     // pump, in End
    | PumpLeaving    // pump, past its loop
    | Completing     // finish, in onComplete
    | ZeroHeaders    // the empty transfer, in EndHeaders
    | ZeroEnding     // the empty transfer, in End

  datatype Stack = Empty | On(top: Frame, below: Stack)

  /** What a transfer is asked for: the bytes of `file` from `start` on, `length` of them. */
  datatype Request = Request(file: string, start: nat, length: int, hasCallback: bool)

  /** The bytes: `remaining` and the stream of `TransferState`, what the writer was given, whether
      it has refused any of it, and how often the response was ended. */
  datatype Bytes = Bytes(
    remaining: int, readPos: nat, readGood: bool, chunks: seq<string>, rejected: bool, endCalls: nat)

  /** The outcome: `finished` and `cleanupScheduled` of `TransferState`, how often a cleanup was
      scheduled, the flags passed to `recordEnd` and those passed to `onComplete`. */
  datatype Report = Report(
    finished: bool, cleanupScheduled: bool, cleanups: nat, ends: seq<bool>, completions: seq<bool>)

  /** Who refers to the state: the frame of `send`, posted events, and the callbacks installed
      in the writer. `owned` is the state's own reference to the writer. */
  datatype Refs = Refs(sending: bool, startPosted: bool, cleanupPosted: bool, onwrite: bool, onclose: bool, owned: bool)

  /** `started` and `handoff`: `recordStart` and `markStreamingHandoff` were called. */
  datatype State = State(
    req: Request, started: bool, handoff: bool, pumping: bool, stack: Stack, destroyed: bool,
    bytes: Bytes, report: Report, refs: Refs)

  datatype Event =
    | SendReturns
    | RunStart(connected: bool)
    | RunCleanup
    | OnWrite
    | OnClose
    | PumpTurn(connected: bool, drained: bool, available: nat)
    | CallReturns(code: int, posted: bool)
    | PumpReturns
    | Forget(write: bool, close: bool)
    | Destroy

  /** How `send` fares: whether the context has a writer, the writer a loop, the file opens,
      the seek succeeds, and the first post succeeds. */
  datatype Setup = NoWriter | NoLoop | CannotOpen | CannotSeek | Opened(posted: bool)

  function RequestOf(file: string, p: Params, hasCallback: bool): Request {
    Request(file, p.Start(), p.Length(), hasCallback)
  }

  function Notify(req: Request, success: bool): seq<bool> {
    if req.hasCallback then [success] else []
  }

  function Send(req: Request, setup: Setup): State {
    var refs := Refs(true, false, false, false, false, true);
    var idle := State(req, true, true, false, Empty, false, Bytes(req.length, req.start, true, [], false, 0),
                      Report(false, false, 0, [], []), refs);
    match setup
    case Opened(true) => idle.(refs := refs.(startPosted := true))
    case Opened(false) => Finish(idle, false)
    case _ =>
      idle.(started := false, handoff := false, refs := refs.(owned := false),
            report := Report(false, false, 0, [], Notify(req, false)))
  }

  /** `finish` up to the completion callback. */
  function Finish(s: State, success: bool): State {
    if s.report.finished then s
    else s.(report := Reported(s.report, s.req, success), stack := On(Completing, s.stack))
  }

  function Reported(r: Report, req: Request, success: bool): Report {
    r.(finished := true, ends := r.ends + [success], completions := r.completions + Notify(req, success))
  }

  function ScheduleCleanup(s: State, posted: bool): State {
    if s.report.cleanupScheduled then s
    else s.(report := s.report.(cleanupScheduled := true, cleanups := s.report.cleanups + 1),
            refs := s.refs.(cleanupPosted := posted, owned := posted && s.refs.owned))
  }

  /** `pump` up to its loop. */
  function EnterPump(s: State): State {
    if s.report.finished || s.pumping then s else s.(pumping := true, stack := On(PumpTop, s.stack))
  }

  function RunPosted(s: State, connected: bool): State {
    var s1 := s.(refs := s.refs.(startPosted := false));
    if s.req.length == 0 then
      if !connected then Finish(s1, false) else s1.(stack := On(ZeroHeaders, s.stack))
    else if s.report.finished then s1
    else if !connected then Finish(s1, false)
    else s1.(refs := s1.refs.(onwrite := true, onclose := true), stack := On(Starting, s.stack))
  }

  function ToRead(b: Bytes): int {
    if b.remaining < CHUNK_SIZE then b.remaining else CHUNK_SIZE
  }

  /** How many bytes `file.read` delivers if the file system has `available` ready. */
  function Got(b: Bytes, file: string, available: nat): nat {
    if !b.readGood || ToRead(b) <= 0 || b.readPos >= |file| then 0
    else
      var limit := if ToRead(b) <= |file| - b.readPos then ToRead(b) else |file| - b.readPos;
      if available < limit then available else limit
  }

  function AfterRead(b: Bytes, file: string, available: nat): Bytes {
    var got := Got(b, file, available);
    var good := b.readGood && got == ToRead(b);
    if got == 0 then b.(readGood := good)
    else b.(remaining := b.remaining - got, readPos := b.readPos + got, readGood := good,
            chunks := b.chunks + [file[b.readPos..b.readPos + got]])
  }

  /** One turn of the loop of `pump`. */
  function TurnPump(s: State, connected: bool, drained: bool, available: nat): State
    requires s.stack.On?
  {
    var leaving := s.(stack := On(PumpLeaving, s.stack.below));
    if s.report.finished then leaving
    else if !connected then Finish(leaving, false)
    else if !drained then leaving
    else
      var b := AfterRead(s.bytes, s.req.file, available);
      if Got(s.bytes, s.req.file, available) == 0 then Finish(leaving.(bytes := b), false)
      else s.(bytes := b, stack := On(PumpWriting, s.stack.below))
  }

  /** `WriteBody` returns to `pump`. */
  function WriteReturns(s: State, code: int): State
    requires s.stack.On?
  {
    var answered := s.(bytes := s.bytes.(rejected := s.bytes.rejected || code < 0));
    if code < 0 then Finish(answered.(stack := On(PumpLeaving, s.stack.below)), false)
    else if s.bytes.remaining <= 0 then CallEnd(answered, PumpEnding)
    else answered.(stack := On(PumpTop, s.stack.below))
  }

  function CallEnd(s: State, next: Frame): State
    requires s.stack.On?
  {
    s.(bytes := s.bytes.(endCalls := s.bytes.endCalls + 1), stack := On(next, s.stack.below))
  }

  /** The outside call of the top frame returns with a code. */
  function Return(s: State, code: int, posted: bool): State
    requires s.stack.On?
  {
    var popped := s.(stack := s.stack.below);
    match s.stack.top
    case Starting => if code < 0 then Finish(popped, false) else popped
    case PumpWriting => WriteReturns(s, code)
    case PumpEnding => Finish(s.(stack := On(PumpLeaving, s.stack.below)), true)
    case Completing => ScheduleCleanup(popped, posted)
    case ZeroHeaders => CallEnd(s, ZeroEnding)
    case ZeroEnding => Finish(popped, true)
    case PumpTop => s
    case PumpLeaving => s
  }

  /** The writer may call back when the loop is idle or the top frame is in an outside call. */
  predicate CanCallBack(s: State) {
    s.stack.Empty? || (!s.stack.top.PumpTop? && !s.stack.top.PumpLeaving?)
  }

  predicate Unreferenced(s: State) {
    var r := s.refs;
    !r.sending && !r.startPosted && !r.cleanupPosted && !r.onwrite && !r.onclose && s.stack.Empty?
  }

  /** The destructor with its safety net, which does not touch `finished`. */
  function Destruct(s: State): State {
    var r := s.report;
    if r.finished || !s.started then s.(destroyed := true)
    else s.(destroyed := true,
            report := r.(ends := r.ends + [false], completions := r.completions + Notify(s.req, false)))
  }

  /** One step; an event that is not possible in a state leaves it as it is. */
  function Step(s: State, e: Event): State {
    match e
    case SendReturns => s.(refs := s.refs.(sending := false))
    case RunStart(connected) => if s.refs.startPosted && s.stack.Empty? then RunPosted(s, connected) else s
    case RunCleanup =>
      if s.refs.cleanupPosted && s.stack.Empty?
      then s.(refs := Refs(s.refs.sending, s.refs.startPosted, false, false, false, false))
      else s
    case OnWrite => if s.refs.onwrite && CanCallBack(s) then EnterPump(s) else s
    case OnClose => if s.refs.onclose && CanCallBack(s) then Finish(s, false) else s
    case PumpTurn(connected, drained, available) =>
      if s.stack.On? && s.stack.top.PumpTop? then TurnPump(s, connected, drained, available) else s
    case CallReturns(code, posted) => if s.stack.On? then Return(s, code, posted) else s
    case PumpReturns =>
      if s.stack.On? && s.stack.top.PumpLeaving? then s.(pumping := false, stack := s.stack.below) else s
    case Forget(write, close) =>
      s.(refs := s.refs.(onwrite := s.refs.onwrite && !write, onclose := s.refs.onclose && !close))
    case Destroy => if !s.destroyed && Unreferenced(s) then Destruct(s) else s
  }

  function Run(s: State, es: seq<Event>): State
    decreases |es|
  {
    if es == [] then s else Run(Step(s, es[0]), es[1..])
  }

  predicate IsPump(f: Frame) {
    f.PumpTop? || f.PumpWriting? || f.PumpEnding? || f.PumpLeaving?
  }

  function Pumps(k: Stack): nat {
    match k
    case Empty => 0
    case On(f, below) => (if IsPump(f) then 1 else 0) + Pumps(below)
  }

  function Finishes(k: Stack): nat {
    match k
    case Empty => 0
    case On(f, below) => (if f.Completing? then 1 else 0) + Finishes(below)
  }

  function Zeros(k: Stack): nat {
    match k
    case Empty => 0
    case On(f, below) => (if f.ZeroHeaders? || f.ZeroEnding? then 1 else 0) + Zeros(below)
  }

  /** Where the response stands: the frame of the stack that is writing or ending it. */
  datatype Phase = Quiet | Writing | Ending | ZeroStart | ZeroEnd

  function PhaseOf(k: Stack): Phase {
    match k
    case Empty => Quiet
    case On(PumpWriting, _) => Writing
    case On(PumpEnding, _) => Ending
    case On(ZeroHeaders, _) => ZeroStart
    case On(ZeroEnding, _) => ZeroEnd
    case On(_, below) => PhaseOf(below)
  }

  function Flat(chunks: seq<string>): string {
    if chunks == [] then [] else Flat(chunks[..|chunks| - 1]) + chunks[|chunks| - 1]
  }

  function Handed(b: Bytes): nat { |Flat(b.chunks)| }

  /** The stack agrees with the flags: at most one pump is past its guard, and a transfer that
      has finished is in its completion callback or has scheduled its cleanup. */
  ghost predicate StackInv(s: State) {
    && Pumps(s.stack) == (if s.pumping then 1 else 0)
    && Finishes(s.stack) + s.report.cleanups == (if s.report.finished then 1 else 0)
    && s.report.cleanups == (if s.report.cleanupScheduled then 1 else 0)
  }

  /** What has been reported, once and to both listeners alike. */
  ghost predicate ReportInv(s: State) {
    && |s.report.ends| == (if s.report.finished || s.destroyed then 1 else 0)
    && (s.destroyed && !s.report.finished ==> s.report.ends == [false])
    && s.report.completions == (if s.req.hasCallback then s.report.ends else [])
  }

  ghost predicate RefsInv(s: State) {
    && (s.refs.cleanupPosted ==> s.report.cleanupScheduled)
    && (s.report.cleanupScheduled && s.refs.owned ==> s.refs.cleanupPosted)
    && (s.destroyed ==> Unreferenced(s))
    && (s.refs.startPosted ==> s.stack.Empty? && !s.report.finished && !s.refs.onwrite && !s.refs.onclose
                               && s.bytes.chunks == [] && s.bytes.endCalls == 0)
  }

  ghost predicate LifeInv(s: State) {
    s.started && StackInv(s) && ReportInv(s) && RefsInv(s)
  }

  /** The bytes handed over are the requested ones, in order, and the rest is what remains. */
  ghost predicate BytesInv(req: Request, b: Bytes) {
    && b.remaining == req.length - Handed(b)
    && b.readPos == req.start + Handed(b)
    && (b.chunks != [] ==> b.readPos <= |req.file| && b.remaining >= 0
                           && Flat(b.chunks) == req.file[req.start..b.readPos])
    && (forall i :: 0 <= i < |b.chunks| ==> 0 < |b.chunks[i]| <= CHUNK_SIZE)
  }

  /** What a completion and a refused write say about the response, in any phase. */
  ghost predicate OutcomeInv(s: State) {
    var b, r, phase := s.bytes, s.report, PhaseOf(s.stack);
    && (if s.req.length == 0 then !s.refs.onwrite && !s.refs.onclose && Pumps(s.stack) == 0 && b.chunks == []
        else Zeros(s.stack) == 0)
    && (phase.ZeroStart? || phase.ZeroEnd? ==> s.stack.On? && s.stack.below.Empty? && !r.finished)
    && (phase.Writing? || phase.Ending? ==> s.req.length > 0 && !b.rejected && (r.finished ==> r.ends == [false]))
    && (phase.Ending? ==> b.remaining <= 0)
    && (phase.Writing? || phase.ZeroStart? ==> b.endCalls == 0)
    && (phase.Ending? || phase.ZeroEnd? ==> b.endCalls == 1)
    && b.endCalls <= 1
    && (r.finished && b.rejected ==> r.ends == [false])
    && (r.ends == [true] ==> b.remaining <= 0 && s.req.length >= 0 && !b.rejected && b.endCalls == 1)
  }

  /** While nothing is in progress, an unfinished transfer has bytes to send and has not ended. */
  ghost predicate EndInv(s: State) {
    && OutcomeInv(s)
    && (PhaseOf(s.stack).Quiet? && !s.report.finished ==> s.bytes.endCalls == 0)
    && (!s.report.finished ==> !s.bytes.rejected)
    && (s.req.length > 0 && s.bytes.remaining <= 0 ==>
          s.report.finished || PhaseOf(s.stack).Writing? || PhaseOf(s.stack).Ending?)
  }

  lemma {:induction false} QuietWithoutFrames(k: Stack)
    requires Pumps(k) == 0 && Zeros(k) == 0
    ensures PhaseOf(k) == Quiet
  {
    if k.On? { QuietWithoutFrames(k.below); }
  }

  lemma FinishKeepsLife(s: State, success: bool)
    requires LifeInv(s) && !s.destroyed && !s.refs.startPosted
    ensures LifeInv(Finish(s, success))
  {}

  lemma TurnKeepsLife(s: State, connected: bool, drained: bool, available: nat)
    requires LifeInv(s) && s.stack.On? && s.stack.top.PumpTop?
    ensures LifeInv(TurnPump(s, connected, drained, available))
  {
    var leaving := s.(stack := On(PumpLeaving, s.stack.below));
    FinishKeepsLife(leaving, false);
    FinishKeepsLife(leaving.(bytes := AfterRead(s.bytes, s.req.file, available)), false);
  }

  lemma WriteKeepsLife(s: State, code: int)
    requires LifeInv(s) && s.stack.On? && s.stack.top.PumpWriting?
    ensures LifeInv(WriteReturns(s, code))
  {
    FinishKeepsLife(s.(bytes := s.bytes.(rejected := true), stack := On(PumpLeaving, s.stack.below)), false);
  }

  lemma ReturnKeepsLife(s: State, code: int, posted: bool)
    requires LifeInv(s) && s.stack.On?
    ensures LifeInv(Return(s, code, posted))
  {
    var popped := s.(stack := s.stack.below);
    var leaving := s.(stack := On(PumpLeaving, s.stack.below));
    match s.stack.top
    case Starting => FinishKeepsLife(popped, false);
    case PumpWriting => WriteKeepsLife(s, code);
    case PumpEnding => FinishKeepsLife(leaving, true);
    case ZeroEnding => FinishKeepsLife(popped, true);
    case _ =>
  }

  lemma StepKeepsLife(s: State, e: Event)
    requires LifeInv(s)
    ensures LifeInv(Step(s, e))
  {
    match e
    case RunStart(connected) => if s.refs.startPosted { StartKeepsLife(s, connected); }
    case OnClose => if s.refs.onclose { FinishKeepsLife(s, false); }
    case PumpTurn(connected, drained, available) =>
      if s.stack.On? && s.stack.top.PumpTop? { TurnKeepsLife(s, connected, drained, available); }
    case CallReturns(code, posted) => if s.stack.On? { ReturnKeepsLife(s, code, posted); }
    case OnWrite => CallbackKeepsLife(s);
    case PumpReturns => CallbackKeepsLife(s);
    case _ => ReferencesKeepLife(s, e);
  }

  lemma StartKeepsLife(s: State, connected: bool)
    requires LifeInv(s) && s.refs.startPosted
    ensures LifeInv(RunPosted(s, connected))
  {
    FinishKeepsLife(s.(refs := s.refs.(startPosted := false)), false);
  }

  lemma CallbackKeepsLife(s: State)
    requires LifeInv(s)
    ensures LifeInv(Step(s, OnWrite)) && LifeInv(Step(s, PumpReturns))
  {}

  lemma ReferencesKeepLife(s: State, e: Event)
    requires LifeInv(s) && (e.SendReturns? || e.RunCleanup? || e.Forget? || e.Destroy?)
    ensures LifeInv(Step(s, e))
  {}

  lemma FlatAppend(chunks: seq<string>, chunk: string)
    ensures Flat(chunks + [chunk]) == Flat(chunks) + chunk
  {
    assert (chunks + [chunk])[..|chunks|] == chunks;
  }

  lemma SliceExtends(file: string, i: nat, j: nat, n: nat)
    requires i <= j && j + n <= |file|
    ensures file[i..j] + file[j..j + n] == file[i..j + n]
  {}

  lemma GotIsBounded(b: Bytes, file: string, available: nat)
    ensures Got(b, file, available) <= CHUNK_SIZE
    ensures Got(b, file, available) > 0 ==>
      b.readPos + Got(b, file, available) <= |file| && Got(b, file, available) <= b.remaining
  {}

  /** A read hands over the next slice of the file. */
  lemma ReadKeepsBytes(req: Request, b: Bytes, available: nat)
    requires BytesInv(req, b)
    ensures BytesInv(req, AfterRead(b, req.file, available))
  {
    GotIsBounded(b, req.file, available);
    var got := Got(b, req.file, available);
    if got > 0 { HandsOver(req, b, AfterRead(b, req.file, available), got); }
  }

  lemma HandsOver(req: Request, b: Bytes, b': Bytes, got: nat)
    requires BytesInv(req, b) && 0 < got <= CHUNK_SIZE && got <= b.remaining && b.readPos + got <= |req.file|
    requires b'.chunks == b.chunks + [req.file[b.readPos..b.readPos + got]]
    requires b'.remaining == b.remaining - got && b'.readPos == b.readPos + got
    ensures BytesInv(req, b')
  {
    FlatAppend(b.chunks, req.file[b.readPos..b.readPos + got]);
    SliceExtends(req.file, req.start, b.readPos, got);
    assert Flat(b.chunks) == req.file[req.start..b.readPos];
  }

  /** The job and the bytes on their way are the same. */
  predicate SameJob(s: State, s': State) {
    s'.req == s.req && s'.started == s.started && s'.handoff == s.handoff && SameBytes(s.bytes, s'.bytes)
  }

  predicate SameBytes(b: Bytes, b': Bytes) {
    b'.chunks == b.chunks && b'.remaining == b.remaining && b'.readPos == b.readPos
  }

  lemma FinishKeepsJob(s: State, success: bool)
    ensures SameJob(s, Finish(s, success))
  {}

  lemma WriteKeepsJob(s: State, code: int)
    requires s.stack.On?
    ensures SameJob(s, WriteReturns(s, code))
  {}

  lemma ReturnKeepsJob(s: State, code: int, posted: bool)
    requires s.stack.On?
    ensures SameJob(s, Return(s, code, posted))
  {
    var popped := s.(stack := s.stack.below);
    var leaving := s.(stack := On(PumpLeaving, s.stack.below));
    match s.stack.top
    case Starting => FinishKeepsJob(popped, false);
    case PumpWriting => WriteKeepsJob(s, code);
    case PumpEnding => FinishKeepsJob(leaving, true);
    case ZeroEnding => FinishKeepsJob(popped, true);
    case _ =>
  }

  lemma TurnMovesBytes(s: State, connected: bool, drained: bool, available: nat)
    requires s.stack.On?
    ensures
      var s' := TurnPump(s, connected, drained, available);
      && s'.req == s.req && s'.started == s.started && s'.handoff == s.handoff
      && (SameBytes(s.bytes, s'.bytes) ||
          (s'.bytes == AfterRead(s.bytes, s.req.file, available) && !s.report.finished))
  {
    var leaving := s.(stack := On(PumpLeaving, s.stack.below));
    FinishKeepsJob(leaving, false);
    FinishKeepsJob(leaving.(bytes := AfterRead(s.bytes, s.req.file, available)), false);
  }

  /** Only a turn of the pump moves bytes. */
  lemma OnlyPumpMovesBytes(s: State, e: Event)
    ensures Step(s, e).req == s.req && Step(s, e).started == s.started && Step(s, e).handoff == s.handoff
    ensures
      || SameBytes(s.bytes, Step(s, e).bytes)
      || (e.PumpTurn? && Step(s, e).bytes == AfterRead(s.bytes, s.req.file, e.available) && !s.report.finished)
  {
    match e
    case PumpTurn(connected, drained, available) =>
      if s.stack.On? { TurnMovesBytes(s, connected, drained, available); }
    case CallReturns(code, posted) => if s.stack.On? { ReturnKeepsJob(s, code, posted); }
    case RunStart(_) => FinishKeepsJob(s.(refs := s.refs.(startPosted := false)), false);
    case OnClose => FinishKeepsJob(s, false);
    case _ =>
  }

  lemma StepKeepsBytes(s: State, e: Event)
    requires BytesInv(s.req, s.bytes)
    ensures BytesInv(s.req, Step(s, e).bytes)
  {
    OnlyPumpMovesBytes(s, e);
    if e.PumpTurn? { ReadKeepsBytes(s.req, s.bytes, e.available); }
  }

  /** Finishing from a state between two outside calls. */
  lemma FinishMakesEnd(s: State, success: bool)
    requires ReportInv(s) && !s.destroyed && OutcomeInv(s)
    requires !s.report.finished ==>
      && !PhaseOf(s.stack).ZeroStart? && !PhaseOf(s.stack).ZeroEnd?
      && (success ==> s.bytes.remaining <= 0 && s.req.length >= 0 && !s.bytes.rejected && s.bytes.endCalls == 1
                      && PhaseOf(s.stack).Quiet?)
    requires s.report.finished ==> EndInv(s)
    ensures EndInv(Finish(s, success))
  {
    if !s.report.finished {
      assert s.report.ends == [];
      assert s.report.ends + [success] == [success];
    }
  }

  lemma TurnKeepsEnd(s: State, connected: bool, drained: bool, available: nat)
    requires LifeInv(s) && BytesInv(s.req, s.bytes) && EndInv(s)
    requires s.stack.On? && s.stack.top.PumpTop?
    ensures EndInv(TurnPump(s, connected, drained, available))
  {
    assert s.req.length != 0;
    QuietWithoutFrames(s.stack.below);
    var leaving := s.(stack := On(PumpLeaving, s.stack.below));
    var b := AfterRead(s.bytes, s.req.file, available);
    if !connected {
      FinishMakesEnd(leaving, false);
    } else if Got(s.bytes, s.req.file, available) == 0 {
      FinishMakesEnd(leaving.(bytes := b), false);
    }
  }

  lemma WriteKeepsEnd(s: State, code: int)
    requires LifeInv(s) && EndInv(s)
    requires s.stack.On? && s.stack.top.PumpWriting?
    ensures EndInv(WriteReturns(s, code))
  {
    QuietWithoutFrames(s.stack.below);
    if code < 0 {
      FinishMakesEnd(s.(bytes := s.bytes.(rejected := true), stack := On(PumpLeaving, s.stack.below)), false);
    }
  }

  lemma EndingsKeepEnd(s: State)
    requires LifeInv(s) && BytesInv(s.req, s.bytes) && EndInv(s) && s.stack.On?
    ensures s.stack.top.PumpEnding? ==> EndInv(Finish(s.(stack := On(PumpLeaving, s.stack.below)), true))
    ensures s.stack.top.ZeroEnding? ==> EndInv(Finish(s.(stack := s.stack.below), true))
  {
    if s.stack.top.PumpEnding? {
      QuietWithoutFrames(s.stack.below);
      FinishMakesEnd(s.(stack := On(PumpLeaving, s.stack.below)), true);
    } else if s.stack.top.ZeroEnding? {
      FinishMakesEnd(s.(stack := s.stack.below), true);
    }
  }

  lemma ReturnKeepsEnd(s: State, code: int, posted: bool)
    requires LifeInv(s) && BytesInv(s.req, s.bytes) && EndInv(s)
    requires s.stack.On?
    ensures EndInv(Return(s, code, posted))
  {
    var popped := s.(stack := s.stack.below);
    match s.stack.top
    case Starting => if code < 0 { FinishMakesEnd(popped, false); }
    case PumpWriting => WriteKeepsEnd(s, code);
    case PumpEnding => EndingsKeepEnd(s);
    case ZeroEnding => EndingsKeepEnd(s);
    case _ =>
  }

  lemma StartKeepsEnd(s: State, connected: bool)
    requires LifeInv(s) && EndInv(s) && s.refs.startPosted
    ensures EndInv(RunPosted(s, connected))
  {
    FinishMakesEnd(s.(refs := s.refs.(startPosted := false)), false);
  }

  lemma StepKeepsEnd(s: State, e: Event)
    requires LifeInv(s) && BytesInv(s.req, s.bytes) && EndInv(s)
    ensures EndInv(Step(s, e))
  {
    match e
    case RunStart(connected) => if s.refs.startPosted { StartKeepsEnd(s, connected); }
    case OnClose => if s.refs.onclose { FinishMakesEnd(s, false); }
    case OnWrite =>
    case PumpTurn(connected, drained, available) =>
      if s.stack.On? && s.stack.top.PumpTop? { TurnKeepsEnd(s, connected, drained, available); }
    case CallReturns(code, posted) => if s.stack.On? { ReturnKeepsEnd(s, code, posted); }
    case PumpReturns =>
    case Destroy => assert !s.report.finished && !s.destroyed ==> s.report.ends + [false] == [false];
    case _ =>
  }

  ghost predicate Inv(s: State) {
    LifeInv(s) && BytesInv(s.req, s.bytes) && EndInv(s)
  }

  /** A `send` that fails before it creates a transfer: one failed completion, nothing else. */
  ghost predicate Refused(s: State) {
    && !s.started && !s.handoff && s.stack.Empty? && !s.pumping
    && !s.refs.startPosted && !s.refs.cleanupPosted && !s.refs.onwrite && !s.refs.onclose
    && s.bytes.endCalls == 0 && s.bytes.chunks == []
    && s.report == Report(false, false, 0, [], Notify(s.req, false))
  }

  lemma SendStarts(req: Request, setup: Setup)
    ensures var s := Send(req, setup); if setup.Opened? then Inv(s) && s.handoff else Refused(s)
    ensures Send(req, setup).req == req
    ensures setup == Opened(false) ==>
      Send(req, setup).report.ends == [false] && Send(req, setup).stack == On(Completing, Empty)
    ensures setup == Opened(true) ==> Send(req, setup).report.ends == [] && Send(req, setup).refs.startPosted
  {
    if setup.Opened? {
      var idle := Send(req, Opened(true)).(refs := Refs(true, false, false, false, false, true));
      assert LifeInv(idle);
      FinishKeepsLife(idle, false);
      FinishMakesEnd(idle, false);
    }
  }

  lemma RefusedStays(s: State, e: Event)
    requires Refused(s)
    ensures Refused(Step(s, e)) && Step(s, e).req == s.req
  {}

  lemma {:induction false} RunKeeps(s: State, es: seq<Event>)
    requires Inv(s) || Refused(s)
    ensures Inv(s) ==> Inv(Run(s, es))
    ensures Refused(s) ==> Refused(Run(s, es))
    ensures Run(s, es).req == s.req && (Run(s, es).handoff <==> s.handoff)
    decreases |es|
  {
    if es != [] {
      OnlyPumpMovesBytes(s, es[0]);
      if Inv(s) {
        StepKeepsLife(s, es[0]);
        StepKeepsBytes(s, es[0]);
        StepKeepsEnd(s, es[0]);
      } else {
        RefusedStays(s, es[0]);
      }
      RunKeeps(Step(s, es[0]), es[1..]);
    }
  }

  /** Whatever the writer does, a transfer ends at most once and exactly once by the time its
      state is destroyed: `recordEnd` if it was started, and `onComplete`, with the same flag.
      A transfer that never started completes once, as failed, before `send` returns. Cleanup is
      scheduled at most once, at most one pump is past its guard, and the reference to the
      writer outlives the scheduling of the cleanup only until the posted event has run. */
  lemma CompletesExactlyOnce(req: Request, setup: Setup, es: seq<Event>)
    ensures
      var s := Run(Send(req, setup), es);
      && (s.started <==> setup.Opened?)
      && |s.report.ends| <= (if s.started then 1 else 0)
      && s.report.completions == (if !req.hasCallback then [] else if s.started then s.report.ends else [false])
      && (s.started && (s.report.finished || s.destroyed) ==> |s.report.ends| == 1)
      && s.report.cleanups <= 1
      && Pumps(s.stack) <= 1
      && (s.report.cleanupScheduled && s.refs.owned ==> s.refs.cleanupPosted)
  {
    SendStarts(req, setup);
    RunKeeps(Send(req, setup), es);
  }

  /** The chunks given to `WriteBody` are consecutive non-empty slices of the requested range,
      none larger than the chunk size, and what remains is what has not been handed over. */
  lemma BytesAreConserved(req: Request, setup: Setup, es: seq<Event>)
    ensures
      var b := Run(Send(req, setup), es).bytes;
      && (setup.Opened? ==> b.remaining + Handed(b) == req.length)
      && (b.chunks != [] ==>
            && req.start + Handed(b) <= |req.file|
            && Handed(b) <= req.length
            && Flat(b.chunks) == req.file[req.start..req.start + Handed(b)])
      && (forall i :: 0 <= i < |b.chunks| ==> 0 < |b.chunks[i]| <= 262144)
  {
    SendStarts(req, setup);
    RunKeeps(Send(req, setup), es);
  }

  /** No `WriteBody` follows the end of the transfer, and each one hands over the next slice. */
  lemma NoWriteAfterEnd(req: Request, setup: Setup, es: seq<Event>, e: Event)
    ensures
      var s := Run(Send(req, setup), es);
      var s' := Step(s, e);
      s'.bytes.chunks != s.bytes.chunks ==>
        && s.report.ends == [] && !s.destroyed
        && |s'.bytes.chunks| == |s.bytes.chunks| + 1 && s'.bytes.chunks[..|s.bytes.chunks|] == s.bytes.chunks
  {
    SendStarts(req, setup);
    RunKeeps(Send(req, setup), es);
    OnlyPumpMovesBytes(Run(Send(req, setup), es), e);
  }

  /** A transfer that completes as successful has handed over the whole range, every write was
      accepted, and the response was ended once; no transfer ends the response twice. */
  lemma TrueCompletionDelivers(req: Request, setup: Setup, es: seq<Event>)
    ensures
      var s := Run(Send(req, setup), es);
      && s.bytes.endCalls <= 1
      && (s.report.ends == [true] ==>
            && Handed(s.bytes) == req.length && !s.bytes.rejected && s.bytes.endCalls == 1
            && (req.length > 0 ==> req.start + req.length <= |req.file|
                                   && Flat(s.bytes.chunks) == req.file[req.start..req.start + req.length]))
  {
    SendStarts(req, setup);
    RunKeeps(Send(req, setup), es);
    var s := Run(Send(req, setup), es);
    if s.report.ends == [true] && s.bytes.chunks == [] {
      assert Handed(s.bytes) == 0;
    }
  }

  /** In terms of the parameters: a true completion has handed over the bytes of the range, or
      those of the whole size if no range is given. A range that ends before it starts never
      completes as successful. */
  lemma TrueCompletionDeliversRange(file: string, p: Params, hasCallback: bool, setup: Setup, es: seq<Event>)
    ensures
      var s := Run(Send(RequestOf(file, p, hasCallback), setup), es);
      s.report.ends == [true] ==>
        && p.Length() >= 0
        && (if p.rangeStart >= 0 && p.rangeEnd >= 0 then
              p.rangeStart <= p.rangeEnd + 1 &&
              (p.rangeStart <= p.rangeEnd ==>
                 p.rangeEnd < |file| && Flat(s.bytes.chunks) == file[p.rangeStart..p.rangeEnd + 1])
            else
              p.fileSize >= 0 &&
              (p.fileSize > 0 ==> p.fileSize <= |file| && Flat(s.bytes.chunks) == file[..p.fileSize]))
  {
    TrueCompletionDelivers(RequestOf(file, p, hasCallback), setup, es);
  }

  /** `TransferState` and the functions that update it, each from one outside call to the next.
      The ghost fields record the frames and the calls made to the outside. */
  class TransferState {
    const req: Request
    var remaining: int
    var readPos: nat
    var readGood: bool
    var finished: bool
    var pumping: bool
    var cleanupScheduled: bool
    var owned: bool
    ghost var stack: Stack
    ghost var sending: bool
    ghost var startPosted: bool
    ghost var cleanupPosted: bool
    ghost var onwrite: bool
    ghost var onclose: bool
    ghost var chunks: seq<string>
    ghost var rejected: bool
    ghost var endCalls: nat
    ghost var cleanups: nat
    ghost var ends: seq<bool>
    ghost var completions: seq<bool>

    ghost function BytesView(): Bytes
      reads this
    {
      Bytes(remaining, readPos, readGood, chunks, rejected, endCalls)
    }

    ghost function View(): State
      reads this
    {
      State(req, true, true, pumping, stack, false,
            BytesView(),
            Report(finished, cleanupScheduled, cleanups, ends, completions),
            Refs(sending, startPosted, cleanupPosted, onwrite, onclose, owned))
    }

    constructor (file: string, p: Params, hasCallback: bool)
      ensures View() == Send(RequestOf(file, p, hasCallback), Opened(true))
    {
      var req := RequestOf(file, p, hasCallback);
      this.req := req;
      remaining, readPos, readGood := req.length, req.start, true;
      finished, pumping, cleanupScheduled, owned := false, false, false, true;
      stack, sending, startPosted, cleanupPosted, onwrite, onclose := Empty, true, true, false, false, false;
      chunks, rejected, endCalls, cleanups, ends, completions := [], false, 0, 0, [], [];
    }

    method FinishTransfer(success: bool)
      modifies this
      ensures View() == Finish(old(View()), success)
    {
      if finished { return; }
      finished := true;
      ends := ends + [success];
      completions := completions + Notify(req, success);
      stack := On(Completing, stack);
    }

    method Schedule(posted: bool)
      modifies this
      ensures View() == ScheduleCleanup(old(View()), posted)
    {
      if cleanupScheduled { return; }
      cleanupScheduled := true;
      cleanups := cleanups + 1;
      cleanupPosted := posted;
      if !posted {
        owned := false;
      }
    }

    method StartPump()
      modifies this
      ensures View() == EnterPump(old(View()))
    {
      if finished { return; }
      if pumping { return; }
      pumping := true;
      stack := On(PumpTop, stack);
    }

    method Turn(connected: bool, drained: bool, available: nat)
      requires stack.On?
      modifies this
      ensures View() == TurnPump(old(View()), connected, drained, available)
    {
      ghost var below := stack.below;
      stack := On(PumpLeaving, below);
      if finished { return; }
      if !connected {
        FinishTransfer(false);
        return;
      }
      if !drained { return; }
      var got := ReadChunk(available);
      if got <= 0 {
        FinishTransfer(false);
        return;
      }
      stack := On(PumpWriting, below);
    }

    /** Reads the next chunk and accounts for it before it is written. */
    method ReadChunk(available: nat) returns (got: nat)
      modifies this`remaining, this`readPos, this`readGood, this`chunks
      ensures got == Got(old(BytesView()), req.file, available)
      ensures BytesView() == AfterRead(old(BytesView()), req.file, available)
    {
      var toRead := if remaining < CHUNK_SIZE then remaining else CHUNK_SIZE;
      got := Got(Bytes(remaining, readPos, readGood, [], false, 0), req.file, available);
      readGood := readGood && got == toRead;
      if got > 0 {
        remaining := remaining - got;
        chunks := chunks + [req.file[readPos..readPos + got]];
        readPos := readPos + got;
      }
    }

    method WriteReturned(code: int)
      requires stack.On?
      modifies this
      ensures View() == WriteReturns(old(View()), code)
    {
      ghost var below := stack.below;
      rejected := rejected || code < 0;
      if code < 0 {
        stack := On(PumpLeaving, below);
        FinishTransfer(false);
        return;
      }
      if remaining <= 0 {
        endCalls := endCalls + 1;
        stack := On(PumpEnding, below);
        return;
      }
      stack := On(PumpTop, below);
    }

    method RunStarted(connected: bool)
      modifies this
      ensures View() == RunPosted(old(View()), connected)
    {
      startPosted := false;
      if req.length == 0 {
        if !connected {
          FinishTransfer(false);
          return;
        }
        stack := On(ZeroHeaders, stack);
        return;
      }
      if finished { return; }
      if !connected {
        FinishTransfer(false);
        return;
      }
      onwrite, onclose := true, true;
      stack := On(Starting, stack);
    }
  }
}

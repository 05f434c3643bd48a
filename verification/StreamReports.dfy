/** When exactly an event-driven transfer reports its end, and what one turn of its pump does.

    `StreamTransfer` shows that a transfer reports at most once; here every report has its cause
    and every cause its report, in the same step, in every state that a run can reach.
  */
module StreamReports {
  import opened StreamTransfer

  /** The read of a turn delivers nothing: the stream has fallen short before, or is asked for
      nothing, or stands at the end of the file, or has nothing ready. */
  predicate NothingToRead(s: State, available: nat) {
    !s.bytes.readGood || s.bytes.remaining <= 0 || s.bytes.readPos >= |s.req.file| || available == 0
  }

  predicate TopIs(s: State, f: Frame) {
    s.stack.On? && s.stack.top == f
  }

  predicate Unheld(r: Refs) {
    !r.sending && !r.startPosted && !r.cleanupPosted && !r.onwrite && !r.onclose
  }

  /** What ends an unfinished transfer in failure: the peer is gone when the transfer starts or
      when the pump looks, the connection closes while the loop is idle or inside a call, a
      drained pump reads nothing, `EndHeaders` or `WriteBody` is refused, or the last reference
      goes. */
  predicate Fails(s: State, e: Event) {
    match e
    case RunStart(connected) => s.refs.startPosted && s.stack.Empty? && !connected
    case OnClose => s.refs.onclose && !TopIs(s, PumpTop) && !TopIs(s, PumpLeaving)
    case PumpTurn(connected, drained, available) =>
      TopIs(s, PumpTop) && (!connected || (drained && NothingToRead(s, available)))
    case CallReturns(code, _) => code < 0 && (TopIs(s, Starting) || TopIs(s, PumpWriting))
    case Destroy => Unheld(s.refs) && s.stack.Empty? && !s.destroyed
    case _ => false
  }

  /** What ends it in success: `End` returns. */
  predicate Succeeds(s: State, e: Event) {
    e.CallReturns? && (TopIs(s, PumpEnding) || TopIs(s, ZeroEnding))
  }

  function Cause(s: State, e: Event): seq<bool> {
    if s.report.ends != [] then [] else if Fails(s, e) then [false] else if Succeeds(s, e) then [true] else []
  }

  lemma TurnReports(s: State, connected: bool, drained: bool, available: nat)
    requires Inv(s)
    ensures
      var e := PumpTurn(connected, drained, available);
      Step(s, e).report.ends == s.report.ends + Cause(s, e)
  {}

  lemma ReturnReports(s: State, code: int, posted: bool)
    requires Inv(s)
    ensures
      var e := CallReturns(code, posted);
      Step(s, e).report.ends == s.report.ends + Cause(s, e)
  {}

  lemma StepReports(s: State, e: Event)
    requires Inv(s)
    ensures Step(s, e).report.ends == s.report.ends + Cause(s, e)
  {
    match e
    case PumpTurn(connected, drained, available) => TurnReports(s, connected, drained, available);
    case CallReturns(code, posted) => ReturnReports(s, code, posted);
    case _ =>
  }

  /** In every state of every run a step reports exactly when it has a cause to, and then what
      the cause demands; a transfer that never started reports nothing to the statistics. */
  lemma ReportsExactlyWhen(req: Request, setup: Setup, es: seq<Event>, e: Event)
    ensures
      var s := Run(Send(req, setup), es);
      Step(s, e).report.ends == s.report.ends + (if setup.Opened? then Cause(s, e) else [])
  {
    SendStarts(req, setup);
    RunKeeps(Send(req, setup), es);
    var s := Run(Send(req, setup), es);
    if setup.Opened? {
      StepReports(s, e);
    } else {
      RefusedStays(s, e);
    }
  }

  /** How many bytes a turn reads, with 256 KiB asked for at most. */
  function ReadLength(s: State, available: nat): int {
    var asked := if s.bytes.remaining < 262144 then s.bytes.remaining else 262144;
    var rest := |s.req.file| - s.bytes.readPos;
    var there := if available < rest then available else rest;
    if there < asked then there else asked
  }

  /** The outcomes of one turn of an unfinished pump: it leaves the loop without a report only for
      a connected peer that has not drained; it leaves with a failure for one that is gone, or
      if nothing is read; and otherwise the next slice of the file goes to `WriteBody`. */
  lemma TurnOutcome(req: Request, setup: Setup, es: seq<Event>, connected: bool, drained: bool, available: nat)
    requires
      var s := Run(Send(req, setup), es);
      TopIs(s, PumpTop) && s.report.ends == []
    ensures
      var s := Run(Send(req, setup), es);
      var s' := Step(s, PumpTurn(connected, drained, available));
      var n := ReadLength(s, available);
      if !connected || (drained && NothingToRead(s, available)) then
        s'.report.ends == [false] && s'.stack == On(Completing, On(PumpLeaving, s.stack.below))
      else if !drained then
        s'.report == s.report && s'.bytes == s.bytes && s'.stack == On(PumpLeaving, s.stack.below)
      else
        && s'.report == s.report && s'.stack == On(PumpWriting, s.stack.below)
        && 0 < n <= s.bytes.remaining && s'.bytes.remaining == s.bytes.remaining - n
        && s.bytes.readPos + n <= |req.file|
        && s'.bytes.chunks == s.bytes.chunks + [req.file[s.bytes.readPos..s.bytes.readPos + n]]
        && (s'.bytes.readGood <==> n == 262144 || n == s.bytes.remaining)
  {
    SendStarts(req, setup);
    RunKeeps(Send(req, setup), es);
  }

  /** `onwrite` starts the pump whenever the loop is idle or inside a call, unless a pump is at
      work already or the transfer has finished. */
  lemma WriteEventPumps(req: Request, setup: Setup, es: seq<Event>)
    ensures
      var s := Run(Send(req, setup), es);
      var s' := Step(s, OnWrite);
      if s.refs.onwrite && Pumps(s.stack) == 0 && !s.report.finished
      then s' == s.(pumping := true, stack := On(PumpTop, s.stack))
      else s' == s
  {
    SendStarts(req, setup);
    RunKeeps(Send(req, setup), es);
  }

  /** A transfer that finds its peer connected installs its callbacks before `EndHeaders`. */
  lemma StartInstalls(req: Request, setup: Setup, es: seq<Event>)
    requires
      var s := Run(Send(req, setup), es);
      s.refs.startPosted && s.stack.Empty? && s.report.ends == []
    ensures
      var s := Run(Send(req, setup), es);
      var s' := Step(s, RunStart(true));
      && s'.report == s.report && s'.bytes == s.bytes && !s'.refs.startPosted
      && (if req.length == 0 then s'.stack == On(ZeroHeaders, Empty) && !s'.refs.onwrite && !s'.refs.onclose
          else s'.stack == On(Starting, Empty) && s'.refs.onwrite && s'.refs.onclose)
  {
    SendStarts(req, setup);
    RunKeeps(Send(req, setup), es);
  }
}

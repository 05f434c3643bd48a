/** The statistics that all transfers of one strategy share, under every interleaving of their
    steps. `recordStart` and `recordEnd` are atomic and the counters are unbounded. */
module TransferStats {
  import opened StreamTransfer

  datatype Counters = Counters(totalCount: int, totalBytes: int, activeCount: int, errorCount: int)

  function RecordStart(c: Counters, bytes: int): Counters {
    c.(totalCount := c.totalCount + 1, totalBytes := c.totalBytes + bytes, activeCount := c.activeCount + 1)
  }

  function RecordEnd(c: Counters, success: bool): Counters {
    c.(activeCount := c.activeCount - 1, errorCount := if success then c.errorCount else c.errorCount + 1)
  }

  function RecordEnds(c: Counters, ends: seq<bool>): Counters
    decreases |ends|
  {
    if ends == [] then c else RecordEnds(RecordEnd(c, ends[0]), ends[1..])
  }

  datatype System = System(transfers: seq<State>, stats: Counters)

  datatype SystemEvent =
    | NewTransfer(req: Request, setup: Setup)
    | TransferStep(i: nat, event: Event)

  /** A new transfer, or a step of one of them; each call of `recordEnd` it makes is counted. */
  function SystemStep(s: System, e: SystemEvent): System {
    match e
    case NewTransfer(req, setup) =>
      var t := Send(req, setup);
      var c := if t.started then RecordStart(s.stats, req.length) else s.stats;
      System(s.transfers + [t], RecordEnds(c, t.report.ends))
    case TransferStep(i, event) =>
      if i >= |s.transfers| then s else Replace(s, i, Step(s.transfers[i], event))
  }

  function Replace(s: System, i: nat, t': State): System
    requires i < |s.transfers|
  {
    var ends, ends' := s.transfers[i].report.ends, t'.report.ends;
    System(s.transfers[i := t'], RecordEnds(s.stats, if |ends| <= |ends'| then ends'[|ends|..] else []))
  }

  function SystemRun(s: System, es: seq<SystemEvent>): System
    decreases |es|
  {
    if es == [] then s else SystemRun(SystemStep(s, es[0]), es[1..])
  }

  function Sum(ts: seq<State>, weight: State -> int): int {
    if ts == [] then 0 else Sum(ts[..|ts| - 1], weight) + weight(ts[|ts| - 1])
  }

  function CountsStarted(t: State): int { if t.started then 1 else 0 }
  function CountsBytes(t: State): int { if t.started then t.req.length else 0 }
  function CountsActive(t: State): int { if t.started && t.report.ends == [] then 1 else 0 }
  function CountsFailed(t: State): int { if t.report.ends == [false] then 1 else 0 }

  function Tally(ts: seq<State>): Counters {
    Counters(Sum(ts, CountsStarted), Sum(ts, CountsBytes), Sum(ts, CountsActive), Sum(ts, CountsFailed))
  }

  lemma SumAppend(ts: seq<State>, t: State, weight: State -> int)
    ensures Sum(ts + [t], weight) == Sum(ts, weight) + weight(t)
  {
    assert (ts + [t])[..|ts|] == ts;
  }

  lemma {:induction false} SumUpdate(ts: seq<State>, i: nat, t: State, weight: State -> int)
    requires i < |ts|
    ensures Sum(ts[i := t], weight) == Sum(ts, weight) - weight(ts[i]) + weight(t)
  {
    var n, us := |ts| - 1, ts[i := t];
    if i == n {
      assert us[..n] == ts[..n];
    } else {
      assert us[..n] == ts[..n][i := t];
      SumUpdate(ts[..n], i, t, weight);
    }
  }

  /** A step either reports nothing, or reports the one end of an unended transfer. */
  lemma StepReportsOnce(t: State, e: Event)
    requires Inv(t) || Refused(t)
    ensures
      var t' := Step(t, e);
      && (Inv(t') || Refused(t'))
      && t'.started == t.started && t'.req == t.req
      && (t'.report.ends == t.report.ends ||
          (t.started && t.report.ends == [] && (t'.report.ends == [true] || t'.report.ends == [false])))
  {
    OnlyPumpMovesBytes(t, e);
    if Inv(t) {
      StepKeepsLife(t, e);
      StepKeepsBytes(t, e);
      StepKeepsEnd(t, e);
      EndsStand(t, e);
    } else {
      RefusedStays(t, e);
    }
  }

  /** What has been reported is not taken back. */
  lemma EndsStand(t: State, e: Event)
    requires Inv(t)
    ensures t.report.ends != [] ==> Step(t, e).report.ends == t.report.ends
  {
    if t.report.ends != [] && e.CallReturns? && t.stack.On? {
      EndsStandOnReturn(t, e.code, e.posted);
    }
  }

  lemma EndsStandOnReturn(t: State, code: int, posted: bool)
    requires Inv(t) && t.report.ends != [] && t.stack.On?
    ensures Return(t, code, posted).report.ends == t.report.ends
  {}

  ghost predicate AllValid(ts: seq<State>) {
    forall i :: 0 <= i < |ts| ==> Inv(ts[i]) || Refused(ts[i])
  }

  lemma TallyAppend(ts: seq<State>, t: State)
    ensures Tally(ts + [t]) == Counters(
      Sum(ts, CountsStarted) + CountsStarted(t), Sum(ts, CountsBytes) + CountsBytes(t),
      Sum(ts, CountsActive) + CountsActive(t), Sum(ts, CountsFailed) + CountsFailed(t))
  {
    SumAppend(ts, t, CountsStarted);
    SumAppend(ts, t, CountsBytes);
    SumAppend(ts, t, CountsActive);
    SumAppend(ts, t, CountsFailed);
  }

  lemma TallyUpdate(ts: seq<State>, i: nat, t: State)
    requires i < |ts|
    requires t.started == ts[i].started && t.req == ts[i].req
    ensures Tally(ts[i := t]) == Tally(ts).(
      activeCount := Sum(ts, CountsActive) - CountsActive(ts[i]) + CountsActive(t),
      errorCount := Sum(ts, CountsFailed) - CountsFailed(ts[i]) + CountsFailed(t))
  {
    SumUpdate(ts, i, t, CountsStarted);
    SumUpdate(ts, i, t, CountsBytes);
    SumUpdate(ts, i, t, CountsActive);
    SumUpdate(ts, i, t, CountsFailed);
  }

  lemma RecordsOneEnd(c: Counters, success: bool)
    ensures RecordEnds(c, [success]) == RecordEnd(c, success)
  {
    assert [success][1..] == [];
  }

  lemma NewTransferCounted(s: System, req: Request, setup: Setup)
    requires AllValid(s.transfers) && s.stats == Tally(s.transfers)
    ensures
      var s' := SystemStep(s, NewTransfer(req, setup));
      AllValid(s'.transfers) && s'.stats == Tally(s'.transfers)
  {
    var t := Send(req, setup);
    SendStarts(req, setup);
    TallyAppend(s.transfers, t);
    NewEnds(s.stats, req, setup);
  }

  lemma NewEnds(c: Counters, req: Request, setup: Setup)
    ensures
      var t := Send(req, setup);
      var c' := if t.started then RecordStart(c, req.length) else c;
      RecordEnds(c', t.report.ends) == Counters(
        c.totalCount + CountsStarted(t), c.totalBytes + CountsBytes(t),
        c.activeCount + CountsActive(t), c.errorCount + CountsFailed(t))
  {
    RecordsOneEnd(RecordStart(c, req.length), false);
    var t := Send(req, setup);
    assert t.report.ends == [] || (t.started && t.report.ends == [false]);
  }

  lemma ReplaceCounted(s: System, i: nat, t': State)
    requires i < |s.transfers| && s.stats == Tally(s.transfers)
    requires
      var t := s.transfers[i];
      && t'.started == t.started && t'.req == t.req
      && (t'.report.ends == t.report.ends ||
          (t.started && t.report.ends == [] && (t'.report.ends == [true] || t'.report.ends == [false])))
    ensures Replace(s, i, t').stats == Tally(Replace(s, i, t').transfers)
  {
    var ends, ends' := s.transfers[i].report.ends, t'.report.ends;
    TallyUpdate(s.transfers, i, t');
    if ends' != ends {
      RecordsOneEnd(s.stats, ends'[0]);
      assert ends'[0..] == [ends'[0]];
    } else {
      assert ends'[|ends|..] == [];
    }
  }

  lemma TransferStepCounted(s: System, i: nat, e: Event)
    requires AllValid(s.transfers) && s.stats == Tally(s.transfers)
    ensures
      var s' := SystemStep(s, TransferStep(i, e));
      AllValid(s'.transfers) && s'.stats == Tally(s'.transfers)
  {
    if i < |s.transfers| {
      StepReportsOnce(s.transfers[i], e);
      ReplaceCounted(s, i, Step(s.transfers[i], e));
    }
  }

  lemma {:induction false} RunCounted(s: System, es: seq<SystemEvent>)
    requires AllValid(s.transfers) && s.stats == Tally(s.transfers)
    ensures var s' := SystemRun(s, es); AllValid(s'.transfers) && s'.stats == Tally(s'.transfers)
    decreases |es|
  {
    if es != [] {
      var s' := SystemStep(s, es[0]);
      if es[0].NewTransfer? {
        NewTransferCounted(s, es[0].req, es[0].setup);
      } else {
        TransferStepCounted(s, es[0].i, es[0].event);
      }
      assert AllValid(s'.transfers) && s'.stats == Tally(s'.transfers);
      RunCounted(s', es[1..]);
    }
  }

  /** However any number of transfers interleave, the active count is the number of transfers
      that have started and not ended, the error count the number that ended as failed, and
      both totals cover exactly the transfers that started. */
  lemma StatsAreConserved(es: seq<SystemEvent>)
    ensures
      var s := SystemRun(System([], Counters(0, 0, 0, 0)), es);
      && s.stats.totalCount == Sum(s.transfers, CountsStarted)
      && s.stats.totalBytes == Sum(s.transfers, CountsBytes)
      && s.stats.activeCount == Sum(s.transfers, CountsActive)
      && s.stats.errorCount == Sum(s.transfers, CountsFailed)
  {
    RunCounted(System([], Counters(0, 0, 0, 0)), es);
  }

  /** The counters themselves. */
  class Stats {
    var totalCount: int
    var totalBytes: int
    var activeCount: int
    var errorCount: int

    function View(): Counters
      reads this
    {
      Counters(totalCount, totalBytes, activeCount, errorCount)
    }

    constructor ()
      ensures View() == Counters(0, 0, 0, 0)
    {
      totalCount, totalBytes, activeCount, errorCount := 0, 0, 0, 0;
    }

    method Start(bytes: int)
      modifies this
      ensures View() == RecordStart(old(View()), bytes)
    {
      totalCount := totalCount + 1;
      totalBytes := totalBytes + bytes;
      activeCount := activeCount + 1;
    }

    method End(success: bool)
      modifies this
      ensures View() == RecordEnd(old(View()), success)
    {
      activeCount := activeCount - 1;
      if !success { errorCount := errorCount + 1; }
    }
  }
}

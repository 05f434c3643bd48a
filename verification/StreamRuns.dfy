/** How long the event-driven transfer holds on to the writer it calls. */
module StreamRuns {
  import opened StreamTransfer

  /** Whoever may still call the writer, or be called by it, finds it owned. */
  predicate Owns(s: State) {
    s.stack.On? || s.refs.onwrite || s.refs.onclose || s.refs.startPosted ==> s.refs.owned
  }

  /** The cleanup that `finish` schedules cannot be posted, and there is a frame below, or a
      callback in the writer: the fallback gives up the writer all the same. */
  predicate GivesUp(s: State, e: Event) {
    && e.CallReturns? && !e.posted
    && s.stack.On? && s.stack.top.Completing? && !s.report.cleanupScheduled
    && (s.stack.below.On? || s.refs.onwrite || s.refs.onclose)
  }

  predicate EverGivesUp(s: State, es: seq<Event>)
    decreases |es|
  {
    es != [] && (GivesUp(s, es[0]) || EverGivesUp(Step(s, es[0]), es[1..]))
  }

  ghost predicate Keeps(s: State) {
    Inv(s) && Owns(s) && (!s.refs.owned ==> s.report.cleanupScheduled)
  }

  lemma StepKeepsInv(s: State, e: Event)
    requires Inv(s)
    ensures Inv(Step(s, e))
  {
    StepKeepsLife(s, e);
    StepKeepsBytes(s, e);
    StepKeepsEnd(s, e);
    OnlyPumpMovesBytes(s, e);
  }

  lemma ReturnKeepsWriter(s: State, code: int, posted: bool)
    requires Keeps(s) && s.stack.On?
    ensures
      var s' := Return(s, code, posted);
      && (Owns(s') <==> !GivesUp(s, CallReturns(code, posted)))
      && (Owns(s') && !s'.refs.owned ==> s'.report.cleanupScheduled)
  {}

  lemma StepKeepsWriter(s: State, e: Event)
    requires Keeps(s)
    ensures Owns(Step(s, e)) <==> !GivesUp(s, e)
    ensures !GivesUp(s, e) ==> Keeps(Step(s, e))
  {
    StepKeepsInv(s, e);
    if e.CallReturns? && s.stack.On? { ReturnKeepsWriter(s, e.code, e.posted); }
  }

  predicate AlwaysOwns(s: State, es: seq<Event>) {
    forall n :: 0 <= n <= |es| ==> Owns(Run(s, es[..n]))
  }

  lemma AlwaysOwnsFromFirst(s: State, es: seq<Event>)
    requires es != []
    ensures AlwaysOwns(s, es) <==> Owns(s) && AlwaysOwns(Step(s, es[0]), es[1..])
  {
    var s' := Step(s, es[0]);
    forall n | 0 <= n < |es| ensures Run(s, es[..n + 1]) == Run(s', es[1..][..n]) {
      assert es[..n + 1][1..] == es[1..][..n];
    }
    assert Run(s, es[..0]) == s;
    if Owns(s) && AlwaysOwns(s', es[1..]) {
      forall n | 0 <= n <= |es| ensures Owns(Run(s, es[..n])) {
        if n > 0 { assert Run(s, es[..(n - 1) + 1]) == Run(s', es[1..][..n - 1]); }
      }
    }
    if AlwaysOwns(s, es) {
      forall n | 0 <= n <= |es[1..]| ensures Owns(Run(s', es[1..][..n])) {
        assert Owns(Run(s, es[..n + 1]));
      }
    }
  }

  lemma {:induction false} RunOwnsIff(s: State, es: seq<Event>)
    requires Keeps(s)
    ensures AlwaysOwns(s, es) <==> !EverGivesUp(s, es)
    decreases |es|
  {
    if es == [] {
      assert forall n :: 0 <= n <= |es| ==> es[..n] == [];
    } else {
      var s' := Step(s, es[0]);
      StepKeepsWriter(s, es[0]);
      AlwaysOwnsFromFirst(s, es);
      if GivesUp(s, es[0]) {
        assert es[1..][..0] == [] && Run(s', es[1..][..0]) == s';
      } else {
        RunOwnsIff(s', es[1..]);
      }
    }
  }

  /** At every point of a run the writer is owned while a frame of the transfer is on the stack or
      the writer can call back, exactly if the run has no step at which the cleanup cannot be
      posted while one of these is left. */
  lemma WriterOutlivesFrames(req: Request, posted: bool, es: seq<Event>)
    ensures AlwaysOwns(Send(req, Opened(posted)), es) <==> !EverGivesUp(Send(req, Opened(posted)), es)
  {
    SendStarts(req, Opened(posted));
    RunOwnsIff(Send(req, Opened(posted)), es);
  }

  lemma {:induction false} PostedRunsKeep(s: State, es: seq<Event>)
    requires forall i :: 0 <= i < |es| ==> es[i].CallReturns? ==> es[i].posted
    ensures !EverGivesUp(s, es)
    decreases |es|
  {
    if es != [] { PostedRunsKeep(Step(s, es[0]), es[1..]); }
  }

  lemma RunFirst(s: State, e: Event, es: seq<Event>)
    ensures Run(s, [e] + es) == Run(Step(s, e), es)
  {
    assert ([e] + es)[1..] == es;
  }

  /** The connection closes inside the last `WriteBody`, and the cleanup cannot be posted. */
  function ClosedInLastWrite(): seq<Event> {
    [RunStart(true)] + ([CallReturns(0, true)] + ([OnWrite] + ([PumpTurn(true, true, CHUNK_SIZE)]
      + ([OnClose] + ([CallReturns(0, false)] + ([CallReturns(0, true)] + []))))))
  }

  /** It does give up the writer early: here the pump calls `End` on it afterwards. */
  lemma FailedPostReleasesEarly(req: Request)
    requires 0 < req.length <= CHUNK_SIZE && req.start + req.length <= |req.file|
    ensures
      var s := Run(Send(req, Opened(true)), ClosedInLastWrite());
      s.stack == On(PumpEnding, Empty) && !s.refs.owned && s.report.ends == [false]
  {
    var s0 := Send(req, Opened(true));
    var s1 := Step(s0, RunStart(true));
    var s2 := Step(s1, CallReturns(0, true));
    var s3 := Step(s2, OnWrite);
    var s4 := Step(s3, PumpTurn(true, true, CHUNK_SIZE));
    assert s4.stack == On(PumpWriting, Empty) && s4.bytes.remaining == 0;
    var s5 := Step(s4, OnClose);
    var s6 := Step(s5, CallReturns(0, false));
    assert s6.stack == On(PumpWriting, Empty) && !s6.refs.owned && s6.report.ends == [false];
    RunsTo(s0, s1, s2, s3, s4, s5, s6);
  }

  lemma RunsTo(s0: State, s1: State, s2: State, s3: State, s4: State, s5: State, s6: State)
    requires s1 == Step(s0, RunStart(true)) && s2 == Step(s1, CallReturns(0, true)) && s3 == Step(s2, OnWrite)
    requires s4 == Step(s3, PumpTurn(true, true, CHUNK_SIZE)) && s5 == Step(s4, OnClose)
    requires s6 == Step(s5, CallReturns(0, false))
    ensures Run(s0, ClosedInLastWrite()) == Step(s6, CallReturns(0, true))
  {
    var e6 := [CallReturns(0, true)] + [];
    var e5 := [CallReturns(0, false)] + e6;
    var e4 := [OnClose] + e5;
    var e3 := [PumpTurn(true, true, CHUNK_SIZE)] + e4;
    var e2 := [OnWrite] + e3;
    var e1 := [CallReturns(0, true)] + e2;
    RunFirst(s0, RunStart(true), e1);
    RunFirst(s1, CallReturns(0, true), e2);
    RunFirst(s2, OnWrite, e3);
    RunFirst(s3, PumpTurn(true, true, CHUNK_SIZE), e4);
    RunFirst(s4, OnClose, e5);
    RunFirst(s5, CallReturns(0, false), e6);
    RunFirst(s6, CallReturns(0, true), []);
  }
}

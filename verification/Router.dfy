/** An asynchronous route whose handler answers through `StreamTransfer`: who ends the response
    and how the task tracker balances.

    The task runs on a worker thread while the transfer it may have started runs on the IO
    loop, so their steps interleave. A handler calls `send` at most once and then returns or
    throws; the middleware around it is part of the handler.
  */
module Router {
  import opened Text
  import opened StreamTransfer

  datatype Phase = Queued | InHandler | Returned(threw: bool) | Done

  /** `tracked` lists the deltas given to the tracker, `routerEnds` counts the calls of `End`
      made by the route itself. */
  datatype Route = Route(phase: Phase, transfer: Option<State>, tracked: seq<int>, routerEnds: nat)

  datatype RouteEvent =
    | Dispatch
    | HandlerSends(req: Request, setup: Setup)
    | HandlerReturns(threw: bool)
    | TaskFinishes(atBegin: bool)
    | TransferSteps(event: Event)

  /** The request handler, up to handing the task to the dispatcher. */
  function Accept(): Route {
    Route(Queued, None, [1], 0)
  }

  /** `streamingHandoff` at the end of the task: the assignment is skipped if anything throws. */
  function SeesHandoff(r: Route): bool {
    r.phase == Returned(false) && r.transfer.Some? && r.transfer.value.handoff
  }

  function RouteStep(r: Route, e: RouteEvent): Route {
    match e
    case Dispatch => if r.phase.Queued? then r.(phase := InHandler) else r
    case HandlerSends(req, setup) =>
      if r.phase.InHandler? && r.transfer.None? then r.(transfer := Some(Send(req, setup))) else r
    case HandlerReturns(threw) => if r.phase.InHandler? then r.(phase := Returned(threw)) else r
    case TaskFinishes(atBegin) =>
      if r.phase.Returned?
      then r.(phase := Done, tracked := r.tracked + [-1],
              routerEnds := if !SeesHandoff(r) && atBegin then r.routerEnds + 1 else r.routerEnds)
      else r
    case TransferSteps(event) =>
      if r.transfer.Some? then r.(transfer := Some(Step(r.transfer.value, event))) else r
  }

  function RouteRun(r: Route, es: seq<RouteEvent>): Route
    decreases |es|
  {
    if es == [] then r else RouteRun(RouteStep(r, es[0]), es[1..])
  }

  predicate Throws(es: seq<RouteEvent>) {
    HandlerReturns(true) in es
  }

  function TransferEnds(r: Route): nat {
    if r.transfer.Some? then r.transfer.value.bytes.endCalls else 0
  }

  ghost predicate RouteInv(r: Route) {
    && (r.transfer.Some? ==> Inv(r.transfer.value) || Refused(r.transfer.value))
    && (r.phase.Queued? ==> r.transfer.None?)
    && r.routerEnds <= (if r.phase.Done? then 1 else 0)
    && r.tracked == (if r.phase.Done? then [1, -1] else [1])
  }

  predicate HandedOff(r: Route) {
    r.transfer.Some? && r.transfer.value.handoff
  }

  /** The route has called `End` on a response that the transfer is in charge of. */
  predicate BothEnd(r: Route) {
    r.routerEnds > 0 && HandedOff(r)
  }

  /** The handler has thrown after the handoff, and the task finds the response not begun. */
  predicate Overreaches(r: Route, e: RouteEvent) {
    r.phase == Returned(true) && HandedOff(r) && e == TaskFinishes(true)
  }

  predicate EverOverreaches(r: Route, es: seq<RouteEvent>)
    decreases |es|
  {
    es != [] && (Overreaches(r, es[0]) || EverOverreaches(RouteStep(r, es[0]), es[1..]))
  }

  lemma TransferStepKeeps(t: State, e: Event)
    requires Inv(t) || Refused(t)
    ensures Inv(Step(t, e)) || Refused(Step(t, e))
    ensures Step(t, e).handoff == t.handoff
  {
    OnlyPumpMovesBytes(t, e);
    if Inv(t) {
      StepKeepsLife(t, e);
      StepKeepsBytes(t, e);
      StepKeepsEnd(t, e);
    } else {
      RefusedStays(t, e);
    }
  }

  lemma RouteStepKeeps(r: Route, e: RouteEvent)
    requires RouteInv(r)
    ensures RouteInv(RouteStep(r, e))
    ensures BothEnd(RouteStep(r, e)) <==> BothEnd(r) || Overreaches(r, e)
  {
    match e
    case HandlerSends(req, setup) => SendStarts(req, setup);
    case TransferSteps(event) => if r.transfer.Some? { TransferStepKeeps(r.transfer.value, event); }
    case _ =>
  }

  lemma {:induction false} RouteRunKeeps(r: Route, es: seq<RouteEvent>)
    requires RouteInv(r)
    ensures RouteInv(RouteRun(r, es))
    ensures BothEnd(RouteRun(r, es)) <==> BothEnd(r) || EverOverreaches(r, es)
    decreases |es|
  {
    if es != [] {
      RouteStepKeeps(r, es[0]);
      RouteRunKeeps(RouteStep(r, es[0]), es[1..]);
    }
  }

  lemma {:induction false} NoThrowNoOverreach(r: Route, es: seq<RouteEvent>)
    requires !Throws(es) && r.phase != Returned(true)
    ensures !EverOverreaches(r, es)
    decreases |es|
  {
    if es != [] {
      assert es == [es[0]] + es[1..];
      NoThrowNoOverreach(RouteStep(r, es[0]), es[1..]);
    }
  }

  /** `End` is called more than once across route and transfer exactly if the handler has thrown
      after the handoff, the task has then found the response not begun, and the transfer has
      ended it too. If the first two do not come together, a transfer that completes as
      successful has ended the response exactly once. */
  lemma EndsOnceUnlessOverreached(es: seq<RouteEvent>)
    ensures
      var r := RouteRun(Accept(), es);
      && (BothEnd(r) <==> EverOverreaches(Accept(), es))
      && (r.routerEnds + TransferEnds(r) <= 1 <==> !(EverOverreaches(Accept(), es) && TransferEnds(r) == 1))
      && (!BothEnd(r) ==> r.routerEnds + TransferEnds(r) <= 1)
      && (!BothEnd(r) && r.transfer.Some? && r.transfer.value.report.ends == [true] ==>
            r.routerEnds + TransferEnds(r) == 1)
  {
    RouteRunKeeps(Accept(), es);
    var r := RouteRun(Accept(), es);
    if r.transfer.Some? { HandoffMeansStarted(es, r.transfer.value); }
    assert TransferEnds(r) <= 1 && (TransferEnds(r) == 1 ==> HandedOff(r));
  }

  /** In particular if the handler does not throw. */
  lemma ResponseEndsOnce(es: seq<RouteEvent>)
    requires !Throws(es)
    ensures
      var r := RouteRun(Accept(), es);
      && r.routerEnds + TransferEnds(r) <= 1
      && (r.transfer.Some? && r.transfer.value.report.ends == [true] ==> r.routerEnds + TransferEnds(r) == 1)
  {
    NoThrowNoOverreach(Accept(), es);
    EndsOnceUnlessOverreached(es);
  }

  /** When its handler has returned or thrown, a task ends the response itself exactly if it finds
      it not begun and knows of no handoff, which it does not after an exception. A response
      that nobody has begun and no transfer has taken over is ended once. */
  lemma RouteEndsTheRest(es: seq<RouteEvent>, threw: bool, atBegin: bool)
    requires RouteRun(Accept(), es).phase == Returned(threw)
    ensures
      var r := RouteRun(Accept(), es);
      var r' := RouteStep(r, TaskFinishes(atBegin));
      && r'.phase == Done && r'.tracked == [1, -1] && r'.transfer == r.transfer
      && (r'.routerEnds == 1 <==> atBegin && (threw || !HandedOff(r)))
      && (r'.routerEnds == 0 <==> !atBegin || (!threw && HandedOff(r)))
      && (!HandedOff(r) ==> r'.routerEnds + TransferEnds(r') == if atBegin then 1 else 0)
  {
    RouteRunKeeps(Accept(), es);
    var r := RouteRun(Accept(), es);
    if r.transfer.Some? { HandoffMeansStarted(es, r.transfer.value); }
    FinishMeans(r, threw, atBegin);
  }

  lemma FinishMeans(r: Route, threw: bool, atBegin: bool)
    requires r.phase == Returned(threw) && r.routerEnds == 0 && r.tracked == [1]
    ensures
      var r' := RouteStep(r, TaskFinishes(atBegin));
      && r'.phase == Done && r'.tracked == [1, -1] && r'.transfer == r.transfer
      && r'.routerEnds == if atBegin && (threw || !HandedOff(r)) then 1 else 0
  {}

  /** A task that is dispatched gets to its handler, the handler to its transfer, and the task,
      when the handler is through, to its end. */
  lemma TaskGoesOn(es: seq<RouteEvent>, req: Request, setup: Setup, threw: bool)
    ensures
      var r := RouteRun(Accept(), es);
      && (r.phase == Queued ==> RouteStep(r, Dispatch) == r.(phase := InHandler))
      && (r.phase == InHandler ==> RouteStep(r, HandlerReturns(threw)) == r.(phase := Returned(threw)))
      && (r.phase == InHandler && r.transfer == None ==>
            RouteStep(r, HandlerSends(req, setup)) == r.(transfer := Some(Send(req, setup))))
      && (r.phase == Queued || r.phase == InHandler ==> r.tracked == [1] && r.routerEnds == 0)
  {
    RouteRunKeeps(Accept(), es);
  }

  /** Every transfer that started was handed off. */
  lemma HandoffMeansStarted(es: seq<RouteEvent>, t: State)
    requires RouteRun(Accept(), es).transfer == Some(t)
    ensures t.handoff == t.started
  {
    RunHandoff(Accept(), es);
  }

  lemma {:induction false} RunHandoff(r: Route, es: seq<RouteEvent>)
    requires r.transfer.Some? ==> r.transfer.value.handoff == r.transfer.value.started
    ensures
      var r' := RouteRun(r, es);
      r'.transfer.Some? ==> r'.transfer.value.handoff == r'.transfer.value.started
    decreases |es|
  {
    if es != [] {
      if es[0].TransferSteps? && r.transfer.Some? { OnlyPumpMovesBytes(r.transfer.value, es[0].event); }
      RunHandoff(RouteStep(r, es[0]), es[1..]);
    }
  }

  /** Each finished task has given the tracker one +1 and one -1, thrown or not, and an
      unfinished one only the +1. */
  lemma TrackerBalances(es: seq<RouteEvent>)
    ensures RouteRun(Accept(), es).tracked == if RouteRun(Accept(), es).phase.Done? then [1, -1] else [1]
  {
    RouteRunKeeps(Accept(), es);
  }

  /** A handler that throws after the handoff: the route no longer knows of it and may call
      `End` beside the transfer, if the writer lets both through. */
  lemma ThrowingHandlerCanEndTwice()
    ensures
      var req := Request([], 0, 0, false);
      var es := [Dispatch, HandlerSends(req, Opened(true)), HandlerReturns(true), TaskFinishes(true),
                 TransferSteps(RunStart(true)), TransferSteps(CallReturns(0, true))];
      var r := RouteRun(Accept(), es);
      r.routerEnds + TransferEnds(r) == 2
  {
    var req := Request([], 0, 0, false);
    var es4 := [TransferSteps(RunStart(true)), TransferSteps(CallReturns(0, true))];
    var es3 := [TaskFinishes(true)] + es4;
    var es2 := [HandlerReturns(true)] + es3;
    var es1 := [HandlerSends(req, Opened(true))] + es2;
    var es0 := [Dispatch] + es1;
    var r1 := RouteStep(Accept(), Dispatch);
    var r2 := RouteStep(r1, HandlerSends(req, Opened(true)));
    var r3 := RouteStep(r2, HandlerReturns(true));
    var r4 := RouteStep(r3, TaskFinishes(true));
    var r5 := RouteStep(r4, TransferSteps(RunStart(true)));
    var r6 := RouteStep(r5, TransferSteps(CallReturns(0, true)));
    assert r5.transfer.value.stack == On(ZeroHeaders, Empty);
    assert r6.routerEnds + TransferEnds(r6) == 2;
    assert es4[1..] == [TransferSteps(CallReturns(0, true))];
    assert RouteRun(r4, es4) == r6;
    assert es3[1..] == es4 && es2[1..] == es3 && es1[1..] == es2 && es0[1..] == es1;
    assert RouteRun(r2, es2) == r6;
    assert RouteRun(Accept(), es0) == r6;
    assert es0 == [Dispatch, HandlerSends(req, Opened(true)), HandlerReturns(true), TaskFinishes(true),
                   TransferSteps(RunStart(true)), TransferSteps(CallReturns(0, true))];
  }

  /** The task of an asynchronous route, once its handler has returned or thrown. */
  class AsyncTask {
    var phase: Phase
    var transfer: Option<State>
    var tracked: seq<int>
    var routerEnds: nat

    function View(): Route
      reads this
    {
      Route(phase, transfer, tracked, routerEnds)
    }

    constructor ()
      ensures View() == Accept()
    {
      phase, transfer, tracked, routerEnds := Queued, None, [1], 0;
    }

    method Complete(atBegin: bool)
      requires phase.Returned?
      modifies this
      ensures View() == RouteStep(old(View()), TaskFinishes(atBegin))
    {
      var streamingHandoff := false;
      if !phase.threw {
        streamingHandoff := transfer.Some? && transfer.value.handoff;
      }
      if !streamingHandoff && atBegin {
        routerEnds := routerEnds + 1;
      }
      tracked := tracked + [-1];
      phase := Done;
    }
  }
}

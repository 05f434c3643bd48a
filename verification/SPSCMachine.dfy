/** The ring buffer of one producer and one consumer, at the granularity of its atomic accesses.

    A run is any interleaving of the two threads. Every load, slot access, store and counter
    update of `push` and `pop` is one step. `log` lists the operations in the order in which
    they take effect; `pushes` and `pops` list the calls that have returned. The main result,
    `Linearizable`, says that this order is a history of a FIFO that holds at most
    capacity - 1 items, and that each call takes effect between its start and its return.
  */
module SPSCMachine {
  import opened Bits

  const U64: nat := 0x1_0000_0000_0000_0000

  datatype Op<T> =
    | Pushed(item: T)
    | Refused(item: T)
    | Popped(item: T)
    | FoundEmpty

  /** A call that returned: the log was `since` long when it started, it took effect as
      entry `at`, and the log was `until` long when it returned. */
  datatype Call<T> = Call(op: Op<T>, since: nat, at: nat, until: nat)

  datatype Producer<T> =
    | PIdle
    | PLoaded(item: T, cur: nat, next: nat, since: nat)
    | PRoom(item: T, cur: nat, next: nat, since: nat)
    | PWritten(item: T, cur: nat, next: nat, since: nat)
    | PPublished(item: T, since: nat, at: nat)
    | PFull(item: T, since: nat, at: nat)

  datatype Consumer<T> =
    | CIdle
    | CLoaded(cur: nat, since: nat)
    | CReady(cur: nat, since: nat)
    | CTaken(item: T, cur: nat, since: nat)
    | CFreed(item: T, since: nat, at: nat)

  /** The members of the C++ object. */
  datatype Ring<T> = Ring(
    buf: seq<T>, w: nat, r: nat,
    pushCount: nat, popCount: nat, dropCount: nat)
  {
    function Cap(): nat { |buf| }

    predicate Valid() {
      w < |buf| && r < |buf|
    }

    /** `size()`, computed from one read of each position. */
    function Size(): (n: nat)
      requires Valid()
      ensures n < Cap()
      ensures n == 0 <==> r == w
    {
      if w >= r then w - r else (Cap() - r) + w
    }

    /** The slot that holds the i-th queued item. */
    function Slot(i: nat): (k: nat)
      requires Valid() && i < Cap()
      ensures k < Cap()
    {
      if r + i < Cap() then r + i else r + i - Cap()
    }

    function Items(): (q: seq<T>)
      requires Valid()
      ensures |q| == Size()
      ensures forall i :: 0 <= i < |q| ==> q[i] == buf[Slot(i)]
    {
      seq(Size(), i requires 0 <= i < Size() => buf[Slot(i)])
    }
  }

  datatype State<T> = State(
    ring: Ring<T>, prod: Producer<T>, cons: Consumer<T>,
    log: seq<Op<T>>, pushes: seq<Call<T>>, pops: seq<Call<T>>)

  datatype Event<T> = CallPush(item: T) | ProducerStep | CallPop | ConsumerStep

  function Incr(k: nat): nat { (k + 1) % U64 }

  /** `(i + 1) & m_mask` */
  function NextPos(i: nat, cap: nat): nat
    requires cap > 0
  {
    And(i + 1, cap - 1)
  }

  function StepProducer<T>(s: State<T>): State<T>
    requires s.ring.Valid()
    requires s.prod.PRoom? ==> s.prod.cur < s.ring.Cap()
  {
    var q := s.ring;
    match s.prod
    case PIdle => s
    case PLoaded(item, cur, next, since) =>
      if next == q.r
      then s.(prod := PFull(item, since, |s.log|), log := s.log + [Refused(item)])
      else s.(prod := PRoom(item, cur, next, since))
    case PRoom(item, cur, next, since) =>
      s.(ring := q.(buf := q.buf[cur := item]), prod := PWritten(item, cur, next, since))
    case PWritten(item, cur, next, since) =>
      s.(ring := q.(w := next), prod := PPublished(item, since, |s.log|), log := s.log + [Pushed(item)])
    case PPublished(item, since, at) =>
      s.(ring := q.(pushCount := Incr(q.pushCount)), prod := PIdle,
         pushes := s.pushes + [Call(Pushed(item), since, at, |s.log|)])
    case PFull(item, since, at) =>
      s.(ring := q.(dropCount := Incr(q.dropCount)), prod := PIdle,
         pushes := s.pushes + [Call(Refused(item), since, at, |s.log|)])
  }

  function StepConsumer<T>(s: State<T>): State<T>
    requires s.ring.Valid()
    requires s.cons.CReady? || s.cons.CTaken? ==> s.cons.cur < s.ring.Cap()
  {
    var q := s.ring;
    match s.cons
    case CIdle => s
    case CLoaded(cur, since) =>
      if cur == q.w
      then s.(cons := CIdle, log := s.log + [FoundEmpty],
              pops := s.pops + [Call(FoundEmpty, since, |s.log|, |s.log| + 1)])
      else s.(cons := CReady(cur, since))
    case CReady(cur, since) => s.(cons := CTaken(q.buf[cur], cur, since))
    case CTaken(item, cur, since) =>
      s.(ring := q.(r := NextPos(cur, q.Cap())), cons := CFreed(item, since, |s.log|), log := s.log + [Popped(item)])
    case CFreed(item, since, at) =>
      s.(ring := q.(popCount := Incr(q.popCount)), cons := CIdle,
         pops := s.pops + [Call(Popped(item), since, at, |s.log|)])
  }

  /** One step of one thread. A thread starts a call only when its previous one has returned. */
  function Step<T>(s: State<T>, e: Event<T>): State<T>
    requires Fits(s)
  {
    match e
    case CallPush(item) =>
      if s.prod.PIdle?
      then s.(prod := PLoaded(item, s.ring.w, NextPos(s.ring.w, s.ring.Cap()), |s.log|))
      else s
    case ProducerStep => StepProducer(s)
    case CallPop => if s.cons.CIdle? then s.(cons := CLoaded(s.ring.r, |s.log|)) else s
    case ConsumerStep => StepConsumer(s)
  }

  /** The positions the threads have loaded are inside the buffer. */
  predicate Fits<T>(s: State<T>) {
    && s.ring.Valid()
    && (s.prod.PLoaded? || s.prod.PRoom? || s.prod.PWritten? ==>
          s.prod.cur == s.ring.w && s.prod.next == NextPos(s.ring.w, s.ring.Cap()))
    && (s.cons.CLoaded? || s.cons.CReady? || s.cons.CTaken? ==> s.cons.cur == s.ring.r)
  }

  /** The sequential queue: what a log of operations leaves behind, if it is one that a FIFO of
      at most `bound` items could have performed. */
  datatype Outcome<T> = Illegal | Holds(items: seq<T>)

  ghost function Fifo<T>(log: seq<Op<T>>, bound: nat): Outcome<T> {
    if log == [] then Holds([])
    else
      var last := log[|log| - 1];
      match Fifo(log[..|log| - 1], bound)
      case Illegal => Illegal
      case Holds(q) =>
        match last
        case Pushed(x) => if |q| < bound then Holds(q + [x]) else Illegal
        case Refused(_) => if |q| == bound then Holds(q) else Illegal
        case Popped(x) => if q != [] && q[0] == x then Holds(q[1..]) else Illegal
        case FoundEmpty => if q == [] then Holds(q) else Illegal
  }

  ghost predicate CallsInOrder<T>(calls: seq<Call<T>>, log: seq<Op<T>>) {
    && (forall i :: 0 <= i < |calls| ==>
          calls[i].since <= calls[i].at < calls[i].until <= |log| && log[calls[i].at] == calls[i].op)
    && (forall i, j :: 0 <= i < j < |calls| ==> calls[i].until <= calls[j].since)
  }

  function Accepted<T>(log: seq<Op<T>>): seq<T> {
    if log == [] then []
    else
      var last := log[|log| - 1];
      Accepted(log[..|log| - 1]) + if last.Pushed? then [last.item] else []
  }

  function Delivered<T>(log: seq<Op<T>>): seq<T> {
    if log == [] then []
    else
      var last := log[|log| - 1];
      Delivered(log[..|log| - 1]) + if last.Popped? then [last.item] else []
  }

  /** How many items were refused. */
  function Dropped<T>(log: seq<Op<T>>): nat {
    if log == [] then 0 else Dropped(log[..|log| - 1]) + if log[|log| - 1].Refused? then 1 else 0
  }

  /** Calls that have taken effect but not yet returned. */
  function PushesInFlight<T>(s: State<T>): nat { if s.prod.PPublished? then 1 else 0 }
  function DropsInFlight<T>(s: State<T>): nat { if s.prod.PFull? then 1 else 0 }
  function PopsInFlight<T>(s: State<T>): nat { if s.cons.CFreed? then 1 else 0 }

  /** The ring holds what the log leaves behind, and each thread may rely on what it has seen. */
  ghost predicate RingInv<T>(s: State<T>) {
    && IsPow2(s.ring.Cap())
    && Fits(s)
    && (s.prod.PRoom? || s.prod.PWritten? ==> s.ring.Size() + 1 < s.ring.Cap())
    && (s.prod.PWritten? ==> s.ring.buf[s.ring.w] == s.prod.item)
    && (s.cons.CReady? || s.cons.CTaken? ==> s.ring.r != s.ring.w)
    && (s.cons.CTaken? ==> s.ring.buf[s.ring.r] == s.cons.item)
    && Fifo(s.log, s.ring.Cap() - 1) == Holds(s.ring.Items())
  }

  ghost predicate CallsInv<T>(s: State<T>) {
    && CallsInOrder(s.pushes, s.log)
    && CallsInOrder(s.pops, s.log)
    && (!s.prod.PIdle? ==> Begun(s.prod.since, s.pushes, s.log))
    && (!s.cons.CIdle? ==> Begun(s.cons.since, s.pops, s.log))
    && (s.prod.PPublished? ==> s.prod.since <= s.prod.at < |s.log| && s.log[s.prod.at] == Pushed(s.prod.item))
    && (s.prod.PFull? ==> s.prod.since <= s.prod.at < |s.log| && s.log[s.prod.at] == Refused(s.prod.item))
    && (s.cons.CFreed? ==> s.cons.since <= s.cons.at < |s.log| && s.log[s.cons.at] == Popped(s.cons.item))
  }

  ghost predicate Begun<T>(since: nat, calls: seq<Call<T>>, log: seq<Op<T>>) {
    since <= |log| && forall i :: 0 <= i < |calls| ==> calls[i].until <= since
  }

  /** A counter after n more increments. */
  function Counted(start: nat, n: nat): nat {
    if n == 0 then start else Incr(Counted(start, n - 1))
  }

  ghost predicate CountInv<T>(s: State<T>) {
    && |s.log| == |s.pushes| + |s.pops| + PushesInFlight(s) + DropsInFlight(s) + PopsInFlight(s)
    && |Accepted(s.log)| >= PushesInFlight(s)
    && |Delivered(s.log)| >= PopsInFlight(s)
    && Dropped(s.log) >= DropsInFlight(s)
    && s.ring.pushCount == Counted(0, |Accepted(s.log)| - PushesInFlight(s))
    && s.ring.popCount == Counted(0, |Delivered(s.log)| - PopsInFlight(s))
    && s.ring.dropCount == Counted(0, Dropped(s.log) - DropsInFlight(s))
  }

  ghost predicate Inv<T>(s: State<T>) {
    RingInv(s) && CallsInv(s) && CountInv(s)
  }

  /** `(i + 1) & m_mask` is the successor modulo the capacity. */
  lemma NextPosIsSuccessor(i: nat, cap: nat)
    requires IsPow2(cap) && i < cap
    ensures NextPos(i, cap) == (i + 1) % cap == if i + 1 == cap then 0 else i + 1
  {
    var k: nat :| cap == Pow2(k);
    AndMask(i + 1, k);
    if i + 1 < cap {
      DivModUnique(i + 1, cap, 0, i + 1);
    } else {
      DivModUnique(i + 1, cap, 1, 0);
    }
  }

  lemma FifoExtends<T>(log: seq<Op<T>>, op: Op<T>)
    ensures (log + [op])[..|log|] == log
    ensures Accepted(log + [op]) == Accepted(log) + if op.Pushed? then [op.item] else []
    ensures Delivered(log + [op]) == Delivered(log) + if op.Popped? then [op.item] else []
    ensures Dropped(log + [op]) == Dropped(log) + if op.Refused? then 1 else 0
  {
    assert (log + [op])[..|log|] == log;
  }

  /** The slot a producer with room is about to write holds no queued item. */
  lemma WriteSlotIsFree<T>(q: Ring<T>, item: T)
    requires q.Valid() && q.Size() + 1 < q.Cap()
    ensures forall i :: 0 <= i < q.Size() ==> q.Slot(i) != q.w
    ensures q.(buf := q.buf[q.w := item]).Items() == q.Items()
  {
    var q' := q.(buf := q.buf[q.w := item]);
    assert forall i :: 0 <= i < q.Size() ==> q'.Slot(i) == q.Slot(i);
  }

  lemma PublishAppends<T>(q: Ring<T>)
    requires IsPow2(q.Cap()) && q.Valid() && q.Size() + 1 < q.Cap()
    ensures q.(w := NextPos(q.w, q.Cap())).Valid()
    ensures q.(w := NextPos(q.w, q.Cap())).Items() == q.Items() + [q.buf[q.w]]
  {
    NextPosIsSuccessor(q.w, q.Cap());
    var q' := q.(w := NextPos(q.w, q.Cap()));
    assert q.Slot(q.Size()) == q.w;
    assert forall i :: 0 <= i < q'.Size() ==> q'.Slot(i) == q.Slot(i);
  }

  lemma FreeRemovesFirst<T>(q: Ring<T>)
    requires IsPow2(q.Cap()) && q.Valid() && q.r != q.w
    ensures q.(r := NextPos(q.r, q.Cap())).Valid()
    ensures q.Items()[0] == q.buf[q.r]
    ensures q.(r := NextPos(q.r, q.Cap())).Items() == q.Items()[1..]
  {
    NextPosIsSuccessor(q.r, q.Cap());
    var q' := q.(r := NextPos(q.r, q.Cap()));
    assert q.Slot(0) == q.r;
    assert forall i :: 0 <= i < q'.Size() ==> q'.Slot(i) == q.Slot(i + 1);
  }

  /** The test `nextWrite == currentRead` holds exactly when no free slot is left over. */
  lemma FullTest<T>(q: Ring<T>)
    requires IsPow2(q.Cap()) && q.Valid()
    ensures NextPos(q.w, q.Cap()) == q.r <==> q.Size() == q.Cap() - 1
  {
    NextPosIsSuccessor(q.w, q.Cap());
  }

  lemma ReadForPushKeepsRing<T>(s: State<T>)
    requires RingInv(s) && s.prod.PLoaded?
    ensures RingInv(StepProducer(s))
  {
    FullTest(s.ring);
    FifoExtends(s.log, Refused(s.prod.item));
    assert StepProducer(s).ring == s.ring;
  }

  lemma ReadForPopKeepsRing<T>(s: State<T>)
    requires RingInv(s) && s.cons.CLoaded?
    ensures RingInv(StepConsumer(s))
  {
    FifoExtends(s.log, FoundEmpty);
    assert StepConsumer(s).ring == s.ring;
  }

  lemma WriteKeepsRing<T>(s: State<T>)
    requires RingInv(s) && s.prod.PRoom?
    ensures RingInv(StepProducer(s))
  {
    WriteSlotIsFree(s.ring, s.prod.item);
    if s.ring.r != s.ring.w { assert s.ring.Slot(0) == s.ring.r; }
  }

  lemma PublishKeepsRing<T>(s: State<T>)
    requires RingInv(s) && s.prod.PWritten?
    ensures RingInv(StepProducer(s))
  {
    PublishAppends(s.ring);
    NextPosIsSuccessor(s.ring.w, s.ring.Cap());
    FifoExtends(s.log, Pushed(s.prod.item));
  }

  lemma FreeKeepsRing<T>(s: State<T>)
    requires RingInv(s) && s.cons.CTaken?
    ensures RingInv(StepConsumer(s))
  {
    FreeRemovesFirst(s.ring);
    NextPosIsSuccessor(s.ring.r, s.ring.Cap());
    FifoExtends(s.log, Popped(s.cons.item));
  }

  lemma StepKeepsRing<T>(s: State<T>, e: Event<T>)
    requires RingInv(s)
    ensures RingInv(Step(s, e))
  {
    var s' := Step(s, e);
    if e.ProducerStep? && s.prod.PLoaded? {
      ReadForPushKeepsRing(s);
    } else if e.ConsumerStep? && s.cons.CLoaded? {
      ReadForPopKeepsRing(s);
    } else if e.ProducerStep? && s.prod.PRoom? {
      WriteKeepsRing(s);
    } else if e.ProducerStep? && s.prod.PWritten? {
      PublishKeepsRing(s);
    } else if e.ConsumerStep? && s.cons.CTaken? {
      FreeKeepsRing(s);
    } else {
      OtherStepKeepsRing(s, e);
    }
  }

  lemma OtherStepKeepsRing<T>(s: State<T>, e: Event<T>)
    requires RingInv(s)
    requires e.ProducerStep? ==> s.prod.PIdle? || s.prod.PPublished? || s.prod.PFull?
    requires e.ConsumerStep? ==> s.cons.CIdle? || s.cons.CReady? || s.cons.CFreed?
    ensures RingInv(Step(s, e))
  {
    assert Step(s, e).ring.Items() == s.ring.Items();
  }

  lemma CallsStayInOrder<T>(calls: seq<Call<T>>, log: seq<Op<T>>, op: Op<T>)
    requires CallsInOrder(calls, log)
    ensures CallsInOrder(calls, log + [op])
  {}

  lemma CallReturns<T>(calls: seq<Call<T>>, log: seq<Op<T>>, c: Call<T>)
    requires CallsInOrder(calls, log) && Begun(c.since, calls, log)
    requires c.since <= c.at < c.until == |log| && log[c.at] == c.op
    ensures CallsInOrder(calls + [c], log)
  {}

  lemma ProducerKeepsCalls<T>(s: State<T>)
    requires CallsInv(s) && Fits(s)
    ensures CallsInv(StepProducer(s))
  {
    match s.prod
    case PLoaded(item, _, _, _) =>
      CallsStayInOrder(s.pushes, s.log, Refused(item));
      CallsStayInOrder(s.pops, s.log, Refused(item));
    case PWritten(item, _, _, _) =>
      CallsStayInOrder(s.pushes, s.log, Pushed(item));
      CallsStayInOrder(s.pops, s.log, Pushed(item));
    case PPublished(item, since, at) =>
      CallReturns(s.pushes, s.log, Call(Pushed(item), since, at, |s.log|));
    case PFull(item, since, at) =>
      CallReturns(s.pushes, s.log, Call(Refused(item), since, at, |s.log|));
    case _ =>
  }

  lemma ConsumerKeepsCalls<T>(s: State<T>)
    requires CallsInv(s) && Fits(s)
    ensures CallsInv(StepConsumer(s))
  {
    match s.cons
    case CLoaded(_, since) =>
      CallsStayInOrder(s.pushes, s.log, FoundEmpty);
      CallsStayInOrder(s.pops, s.log, FoundEmpty);
      if s.cons.cur == s.ring.w {
        CallReturns(s.pops, s.log + [FoundEmpty], Call(FoundEmpty, since, |s.log|, |s.log| + 1));
      }
    case CTaken(item, _, _) =>
      CallsStayInOrder(s.pushes, s.log, Popped(item));
      CallsStayInOrder(s.pops, s.log, Popped(item));
    case CFreed(item, since, at) =>
      CallReturns(s.pops, s.log, Call(Popped(item), since, at, |s.log|));
    case _ =>
  }

  lemma CounterAdvances(n: nat)
    ensures Incr(n % U64) == (n + 1) % U64
  {}

  lemma {:induction false} CountedIsSum(start: nat, n: nat)
    requires start < U64
    ensures Counted(start, n) == (start + n) % U64
  {
    if n > 0 {
      CountedIsSum(start, n - 1);
      CounterAdvances(start + n - 1);
    }
  }

  /** A step that adds one operation to the log puts that one call in flight. */
  lemma LogExtends<T>(s: State<T>, s': State<T>, op: Op<T>)
    requires CountInv(s) && s'.log == s.log + [op]
    requires s'.ring.pushCount == s.ring.pushCount && s'.ring.popCount == s.ring.popCount
    requires s'.ring.dropCount == s.ring.dropCount
    requires DropsInFlight(s') == DropsInFlight(s) + if op.Refused? then 1 else 0
    requires PushesInFlight(s') == PushesInFlight(s) + if op.Pushed? then 1 else 0
    requires PopsInFlight(s') == PopsInFlight(s) + if op.Popped? then 1 else 0
    requires |s'.log| == |s'.pushes| + |s'.pops| + PushesInFlight(s') + DropsInFlight(s') + PopsInFlight(s')
    ensures CountInv(s')
  {
    FifoExtends(s.log, op);
  }

  lemma ProducerKeepsCounts<T>(s: State<T>)
    requires CountInv(s) && Fits(s)
    ensures CountInv(StepProducer(s))
  {
    var s' := StepProducer(s);
    if s'.prod.PFull? && s.prod.PLoaded? {
      LogExtends(s, s', Refused(s.prod.item));
    } else if s.prod.PWritten? {
      LogExtends(s, s', Pushed(s.prod.item));
    } else if s.prod.PPublished? || s.prod.PFull? {
      PushReturnIsCounted(s);
    }
  }

  lemma PushReturnIsCounted<T>(s: State<T>)
    requires CountInv(s) && Fits(s) && (s.prod.PPublished? || s.prod.PFull?)
    ensures CountInv(StepProducer(s))
  {}

  lemma PopReturnIsCounted<T>(s: State<T>)
    requires CountInv(s) && Fits(s) && s.cons.CFreed?
    ensures CountInv(StepConsumer(s))
  {}

  lemma ConsumerKeepsCounts<T>(s: State<T>)
    requires CountInv(s) && Fits(s)
    ensures CountInv(StepConsumer(s))
  {
    var s' := StepConsumer(s);
    if s'.cons.CIdle? && s.cons.CLoaded? {
      LogExtends(s, s', FoundEmpty);
    } else if s.cons.CTaken? {
      LogExtends(s, s', Popped(s.cons.item));
    } else if s.cons.CFreed? {
      PopReturnIsCounted(s);
    }
  }

  lemma StepKeeps<T>(s: State<T>, e: Event<T>)
    requires Inv(s)
    ensures Inv(Step(s, e))
  {
    StepKeepsRing(s, e);
    match e
    case CallPush(_) => CallKeepsCounts(s, e);
    case CallPop => CallKeepsCounts(s, e);
    case ProducerStep => ProducerKeepsCalls(s); ProducerKeepsCounts(s);
    case ConsumerStep => ConsumerKeepsCalls(s); ConsumerKeepsCounts(s);
  }

  lemma CallKeepsCounts<T>(s: State<T>, e: Event<T>)
    requires CallsInv(s) && CountInv(s) && Fits(s) && (e.CallPush? || e.CallPop?)
    ensures CallsInv(Step(s, e)) && CountInv(Step(s, e))
  {}

  /** The state of a fresh queue over an allocated buffer. */
  function Fresh<T>(buf: seq<T>): State<T> {
    State(Ring(buf, 0, 0, 0, 0, 0), PIdle, CIdle, [], [], [])
  }

  ghost function Run<T>(s: State<T>, es: seq<Event<T>>): (s': State<T>)
    requires Inv(s)
    ensures Inv(s')
    ensures s'.ring.Cap() == s.ring.Cap()
    decreases |es|
  {
    if es == [] then s
    else
      StepKeeps(s, es[0]);
      Run(Step(s, es[0]), es[1..])
  }

  lemma FreshInv<T>(buf: seq<T>)
    requires IsPow2(|buf|)
    ensures Inv(Fresh(buf))
  {}

  /** Every run of the two threads is a run of a bounded FIFO, call by call, and so the items
      popped are a prefix of the items pushed. */
  lemma Linearizable<T>(buf: seq<T>, es: seq<Event<T>>)
    requires IsPow2(|buf|)
    ensures Inv(Fresh(buf))
    ensures
      var s := Run(Fresh(buf), es);
      && Fifo(s.log, |buf| - 1) == Holds(s.ring.Items())
      && CallsInOrder(s.pushes, s.log)
      && CallsInOrder(s.pops, s.log)
      && |s.log| == |s.pushes| + |s.pops| + PushesInFlight(s) + DropsInFlight(s) + PopsInFlight(s)
      && Delivered(s.log) <= Accepted(s.log)
  {
    FreshInv(buf);
    RestIsQueued(Run(Fresh(buf), es));
  }

  /** A legal log delivers items in the order in which it accepted them. */
  lemma {:induction false} FifoDeliversInOrder<T>(log: seq<Op<T>>, bound: nat)
    requires Fifo(log, bound).Holds?
    ensures Accepted(log) == Delivered(log) + Fifo(log, bound).items
    ensures |Fifo(log, bound).items| <= bound
  {
    if log != [] {
      FifoDeliversInOrder(log[..|log| - 1], bound);
    }
  }

  lemma DifferenceModulo(a: nat, b: nat, x: nat, y: nat)
    requires a >= x && b >= y
    ensures ((a - x) % U64 + x - (b - y) % U64 - y) % U64 == (a - b) % U64
  {
    var i, j := (a - x) / U64, (b - y) / U64;
    assert (a - x) % U64 == a - x - i * U64;
    assert (b - y) % U64 == b - y - j * U64;
  }

  /** The counters have counted every push, pop and drop but those still in flight, and so the
      difference of the first two is the length of the queue up to these; all modulo 2^64. */
  predicate CountersAgree<T>(s: State<T>, length: nat) {
    && s.ring.pushCount == (|Accepted(s.log)| - PushesInFlight(s)) % U64
    && s.ring.popCount == (|Delivered(s.log)| - PopsInFlight(s)) % U64
    && s.ring.dropCount == (Dropped(s.log) - DropsInFlight(s)) % U64
    && (s.ring.pushCount + PushesInFlight(s) - s.ring.popCount - PopsInFlight(s)) % U64 == length % U64
  }

  /** The items popped so far are a prefix of the items pushed so far, what lies between is
      what the ring holds, and the counters lag behind by the calls still in flight. */
  lemma PrefixAndCounters<T>(buf: seq<T>, es: seq<Event<T>>)
    requires IsPow2(|buf|)
    ensures Inv(Fresh(buf))
    ensures
      var s := Run(Fresh(buf), es);
      && Accepted(s.log) == Delivered(s.log) + s.ring.Items()
      && s.ring.Size() <= |buf| - 1
      && CountersAgree(s, s.ring.Size())
  {
    FreshInv(buf);
    var s := Run(Fresh(buf), es);
    RestIsQueued(s);
    CountersLag(s, s.ring.Size());
  }

  lemma RestIsQueued<T>(s: State<T>)
    requires RingInv(s)
    ensures Accepted(s.log) == Delivered(s.log) + s.ring.Items()
    ensures |Accepted(s.log)| - |Delivered(s.log)| == s.ring.Size() <= s.ring.Cap() - 1
  {
    FifoDeliversInOrder(s.log, s.ring.Cap() - 1);
  }

  lemma CountersLag<T>(s: State<T>, length: nat)
    requires CountInv(s) && |Accepted(s.log)| - |Delivered(s.log)| == length
    ensures CountersAgree(s, length)
  {
    var a, b, x, y := |Accepted(s.log)|, |Delivered(s.log)|, PushesInFlight(s), PopsInFlight(s);
    CountedIsSum(0, a - x);
    CountedIsSum(0, b - y);
    CountedIsSum(0, Dropped(s.log) - DropsInFlight(s));
    DifferenceModulo(a, b, x, y);
  }

  /** What each test sees at the moment of its read: full or empty, and a writer with room
      never touches a queued slot, in particular not the one the consumer is reading. */
  lemma ChecksAreExact<T>(buf: seq<T>, es: seq<Event<T>>)
    requires IsPow2(|buf|)
    ensures Inv(Fresh(buf))
    ensures
      var s := Run(Fresh(buf), es);
      && (s.prod.PLoaded? ==> (Step(s, ProducerStep).prod.PFull? <==> s.ring.Size() == |buf| - 1))
      && (s.cons.CLoaded? ==> (Step(s, ConsumerStep).cons.CIdle? <==> s.ring.Items() == []))
      && (s.prod.PRoom? ==> forall i :: 0 <= i < s.ring.Size() ==> s.ring.Slot(i) != s.prod.cur)
      && (s.prod.PRoom? && (s.cons.CReady? || s.cons.CTaken?) ==> s.cons.cur != s.prod.cur)
  {
    FreshInv(buf);
    var s := Run(Fresh(buf), es);
    FullTest(s.ring);
    if s.prod.PRoom? {
      WriteSlotIsFree(s.ring, s.prod.item);
      if s.ring.r != s.ring.w { assert s.ring.Slot(0) == s.ring.r; }
    }
  }
}

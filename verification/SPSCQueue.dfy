/** The ring buffer object itself, called from one thread at a time. `SPSCMachine` has the
    interleavings; `Push` and `Pop` are tied to it by running one thread without the other.
  */
module SPSCQueue {
  import opened Bits
  import opened SPSCMachine

  /** `result <<= 1` on a 64-bit `size_t` that started at 1, k times. */
  function ShiftedOne(k: nat): nat {
    if k == 0 then 1 else (ShiftedOne(k - 1) * 2) % U64
  }

  lemma Pow2Of64()
    ensures Pow2(64) == U64 && Pow2(63) == U64 / 2
  {
    assert Pow2(8) == 256;
    Pow2Add(8, 8);
    Pow2Add(16, 16);
    Pow2Add(32, 32);
    assert Pow2(64) == 2 * Pow2(63);
  }

  lemma {:induction false} ShiftedOneValue(k: nat)
    ensures ShiftedOne(k) == if k < 64 then Pow2(k) else 0
  {
    if k > 0 {
      ShiftedOneValue(k - 1);
      DoublingStep(k - 1);
    }
  }

  lemma DoublingStep(k: nat)
    ensures k < 63 ==> (Pow2(k) * 2) % U64 == Pow2(k + 1)
    ensures k == 63 ==> (Pow2(k) * 2) % U64 == 0
  {
    Pow2Of64();
    if k < 63 { Pow2Monotone(k, 63); }
  }

  /** The doubling loop of `nextPowerOfTwo` can reach n exactly when n is at most 2^63: above
      that the shift drops the only bit and the loop runs forever on 0. */
  lemma DoublingReaches(n: nat)
    requires 1 <= n < U64
    ensures (exists k: nat :: ShiftedOne(k) >= n) <==> n <= Pow2(63)
  {
    Pow2Of64();
    ShiftedOneValue(63);
    forall k: nat | ShiftedOne(k) >= n ensures n <= Pow2(63) {
      ShiftedOneValue(k);
      if k < 63 { Pow2Monotone(k, 63); }
    }
  }

  predicate IsPowerOfTwo(n: nat) {
    n != 0 && And(n, n - 1) == 0
  }

  /** 2^63, the greatest power of two in a 64-bit `size_t`. */
  const GREATEST_POWER: nat := 0x8000_0000_0000_0000

  /** The least power of two that is at least n; 1 for 0. */
  method NextPowerOfTwo(n: nat) returns (result: nat)
    requires n <= GREATEST_POWER
    ensures IsPow2(result) && n <= result <= GREATEST_POWER
    ensures forall k: nat :: Pow2(k) >= n ==> Pow2(k) >= result
  {
    if n == 0 {
      assert Pow2(0) == 1;
      return 1;
    }
    if IsPowerOfTwo(n) {
      ClearsLowestBit(n);
      return n;
    }
    ghost var k: nat := 0;
    result := 1;
    Pow2Of64();
    while result < n
      invariant result == Pow2(k) && k <= 63
      invariant k > 0 ==> Pow2(k - 1) < n
      decreases 63 - k
    {
      if k < 63 { Pow2Monotone(k, 63); }
      result := (result * 2) % U64;
      k := k + 1;
    }
    assert k <= 63;
    if k < 63 { Pow2Monotone(k, 63); }
    forall j: nat | Pow2(j) >= n ensures Pow2(j) >= result {
      if j < k && j + 1 < k { Pow2Monotone(j, k - 1); }
      if k < j { Pow2Monotone(k, j); }
    }
  }

  /** `push` run to completion while the consumer is idle. */
  function PushAlone<T>(q: Ring<T>, item: T): Ring<T>
    requires q.Valid() && NextPos(q.w, q.Cap()) < q.Cap()
  {
    var s0 := State(q, PIdle, CIdle, [], [], []);
    var s1 := Step(s0, CallPush(item));
    Step(Step(Step(Step(s1, ProducerStep), ProducerStep), ProducerStep), ProducerStep).ring
  }

  /** `pop` run to completion while the producer is idle. */
  function PopAlone<T>(q: Ring<T>): Ring<T>
    requires q.Valid() && NextPos(q.r, q.Cap()) < q.Cap()
  {
    var s0 := State(q, PIdle, CIdle, [], [], []);
    var s1 := Step(s0, CallPop);
    Step(Step(Step(Step(s1, ConsumerStep), ConsumerStep), ConsumerStep), ConsumerStep).ring
  }

  /** What a call of `push` does to the queue when no pop interferes. */
  lemma PushAloneMeans<T>(q: Ring<T>, item: T)
    requires IsPow2(q.Cap()) && q.Valid()
    ensures NextPos(q.w, q.Cap()) < q.Cap()
    ensures
      var q' := PushAlone(q, item);
      && q'.Valid() && q'.Cap() == q.Cap()
      && q'.Items() == if q.Size() < q.Cap() - 1 then q.Items() + [item] else q.Items()
  {
    NextPosIsSuccessor(q.w, q.Cap());
    FullTest(q);
    var q' := PushAlone(q, item);
    if q.Size() < q.Cap() - 1 {
      var q1 := q.(buf := q.buf[q.w := item]);
      WriteSlotIsFree(q, item);
      PublishAppends(q1);
      assert q'.Items() == q1.(w := NextPos(q.w, q.Cap())).Items();
    } else {
      assert q'.Items() == q.Items();
    }
  }

  lemma PopAloneMeans<T>(q: Ring<T>)
    requires IsPow2(q.Cap()) && q.Valid()
    ensures NextPos(q.r, q.Cap()) < q.Cap()
    ensures
      var q' := PopAlone(q);
      && q'.Valid() && q'.Cap() == q.Cap()
      && (q.Items() != [] ==> q.Items()[0] == q.buf[q.r])
      && q'.Items() == if q.Items() == [] then [] else q.Items()[1..]
  {
    NextPosIsSuccessor(q.r, q.Cap());
    var q' := PopAlone(q);
    if q.r != q.w {
      FreeRemovesFirst(q);
      assert q'.Items() == q.(r := NextPos(q.r, q.Cap())).Items();
    }
  }

  class SPSCQueue<T(0)> {
    var buffer: array<T>
    var capacity: nat
    var mask: nat
    var writePos: nat
    var readPos: nat
    var pushCount: nat
    var popCount: nat
    var dropCount: nat

    ghost function View(): Ring<T>
      reads this, buffer
    {
      Ring(buffer[..], writePos, readPos, pushCount, popCount, dropCount)
    }

    ghost predicate Valid()
      reads this, buffer
    {
      && buffer.Length == capacity
      && mask == capacity - 1
      && IsPow2(capacity)
      && View().Valid()
      && pushCount < U64 && popCount < U64 && dropCount < U64
    }

    ghost function Items(): (q: seq<T>)
      requires Valid()
      reads this, buffer
      ensures |q| < capacity
    {
      View().Items()
    }

    constructor (capacity: nat)
      requires capacity <= GREATEST_POWER
      ensures Valid() && fresh(buffer) && Items() == []
      ensures View() == Fresh(buffer[..]).ring
      ensures capacity <= this.capacity
      ensures forall k: nat :: Pow2(k) >= capacity ==> Pow2(k) >= this.capacity
    {
      writePos, readPos, pushCount, popCount, dropCount := 0, 0, 0, 0, 0;
      var c := NextPowerOfTwo(capacity);
      this.capacity := c;
      mask := c - 1;
      buffer := new T[c];
    }

    method Push(item: T) returns (ok: bool)
      requires Valid()
      modifies this, buffer
      ensures Valid() && buffer == old(buffer)
      ensures NextPos(old(writePos), capacity) < capacity
      ensures View() == PushAlone(old(View()), item)
      ensures ok <==> |old(Items())| < capacity - 1
      ensures Items() == if ok then old(Items()) + [item] else old(Items())
    {
      PushAloneMeans(View(), item);
      FullTest(View());
      var currentWrite := writePos;
      var nextWrite := And(currentWrite + 1, mask);
      var currentRead := readPos;
      if nextWrite == currentRead {
        dropCount := Incr(dropCount);
        return false;
      }
      buffer[currentWrite] := item;
      writePos := nextWrite;
      pushCount := Incr(pushCount);
      return true;
    }

    method Pop() returns (ok: bool, item: T)
      requires Valid()
      modifies this
      ensures Valid() && buffer == old(buffer)
      ensures NextPos(old(readPos), capacity) < capacity
      ensures View() == PopAlone(old(View()))
      ensures ok <==> old(Items()) != []
      ensures ok ==> item == old(Items())[0] && Items() == old(Items())[1..]
      ensures !ok ==> Items() == []
      ensures popCount == if ok then Incr(old(popCount)) else old(popCount)
      ensures writePos == old(writePos) && pushCount == old(pushCount) && dropCount == old(dropCount)
    {
      PopAloneMeans(View());
      var currentRead := readPos;
      var currentWrite := writePos;
      if currentRead == currentWrite {
        item := *;
        return false, item;
      }
      item := buffer[currentRead];
      var nextRead := And(currentRead + 1, mask);
      readPos := nextRead;
      popCount := Incr(popCount);
      return true, item;
    }

    method Empty() returns (empty: bool)
      requires Valid()
      ensures empty <==> Items() == []
    {
      empty := readPos == writePos;
    }

    method Size() returns (n: nat)
      requires Valid()
      ensures n == |Items()|
    {
      var currentRead, currentWrite := readPos, writePos;
      if currentWrite >= currentRead {
        return currentWrite - currentRead;
      } else {
        return capacity - currentRead + currentWrite;
      }
    }

    method Clear()
      requires Valid()
      modifies this
      ensures Valid() && buffer == old(buffer) && Items() == []
      ensures writePos == old(writePos) && pushCount == old(pushCount) && dropCount == old(dropCount)
      ensures popCount == (old(popCount) + |old(Items())|) % U64
    {
      ghost var start := popCount;
      var ok, item := Pop();
      ghost var n: nat := if ok then 1 else 0;
      while ok
        invariant Valid() && buffer == old(buffer)
        invariant writePos == old(writePos) && pushCount == old(pushCount) && dropCount == old(dropCount)
        invariant n + |Items()| == |old(Items())|
        invariant popCount == Counted(start, n)
        invariant !ok ==> Items() == []
        decreases ok, |Items()|
      {
        ok, item := Pop();
        n := if ok then n + 1 else n;
      }
      CountedIsSum(start, n);
    }
  }
}

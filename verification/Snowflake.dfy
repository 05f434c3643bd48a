/** The Snowflake id generator: bit layout, per-millisecond sequence and overflow wait.

    Clock readings are inputs. One call makes at most six of them, so a call takes six; a call
    that makes fewer is one whose last reading repeats.
  */
module Snowflake {
  import opened Bits
  import opened Text

  const EPOCH := 946684800000
  const TWO41 := 0x200_0000_0000
  const TWO63 := 0x8000_0000_0000_0000
  const TWO64 := 0x1_0000_0000_0000_0000
  const MAX_WAIT_COUNT := 5

  type Field5 = n: nat | n < 32
  type Field12 = n: nat | n < 4096

  /** An `int64_t` as the word that holds it, and back. */
  function Word(x: int): nat { x % TWO64 }
  function Signed(n: nat): int { if n < TWO63 then n else n - TWO64 }

  /** The expression that `nextId` returns. */
  function Pack(timestamp: int, datacenter: Field5, worker: Field5, sequence: Field12): int {
    Signed(Or(WithWorker(timestamp, datacenter, worker), sequence))
  }

  function WithWorker(timestamp: int, datacenter: Field5, worker: Field5): nat {
    Or(Or(Word(Shl(Word(timestamp - EPOCH), 22)), Shl(datacenter, 17)), Shl(worker, 12))
  }

  predicate InRange(timestamp: int) { EPOCH < timestamp < EPOCH + TWO41 }

  datatype Generator = Generator(datacenter: Field5, worker: Field5, sequence: Field12, last: int)

  /** The constructor, `None` where it throws. */
  function Create(datacenterId: int, workerId: int): Option<Generator> {
    if datacenterId > 31 || datacenterId < 0 then None
    else if workerId > 31 || workerId < 0 then None
    else Some(Generator(datacenterId, workerId, 0, -1))
  }

  /** The overflow wait: the first later reading, none if the clock goes back or stands still. */
  function WaitPast(last: int, readings: seq<int>): Option<int> {
    if readings == [] || readings[0] < last then None
    else if readings[0] > last then Some(readings[0])
    else WaitPast(last, readings[1..])
  }

  type Readings = r: seq<int> | |r| == 6 witness [0, 0, 0, 0, 0, 0]

  function NextSequence(sequence: Field12): (s: Field12)
    ensures s == if sequence == 4095 then 0 else sequence + 1
  {
    MaskWraps(sequence + 1);
    And(sequence + 1, 4095)
  }

  lemma MaskWraps(n: nat)
    requires n <= 4096
    ensures And(n, 4095) == if n == 4096 then 0 else n
  {
    Powers();
    MaskUpTo(n, 12);
  }

  /** The state after a call, and whether it returns an id. */
  function Advance(g: Generator, r: Readings): (Generator, bool) {
    if r[0] == g.last then
      var s := NextSequence(g.sequence);
      if s == 0 then
        match WaitPast(g.last, r[1..])
        case None => (g.(sequence := 0), false)
        case Some(t) => (g.(sequence := 0, last := t), true)
      else (g.(sequence := s), true)
    else (g.(sequence := 0, last := r[0]), true)
  }

  /** The id that a call returns from the state it leaves. */
  function IdFrom(g: Generator): int {
    Pack(g.last, g.datacenter, g.worker, g.sequence)
  }

  function Next(g: Generator, r: Readings): (Generator, int) {
    var (g', ok) := Advance(g, r);
    (g', if ok then IdFrom(g') else 0)
  }

  lemma Powers()
    ensures Pow2(5) == 32 && Pow2(12) == 4096 && Pow2(17) == 131072 && Pow2(22) == 4194304
  {
    assert Pow2(5) == 32 && Pow2(6) == 64;
    Pow2Add(6, 6);
    Pow2Add(5, 12);
    Pow2Add(5, 17);
  }

  /** The id as a number, `Pack` without the bit operators. */
  function Layout(x: nat, datacenter: Field5, worker: Field5, sequence: Field12): nat {
    ((x * 32 + datacenter) * 32 + worker) * 4096 + sequence
  }

  lemma ShiftedTimestamp(x: nat)
    requires x < TWO41
    ensures Word(Shl(Word(x), 22)) == 4194304 * x < TWO63
  {
    Powers();
    assert Word(x) == x;
  }

  lemma JoinDatacenter(x: nat, d: Field5)
    ensures Or(4194304 * x, Shl(d, 17)) == 131072 * (x * 32 + d)
  {
    Powers();
    OrDisjoint(x, 22, Shl(d, 17));
  }

  lemma JoinWorker(y: nat, w: Field5)
    ensures Or(131072 * y, Shl(w, 12)) == 4096 * (y * 32 + w)
  {
    Powers();
    OrDisjoint(y, 17, Shl(w, 12));
  }

  lemma JoinSequence(z: nat, s: Field12)
    ensures Or(4096 * z, s) == z * 4096 + s
  {
    Powers();
    OrDisjoint(z, 12, s);
  }

  lemma WithWorkerIsSum(timestamp: int, datacenter: Field5, worker: Field5)
    requires InRange(timestamp)
    ensures WithWorker(timestamp, datacenter, worker) == 4096 * (((timestamp - EPOCH) * 32 + datacenter) * 32 + worker)
  {
    var x := timestamp - EPOCH;
    ShiftedTimestamp(x);
    JoinDatacenter(x, datacenter);
    JoinWorker(x * 32 + datacenter, worker);
  }

  lemma PackIsLayout(timestamp: int, datacenter: Field5, worker: Field5, sequence: Field12)
    requires InRange(timestamp)
    ensures Pack(timestamp, datacenter, worker, sequence) == Layout(timestamp - EPOCH, datacenter, worker, sequence)
  {
    var z := ((timestamp - EPOCH) * 32 + datacenter) * 32 + worker;
    WithWorkerIsSum(timestamp, datacenter, worker);
    JoinSequence(z, sequence);
  }

  lemma Field(high: nat, k: nat, low: nat, bits: nat, value: nat, rest: nat)
    requires low < Pow2(k) && high == rest * Pow2(bits) + value && value < Pow2(bits)
    ensures Shr(high * Pow2(k) + low, k) == high
    ensures And(high, Pow2(bits) - 1) == value
  {
    DivModUnique(high * Pow2(k) + low, Pow2(k), high, low);
    AndMask(high, bits);
    DivModUnique(high, Pow2(bits), rest, value);
  }

  lemma DecodesFields(timestamp: int, datacenter: Field5, worker: Field5, sequence: Field12)
    requires InRange(timestamp)
    ensures
      var id := Pack(timestamp, datacenter, worker, sequence);
      && id > 0
      && Shr(id, 22) == timestamp - EPOCH
      && And(Shr(id, 17), 31) == datacenter
      && And(Shr(id, 12), 31) == worker
      && And(id, 4095) == sequence
  {
    PackIsLayout(timestamp, datacenter, worker, sequence);
    Powers();
    var x := timestamp - EPOCH;
    var id := Layout(x, datacenter, worker, sequence);
    var y := x * 32 + datacenter;
    Field(x, 22, (datacenter * 32 + worker) * 4096 + sequence, 0, 0, x);
    Field(y, 17, worker * 4096 + sequence, 5, datacenter, x);
    Field(y * 32 + worker, 12, sequence, 5, worker, y);
    Field(id, 0, 0, 12, sequence, y * 32 + worker);
    assert id == x * 4194304 + ((datacenter * 32 + worker) * 4096 + sequence);
    assert id == y * 131072 + (worker * 4096 + sequence);
  }

  /** Shifting and masking an id gives back its four fields. */
  lemma Decodes(timestamp: int, datacenter: Field5, worker: Field5, sequence: Field12)
    requires InRange(timestamp)
    ensures
      var id := Pack(timestamp, datacenter, worker, sequence);
      && id > 0
      && Shr(id, 22) + 946684800000 == timestamp
      && And(Shr(id, 17), 31) == datacenter
      && And(Shr(id, 12), 31) == worker
      && And(id, 4095) == sequence
  {
    DecodesFields(timestamp, datacenter, worker, sequence);
  }

  /** Generators with different datacenter or worker never produce the same id. */
  lemma GeneratorsAreDisjoint(t: int, d: Field5, w: Field5, s: Field12, t': int, d': Field5, w': Field5, s': Field12)
    requires InRange(t) && InRange(t')
    requires Pack(t, d, w, s) == Pack(t', d', w', s')
    ensures d == d' && w == w' && t == t' && s == s'
  {
    Decodes(t, d, w, s);
    Decodes(t', d', w', s');
  }

  /** A run of calls. `issued` lists the ids returned, `now` is the last clock reading, and `used`
      holds, for each millisecond in which an id was issued, the highest sequence number. */
  datatype Trace = Trace(gen: Generator, issued: seq<int>, now: int, used: map<int, Field12>)

  function Raise(used: map<int, Field12>, t: int, n: Field12): map<int, Field12> {
    if t in used && n <= used[t] then used else used[t := n]
  }

  function Record(s: Trace, gen: Generator, ok: bool, now: int): Trace {
    if ok then Trace(gen, s.issued + [CurrentId(gen)], now, Raise(s.used, gen.last, gen.sequence))
    else s.(gen := gen, now := now)
  }

  /** One call; `NextInNumbers` says that the id recorded is the one that `nextId` returns. */
  function Call(s: Trace, r: Readings): Trace {
    var (gen, ok) := Advance(s.gen, r);
    Record(s, gen, ok, r[5])
  }

  function Run(s: Trace, calls: seq<Readings>): Trace
    decreases |calls|
  {
    if calls == [] then s else Run(Call(s, calls[0]), calls[1..])
  }

  function Start(datacenter: Field5, worker: Field5): Trace {
    Trace(Generator(datacenter, worker, 0, -1), [], EPOCH, map[])
  }

  predicate Readable(r: Readings) {
    forall i :: 0 <= i < 6 ==> InRange(r[i])
  }

  function Id(g: Generator, t: int, s: Field12): int {
    if InRange(t) then Layout(t - EPOCH, g.datacenter, g.worker, s) else 0
  }

  function CurrentId(g: Generator): int {
    Id(g, g.last, g.sequence)
  }

  /** A sequence number of a millisecond that has been issued, to go by `used`. */
  predicate Taken(used: map<int, Field12>, t: int, n: Field12) {
    t in used && n <= used[t]
  }

  /** The ids issued are those of the sequence numbers taken, and the generator's own is one. */
  ghost predicate Inv(s: Trace) {
    && (s.gen.last == -1 ==> s.used == map[] && s.gen.sequence == 0)
    && (s.gen.last != -1 ==> Taken(s.used, s.gen.last, s.gen.sequence))
    && (forall t :: t in s.used ==> InRange(t))
    && (forall t, n: Field12 :: Taken(s.used, t, n) ==> Id(s.gen, t, n) in s.issued)
    && (forall x {:trigger IsTaken(s, x)} :: x in s.issued ==> IsTaken(s, x))
  }

  ghost predicate IsTaken(s: Trace, x: int) {
    exists t, n: Field12 :: Taken(s.used, t, n) && x == Id(s.gen, t, n)
  }

  lemma IdsDiffer(g: Generator, t: int, n: Field12, t': int, n': Field12)
    requires InRange(t) && InRange(t')
    ensures Id(g, t, n) == Id(g, t', n') <==> t == t' && n == n'
    ensures Id(g, t, n) < Id(g, t', n') <==> t < t' || (t == t' && n < n')
  {}

  lemma WaitPastMeans(last: int, readings: seq<int>)
    ensures WaitPast(last, readings).Some? ==>
      WaitPast(last, readings).value > last && WaitPast(last, readings).value in readings
  {}

  /** The three things a call can do. */
  predicate Moves(g: Generator, reading: int, g': Generator, ok: bool) {
    || (ok && reading == g.last && g.sequence < 4095 && g' == g.(sequence := g.sequence + 1))
    || (!ok && reading == g.last && g.sequence == 4095 && g' == g.(sequence := 0))
    || (ok && (reading == g.last ==> g.sequence == 4095) && g.last != g'.last
        && g' == g.(sequence := 0, last := g'.last))
  }

  lemma AdvanceCases(g: Generator, r: Readings)
    requires Readable(r)
    ensures
      var (g', ok) := Advance(g, r);
      Moves(g, r[0], g', ok) && (ok ==> g'.last in r && InRange(g'.last))
  {
    WaitPastMeans(g.last, r[1..]);
  }

  /** With readings in range, the value `nextId` returns is the layout of the new state, and it
      returns 0 exactly when it issues no id. */
  lemma NextInNumbers(g: Generator, r: Readings)
    requires (g.last == -1 || InRange(g.last)) && Readable(r)
    ensures
      var (g', ok) := Advance(g, r);
      Next(g, r) == (g', if ok then CurrentId(g') else 0) && CurrentId(g') > 0
  {
    AdvanceCases(g, r);
    var (g', ok) := Advance(g, r);
    PackIsLayout(g'.last, g'.datacenter, g'.worker, g'.sequence);
  }

  /** The k-th of the five further readings is the first that has moved on. */
  predicate MovesOnAt(last: int, r: Readings, k: int) {
    1 <= k <= 5 && r[k] > last && forall j :: 1 <= j < k ==> r[j] == last
  }

  lemma {:induction false} WaitPastIndex(last: int, readings: seq<int>, k: nat)
    requires k < |readings| && readings[k] > last && forall j :: 0 <= j < k ==> readings[j] == last
    ensures WaitPast(last, readings) == Some(readings[k])
  {
    if k > 0 { WaitPastIndex(last, readings[1..], k - 1); }
  }

  lemma {:induction false} WaitPastFinds(last: int, readings: seq<int>) returns (k: nat)
    ensures WaitPast(last, readings).Some? ==>
      k < |readings| && readings[k] > last && forall j :: 0 <= j < k ==> readings[j] == last
  {
    k := 0;
    if readings != [] && readings[0] == last {
      k := WaitPastFinds(last, readings[1..]);
      k := k + 1;
    }
  }

  /** A call that overflows the sequence of its millisecond issues an id exactly if one of its
      five further readings has moved on and the ones before it stood still, and then it is the
      first id of that millisecond. Otherwise it stays in the spent one and returns 0. */
  lemma OverflowWaits(g: Generator, r: Readings)
    requires Readable(r) && g.sequence == 4095 && r[0] == g.last
    ensures Next(g, r).1 != 0 <==> exists k :: MovesOnAt(g.last, r, k)
    ensures forall k :: MovesOnAt(g.last, r, k) ==>
      Next(g, r) == (g.(last := r[k], sequence := 0), Pack(r[k], g.datacenter, g.worker, 0))
    ensures Next(g, r).1 == 0 ==> Next(g, r).0 == g.(sequence := 0)
  {
    NextInNumbers(g, r);
    forall k | MovesOnAt(g.last, r, k) ensures WaitPast(g.last, r[1..]) == Some(r[k]) {
      assert forall j :: 0 <= j < k - 1 ==> r[1..][j] == r[j + 1];
      WaitPastIndex(g.last, r[1..], k - 1);
    }
    var k := WaitPastFinds(g.last, r[1..]);
    if WaitPast(g.last, r[1..]).Some? {
      assert forall j :: 1 <= j < k + 1 ==> r[j] == r[1..][j - 1];
      assert MovesOnAt(g.last, r, k + 1);
    }
  }

  /** The other two cases of a call: the next sequence number in the same millisecond, and the
      first one in another. */
  lemma OtherwiseCounts(g: Generator, r: Readings)
    requires Readable(r) && (r[0] == g.last ==> g.sequence < 4095)
    ensures
      var n := if r[0] == g.last then g.sequence + 1 else 0;
      Next(g, r) == (g.(last := r[0], sequence := n), Pack(r[0], g.datacenter, g.worker, n))
  {}

  /** The constructor accepts exactly the ids from 0 to 31. */
  lemma CreatesIff(datacenterId: int, workerId: int)
    ensures Create(datacenterId, workerId).Some? <==> 0 <= datacenterId <= 31 && 0 <= workerId <= 31
    ensures 0 <= datacenterId <= 31 && 0 <= workerId <= 31 ==>
      Create(datacenterId, workerId) == Some(Generator(datacenterId, workerId, 0, -1))
  {}

  /** The call would use a sequence number of a millisecond that is already taken. */
  predicate Repeats(s: Trace, r: Readings) {
    var (g', ok) := Advance(s.gen, r);
    ok && Taken(s.used, g'.last, g'.sequence)
  }

  /** When that is, branch by branch: a call that enters another millisecond repeats exactly if
      that one was used before, and a call that stays exactly if the counter has started over. */
  lemma RepeatsByBranch(s: Trace, r: Readings)
    requires Inv(s) && Readable(r)
    ensures r[0] != s.gen.last ==> (Repeats(s, r) <==> r[0] in s.used)
    ensures r[0] == s.gen.last && s.gen.sequence < 4095 ==>
      (Repeats(s, r) <==> s.gen.sequence < s.used[s.gen.last])
    ensures r[0] == s.gen.last && s.gen.sequence == 4095 ==>
      (Repeats(s, r) <==> WaitPast(s.gen.last, r[1..]).Some? && WaitPast(s.gen.last, r[1..]).value in s.used)
  {
    AdvanceCases(s.gen, r);
  }

  lemma TakenMeansIssued(s: Trace, g: Generator)
    requires Inv(s) && InRange(g.last) && g.datacenter == s.gen.datacenter && g.worker == s.gen.worker
    ensures CurrentId(g) in s.issued <==> Taken(s.used, g.last, g.sequence)
  {
    assert CurrentId(g) == Id(s.gen, g.last, g.sequence);
    if CurrentId(g) in s.issued {
      assert IsTaken(s, CurrentId(g));
      var t, n: Field12 :| Taken(s.used, t, n) && CurrentId(g) == Id(s.gen, t, n);
      IdsDiffer(s.gen, g.last, g.sequence, t, n);
    }
  }

  lemma RecordKeeps(s: Trace, reading: int, g': Generator, ok: bool, now: int)
    requires Inv(s) && Moves(s.gen, reading, g', ok) && InRange(reading) && (ok ==> InRange(g'.last))
    ensures Inv(Record(s, g', ok, now))
  {
    var s' := Record(s, g', ok, now);
    forall t, n: Field12 ensures Id(g', t, n) == Id(s.gen, t, n) {}
    forall t, n: Field12 | Taken(s'.used, t, n) ensures Id(g', t, n) in s'.issued {
      assert Taken(s.used, t, n) || (ok && t == g'.last && n == g'.sequence);
    }
    forall x | x in s'.issued ensures IsTaken(s', x) {
      if x in s.issued {
        assert IsTaken(s, x);
        var t, n: Field12 :| Taken(s.used, t, n) && x == Id(s.gen, t, n);
        assert Taken(s'.used, t, n) && x == Id(g', t, n);
      } else {
        assert Taken(s'.used, g'.last, g'.sequence) && x == Id(g', g'.last, g'.sequence);
      }
    }
  }

  /** What any call does, wherever the clock goes within its range: it keeps the invariant, and
      the id it issues has been issued before exactly if its sequence number was taken. */
  lemma CallMeans(s: Trace, r: Readings)
    requires Inv(s) && Readable(r)
    ensures Inv(Call(s, r))
    ensures Advance(s.gen, r).1 ==> (CurrentId(Advance(s.gen, r).0) in s.issued <==> Repeats(s, r))
  {
    AdvanceCases(s.gen, r);
    var (g', ok) := Advance(s.gen, r);
    RecordKeeps(s, r[0], g', ok, r[5]);
    if ok { TakenMeansIssued(s, g'); }
  }

  predicate ReadableRun(calls: seq<Readings>) {
    forall i :: 0 <= i < |calls| ==> Readable(calls[i])
  }

  lemma {:induction false} RunKeeps(s: Trace, calls: seq<Readings>)
    requires Inv(s) && ReadableRun(calls)
    ensures Inv(Run(s, calls))
    decreases |calls|
  {
    if calls != [] {
      CallMeans(s, calls[0]);
      RunKeeps(Call(s, calls[0]), calls[1..]);
    }
  }

  /** In every run, with a clock that may go anywhere in its range, a call returns an id that has
      been returned before exactly if it repeats a sequence number, and 0 exactly if it returns
      no id. */
  lemma IdRepeatsIff(datacenter: Field5, worker: Field5, calls: seq<Readings>, r: Readings)
    requires ReadableRun(calls) && Readable(r)
    ensures
      var s := Run(Start(datacenter, worker), calls);
      var id := Next(s.gen, r).1;
      && (id != 0 <==> Advance(s.gen, r).1)
      && (id != 0 ==> (id in s.issued <==> Repeats(s, r)))
  {
    RunKeeps(Start(datacenter, worker), calls);
    var s := Run(Start(datacenter, worker), calls);
    CallMeans(s, r);
    NextInNumbers(s.gen, r);
  }

  predicate Distinct(ids: seq<int>) {
    forall i, j :: 0 <= i < j < |ids| ==> ids[i] != ids[j]
  }

  predicate EverRepeats(s: Trace, calls: seq<Readings>)
    decreases |calls|
  {
    calls != [] && (Repeats(s, calls[0]) || EverRepeats(Call(s, calls[0]), calls[1..]))
  }

  lemma DistinctExtends(ids: seq<int>, id: int)
    ensures Distinct(ids + [id]) <==> Distinct(ids) && id !in ids
  {
    var all := ids + [id];
    if Distinct(all) {
      forall i, j | 0 <= i < j < |ids| ensures ids[i] != ids[j] { assert all[i] == ids[i] && all[j] == ids[j]; }
      forall i | 0 <= i < |ids| ensures ids[i] != id { assert all[i] == ids[i] && all[|ids|] == id; }
    }
  }

  lemma {:induction false} RunDistinct(s: Trace, calls: seq<Readings>)
    requires Inv(s) && ReadableRun(calls)
    ensures Distinct(Run(s, calls).issued) <==> Distinct(s.issued) && !EverRepeats(s, calls)
    decreases |calls|
  {
    if calls != [] {
      CallMeans(s, calls[0]);
      DistinctExtends(s.issued, CurrentId(Advance(s.gen, calls[0]).0));
      RunDistinct(Call(s, calls[0]), calls[1..]);
    }
  }

  /** The ids of a generator are pairwise different exactly if no call repeats a sequence number. */
  lemma IdsAreUniqueIff(datacenter: Field5, worker: Field5, calls: seq<Readings>)
    requires ReadableRun(calls)
    ensures
      Distinct(Run(Start(datacenter, worker), calls).issued) <==> !EverRepeats(Start(datacenter, worker), calls)
  {
    RunDistinct(Start(datacenter, worker), calls);
  }

  /** The clock stays in range and does not run backwards. */
  predicate Steady(s: Trace, r: Readings) {
    && s.now <= r[0] <= r[1] <= r[2] <= r[3] <= r[4] <= r[5]
    && InRange(r[0]) && InRange(r[5])
  }

  predicate SteadyRun(s: Trace, calls: seq<Readings>)
    decreases |calls|
  {
    calls == [] || (Steady(s, calls[0]) && SteadyRun(Call(s, calls[0]), calls[1..]))
  }

  /** With a steady clock, the current millisecond is the last one used. */
  ghost predicate SteadyInv(s: Trace) {
    Inv(s) && s.gen.last <= s.now && forall t :: t in s.used ==> t <= s.gen.last
  }

  /** A call has timed out in the current millisecond, and the counter has started over. */
  predicate Restarted(s: Trace) {
    s.gen.last in s.used && s.gen.sequence < s.used[s.gen.last]
  }

  lemma SteadyMoves(s: Trace, r: Readings)
    requires SteadyInv(s) && Steady(s, r)
    ensures Readable(r) && SteadyInv(Call(s, r))
    ensures s.gen.last <= Advance(s.gen, r).0.last
  {
    CallMeans(s, r);
    AdvanceCases(s.gen, r);
  }

  lemma SteadyRepeats(s: Trace, r: Readings)
    requires SteadyInv(s) && Steady(s, r)
    ensures Repeats(s, r) <==> Restarted(s) && r[0] == s.gen.last && s.gen.sequence < 4095
  {
    RepeatsByBranch(s, r);
    WaitPastMeans(s.gen.last, r[1..]);
  }

  /** With a steady clock, an id exceeds all earlier ones exactly if it repeats none. */
  lemma SteadyCallMeans(s: Trace, r: Readings)
    requires SteadyInv(s) && Steady(s, r) && Advance(s.gen, r).1
    ensures (forall x :: x in s.issued ==> x < CurrentId(Advance(s.gen, r).0)) <==> !Repeats(s, r)
  {
    SteadyMoves(s, r);
    CallMeans(s, r);
    AdvanceCases(s.gen, r);
    var g' := Advance(s.gen, r).0;
    if !Repeats(s, r) {
      forall x | x in s.issued ensures x < CurrentId(g') {
        assert IsTaken(s, x);
        var t, n: Field12 :| Taken(s.used, t, n) && x == Id(s.gen, t, n);
        IdsDiffer(g', t, n, g'.last, g'.sequence);
      }
    }
  }

  lemma {:induction false} SteadyRunKeeps(s: Trace, calls: seq<Readings>)
    requires SteadyInv(s) && SteadyRun(s, calls)
    ensures SteadyInv(Run(s, calls))
    decreases |calls|
  {
    if calls != [] {
      SteadyMoves(s, calls[0]);
      SteadyRunKeeps(Call(s, calls[0]), calls[1..]);
    }
  }

  /** In every run with a steady clock, the id a call returns is greater than all earlier ones,
      unless the counter has started over in a millisecond that the call still uses; then it
      repeats one of them. */
  lemma NewUnlessRestarted(datacenter: Field5, worker: Field5, calls: seq<Readings>, r: Readings)
    requires SteadyRun(Start(datacenter, worker), calls) && Steady(Run(Start(datacenter, worker), calls), r)
    ensures
      var s := Run(Start(datacenter, worker), calls);
      var id := Next(s.gen, r).1;
      var again := Restarted(s) && r[0] == s.gen.last && s.gen.sequence < 4095;
      id != 0 ==> (id in s.issued <==> again) && ((forall x :: x in s.issued ==> x < id) <==> !again)
  {
    SteadyRunKeeps(Start(datacenter, worker), calls);
    var s := Run(Start(datacenter, worker), calls);
    SteadyMoves(s, r);
    SteadyRepeats(s, r);
    CallMeans(s, r);
    NextInNumbers(s.gen, r);
    if Advance(s.gen, r).1 { SteadyCallMeans(s, r); }
  }

  ghost predicate Increasing(ids: seq<int>) {
    forall i, j :: 0 <= i < j < |ids| ==> ids[i] < ids[j]
  }

  lemma CallIncreases(s: Trace, r: Readings)
    requires SteadyInv(s) && Steady(s, r) && !Restarted(s) && Increasing(s.issued) && Advance(s.gen, r).1
    ensures Increasing(Call(s, r).issued) && !Restarted(Call(s, r))
  {
    SteadyMoves(s, r);
    SteadyRepeats(s, r);
    SteadyCallMeans(s, r);
    AdvanceCases(s.gen, r);
    assert forall i :: 0 <= i < |s.issued| ==> s.issued[i] in s.issued;
  }

  lemma {:induction false} RunIncreases(s: Trace, calls: seq<Readings>)
    requires SteadyInv(s) && SteadyRun(s, calls) && !Restarted(s) && Increasing(s.issued)
    ensures |Run(s, calls).issued| == |s.issued| + |calls| ==> Increasing(Run(s, calls).issued)
    decreases |calls|
  {
    if calls != [] {
      var s' := Call(s, calls[0]);
      SteadyMoves(s, calls[0]);
      if Advance(s.gen, calls[0]).1 {
        CallIncreases(s, calls[0]);
        RunIncreases(s', calls[1..]);
      } else {
        IssuesAtMostOnePerCall(s', calls[1..]);
      }
    }
  }

  lemma {:induction false} IssuesAtMostOnePerCall(s: Trace, calls: seq<Readings>)
    ensures |Run(s, calls).issued| <= |s.issued| + |calls|
    decreases |calls|
  {
    if calls != [] { IssuesAtMostOnePerCall(Call(s, calls[0]), calls[1..]); }
  }

  /** With a steady clock and no call returning 0, the ids of a generator strictly increase. */
  lemma IdsIncrease(datacenter: Field5, worker: Field5, calls: seq<Readings>)
    requires SteadyRun(Start(datacenter, worker), calls)
    requires |Run(Start(datacenter, worker), calls).issued| == |calls|
    ensures Increasing(Run(Start(datacenter, worker), calls).issued)
  {
    RunIncreases(Start(datacenter, worker), calls);
  }

  /** A millisecond that never ends: after n calls the sequence number is n - 1. */
  lemma {:induction false} StuckClock(g: Generator, t: int, n: nat)
    requires InRange(t) && g.last == -1 && g.sequence == 0 && 0 < n <= 4096
    ensures StuckGenerator(g, t, n) == g.(sequence := n - 1, last := t)
    ensures n > 1 ==> Next(StuckGenerator(g, t, n - 1), Still(t)).1 == Pack(t, g.datacenter, g.worker, n - 1)
  {
    if n > 1 { StuckClock(g, t, n - 1); }
  }

  function Still(t: int): Readings { [t, t, t, t, t, t] }

  function StuckGenerator(g: Generator, t: int, n: nat): Generator {
    if n == 0 then g else Next(StuckGenerator(g, t, n - 1), Still(t)).0
  }

  /** The timed-out overflow at work: of 4098 calls in one millisecond the last but one returns
      0 and the last repeats the id of the second. */
  lemma TimeoutRepeatsId(g: Generator, t: int)
    requires InRange(t) && g.last == -1 && g.sequence == 0
    ensures Next(StuckGenerator(g, t, 4096), Still(t)).1 == 0
    ensures Next(StuckGenerator(g, t, 4097), Still(t)).1 == Next(StuckGenerator(g, t, 1), Still(t)).1 != 0
  {
    StuckClock(g, t, 4096);
    StuckClock(g, t, 2);
    StuckClock(g, t, 1);
    StillWait(t, Still(t)[1..]);
    Decodes(t, g.datacenter, g.worker, 1);
  }

  lemma {:induction false} StillWait(t: int, readings: seq<int>)
    requires forall i :: 0 <= i < |readings| ==> readings[i] == t
    ensures WaitPast(t, readings) == None
  {
    if readings != [] { StillWait(t, readings[1..]); }
  }

  /** A clock that goes back to a millisecond used before is accepted and repeats its ids. */
  lemma BackwardClockRepeatsId(g: Generator, t: int)
    requires InRange(t) && InRange(t + 1) && g.last == -1
    ensures
      var (g1, id1) := Next(g, Still(t));
      var (g2, id2) := Next(g1, Still(t + 1));
      Next(g2, Still(t)).1 == id1 != 0
  {
    Decodes(t, g.datacenter, g.worker, 0);
  }

  /** `SnowflakeGenerator` */
  class SnowflakeGenerator {
    const datacenterId: Field5
    const workerId: Field5
    var sequence: Field12
    var lastTimestamp: int

    ghost function View(): Generator
      reads this
    {
      Generator(datacenterId, workerId, sequence, lastTimestamp)
    }

    constructor (datacenterId: Field5, workerId: Field5)
      ensures Create(datacenterId, workerId) == Some(View())
    {
      this.datacenterId, this.workerId := datacenterId, workerId;
      sequence, lastTimestamp := 0, -1;
    }

    method NextId(clock: Readings) returns (id: int)
      modifies this
      ensures (View(), id) == Next(old(View()), clock)
    {
      var timestamp := clock[0];
      if timestamp == lastTimestamp {
        sequence := NextSequence(sequence);
        if sequence == 0 {
          var waitCount := 0;
          while timestamp <= lastTimestamp && waitCount < MAX_WAIT_COUNT
            invariant 0 <= waitCount <= MAX_WAIT_COUNT
            invariant timestamp == lastTimestamp ==>
              WaitPast(lastTimestamp, clock[1..]) == WaitPast(lastTimestamp, clock[1 + waitCount..])
            invariant timestamp > lastTimestamp ==> WaitPast(lastTimestamp, clock[1..]) == Some(timestamp)
            invariant timestamp >= lastTimestamp
          {
            ghost var rest := clock[1 + waitCount..];
            timestamp := clock[1 + waitCount];
            waitCount := waitCount + 1;
            assert rest[0] == timestamp && rest[1..] == clock[1 + waitCount..];
            if timestamp < lastTimestamp {
              return 0;
            }
          }
          if timestamp <= lastTimestamp {
            assert clock[6..] == [];
            return 0;
          }
        }
      } else {
        sequence := 0;
      }
      lastTimestamp := timestamp;
      id := Pack(timestamp, datacenterId, workerId, sequence);
    }
  }
}

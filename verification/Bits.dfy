/** Bitwise operators of C++ unsigned integers, on the values they act on.

    Each operator is defined bit by bit. The lemmas turn the three idioms the code uses
    (masking with 2^k - 1, joining disjoint fields with `|`, testing equality through `^`)
    into arithmetic.
  */
module Bits {

  function Pow2(k: nat): (p: nat)
    ensures p >= 1
  {
    if k == 0 then 1 else 2 * Pow2(k - 1)
  }

  function And(x: nat, y: nat): nat {
    if x == 0 || y == 0 then 0
    else 2 * And(x / 2, y / 2) + if x % 2 == 1 && y % 2 == 1 then 1 else 0
  }

  function Or(x: nat, y: nat): nat {
    if x == 0 then y
    else 2 * Or(x / 2, y / 2) + if x % 2 == 1 || y % 2 == 1 then 1 else 0
  }

  function Xor(x: nat, y: nat): nat {
    if x == 0 then y
    else 2 * Xor(x / 2, y / 2) + if x % 2 != y % 2 then 1 else 0
  }

  /** `x << k`, before any truncation to the width of the C++ type. */
  function Shl(x: nat, k: nat): nat {
    x * Pow2(k)
  }

  function Shr(x: nat, k: nat): nat {
    QuotientOfNat(x, Pow2(k));
    x / Pow2(k)
  }

  lemma TimesAtLeast(n: int, d: int)
    requires n >= 1 && d >= 0
    ensures n * d >= d
  {
    assert n * d == (n - 1) * d + d;
  }

  lemma QuotientOfNat(x: nat, d: int)
    requires d >= 1
    ensures x / d >= 0
  {
    var q := x / d;
    if q < 0 { TimesAtLeast(-q, d); }
  }

  lemma DivModUnique(x: int, d: int, q: int, r: int)
    requires d > 0 && x == q * d + r && 0 <= r < d
    ensures x / d == q && x % d == r
  {
    var q' := x / d;
    if q > q' {
      TimesAtLeast(q - q', d);
    } else if q < q' {
      TimesAtLeast(q' - q, d);
    }
  }

  lemma ModDouble(x: nat, p: nat)
    requires p > 0
    ensures x % (2 * p) == 2 * ((x / 2) % p) + x % 2
  {
    var q, r := (x / 2) / p, (x / 2) % p;
    assert x / 2 == q * p + r;
    assert x == q * (2 * p) + (2 * r + x % 2);
    DivModUnique(x, 2 * p, q, 2 * r + x % 2);
  }

  lemma AndOnes(x: nat, p: nat)
    requires p >= 1
    ensures And(x, 2 * p - 1) == 2 * And(x / 2, p - 1) + x % 2
  {
    assert (2 * p - 1) / 2 == p - 1 && (2 * p - 1) % 2 == 1;
  }

  /** Masking with a run of ones is the remainder modulo a power of two. */
  lemma {:induction false} AndMask(x: nat, k: nat)
    ensures And(x, Pow2(k) - 1) == x % Pow2(k)
  {
    if x == 0 {
      DivModUnique(0, Pow2(k), 0, 0);
    } else if k > 0 {
      var p := Pow2(k - 1);
      AndMask(x / 2, k - 1);
      AndOnes(x, p);
      ModDouble(x, p);
    }
  }

  /** So an increment that is masked wraps to zero at the power of two. */
  lemma MaskUpTo(x: nat, k: nat)
    requires x <= Pow2(k)
    ensures And(x, Pow2(k) - 1) == if x == Pow2(k) then 0 else x
  {
    AndMask(x, k);
    if x == Pow2(k) { DivModUnique(x, x, 1, 0); } else { DivModUnique(x, Pow2(k), 0, x); }
  }

  lemma {:induction false} AndSelf(x: nat)
    ensures And(x, x) == x
  {
    if x > 0 { AndSelf(x / 2); }
  }

  lemma {:induction false} OrZero(x: nat)
    ensures Or(x, 0) == x
  {
    if x > 0 { OrZero(x / 2); }
  }

  /** A field shifted past the width of another one is joined to it by `|` without carry. */
  lemma {:induction false} OrDisjoint(a: nat, k: nat, y: nat)
    requires y < Pow2(k)
    ensures Or(Shl(a, k), y) == Shl(a, k) + y
  {
    if k == 0 {
      OrZero(a);
    } else {
      var x, half := Shl(a, k), Shl(a, k - 1);
      assert x == 2 * half;
      OrDisjoint(a, k - 1, y / 2);
      if x > 0 {
        assert Or(x, y) == 2 * Or(half, y / 2) + y % 2;
      }
    }
  }

  lemma {:induction false} OrIsZero(x: nat, y: nat)
    ensures Or(x, y) == 0 <==> x == 0 && y == 0
  {
    if x > 0 { OrIsZero(x / 2, y / 2); }
  }

  lemma {:induction false} XorIsZero(x: nat, y: nat)
    ensures Xor(x, y) == 0 <==> x == y
  {
    if x > 0 { XorIsZero(x / 2, y / 2); }
  }

  lemma {:induction false} Pow2Add(a: nat, b: nat)
    ensures Pow2(a + b) == Pow2(a) * Pow2(b)
  {
    if a > 0 {
      Pow2Add(a - 1, b);
      assert Pow2(a + b) == 2 * (Pow2(a - 1) * Pow2(b));
    }
  }

  lemma {:induction false} Pow2Monotone(a: nat, b: nat)
    requires a < b
    ensures 2 * Pow2(a) <= Pow2(b)
  {
    if a + 1 < b { Pow2Monotone(a, b - 1); }
  }

  ghost predicate IsPow2(n: nat) {
    exists k: nat :: n == Pow2(k)
  }

  /** The classic test `n & (n - 1)`: it clears the lowest set bit, so only a power of two vanishes. */
  lemma {:induction false} ClearsLowestBit(n: nat)
    requires n > 0
    ensures And(n, n - 1) == 0 <==> IsPow2(n)
  {
    var m := n / 2;
    if n == 1 {
      assert n == Pow2(0);
    } else if n % 2 == 0 {
      ClearsLowestBit(m);
      assert And(n, n - 1) == 2 * And(m, m - 1);
      if IsPow2(m) {
        var k: nat :| m == Pow2(k);
        assert n == Pow2(k + 1);
      }
      if IsPow2(n) {
        var k: nat :| n == Pow2(k);
        assert m == Pow2(k - 1);
      }
    } else {
      AndSelf(m);
      assert And(n, n - 1) == 2 * And(m, m);
      forall k: nat ensures n != Pow2(k) {}
    }
  }
}

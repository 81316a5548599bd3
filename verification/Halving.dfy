/** Shifts and masks of natural numbers as repeated halving: `Shr(x, k)` is `x >> k`,
    `Shl(x, k)` is `x << k` and `Low(x, k)` is `x & (2^k - 1)`. */
module Halving {

  function Shr(v: nat, k: nat): nat {
    if k == 0 then v else Shr(v / 2, k - 1)
  }

  function Shl(v: nat, k: nat): nat {
    if k == 0 then v else 2 * Shl(v, k - 1)
  }

  function Low(v: nat, k: nat): nat {
    if k == 0 then 0 else v % 2 + 2 * Low(v / 2, k - 1)
  }

  // ---- shifts and masks -----------------------------------------------------------

  lemma {:induction false} ShrAdd(v: nat, a: nat, b: nat)
    ensures Shr(Shr(v, a), b) == Shr(v, a + b)
  {
    if a > 0 {
      ShrAdd(v / 2, a - 1, b);
    }
  }

  lemma {:induction false} LowAdd(v: nat, a: nat, b: nat)
    ensures Low(v, a + b) == Low(v, a) + Shl(Low(Shr(v, a), b), a)
  {
    if a > 0 {
      LowAdd(v / 2, a - 1, b);
    }
  }

  lemma {:induction false} LowBelow(v: nat, k: nat)
    ensures Low(v, k) < Shl(1, k)
    ensures v < Shl(1, k) ==> Low(v, k) == v && Shr(v, k) == 0
  {
    if k > 0 {
      LowBelow(v / 2, k - 1);
    }
  }

  lemma {:induction false} LowShrSplit(v: nat, k: nat)
    ensures v == Low(v, k) + Shl(Shr(v, k), k)
  {
    if k > 0 {
      LowShrSplit(v / 2, k - 1);
    }
  }

  /** v and its complement in k bits: halving keeps them complementary. */
  lemma {:induction false} Complement(v: nat, c: nat, a: nat, k: nat)
    requires a <= k && v + c == Shl(1, k) - 1
    ensures Low(v, a) + Low(c, a) == Shl(1, a) - 1
    ensures Shr(v, a) + Shr(c, a) == Shl(1, k - a) - 1
  {
    if a > 0 {
      Complement(v / 2, c / 2, a - 1, k - 1);
    }
  }

  /** The low bits do not see a multiple of a higher power of two. */
  lemma {:induction false} LowPeriodic(x: nat, m: nat, k: nat, w: nat)
    requires w <= k
    ensures Low(x + Shl(m, k), w) == Low(x, w)
  {
    if w > 0 {
      assert (x + Shl(m, k)) / 2 == x / 2 + Shl(m, k - 1);
      LowPeriodic(x / 2, m, k - 1, w - 1);
    }
  }

  // ---- reading the halvings as powers of two --------------------------------------

  function Pow2(n: nat): (r: nat)
    ensures r > 0
  {
    if n == 0 then 1 else 2 * Pow2(n - 1)
  }

  lemma {:induction false} ShlIsMul(v: nat, k: nat)
    ensures Shl(v, k) == Pow2(k) * v
  {
    if k > 0 {
      ShlIsMul(v, k - 1);
    }
  }

  lemma LowIsMod(v: nat, k: nat)
    ensures Low(v, k) == v % Pow2(k)
  {
    LowShrSplit(v, k);
    LowBelow(v, k);
    ShlIsMul(1, k);
    ShlIsMul(Shr(v, k), k);
    ModUnique(v, Pow2(k), Shr(v, k), Low(v, k));
  }

  lemma ModUnique(v: nat, d: nat, q: nat, r: nat)
    requires d > 0 && r < d && v == d * q + r
    ensures v % d == r
  {
    var e := v / d - q;
    assert d * e == r - v % d by {
      assert d * (v / d) == d * e + d * q;
    }
    assert 0 - d < d * e < d;
    assert e == 0;
  }

  lemma ShrIsDiv(v: nat, k: nat)
    ensures Shr(v, k) == v / Pow2(k)
  {
    LowShrSplit(v, k);
    LowIsMod(v, k);
    ShlIsMul(Shr(v, k), k);
    DivUnique(v, Pow2(k), Shr(v, k), Low(v, k));
  }

  lemma DivUnique(v: nat, d: nat, q: nat, r: nat)
    requires d > 0 && r < d && v == d * q + r
    ensures v / d == q
  {
    ModUnique(v, d, q, r);
    var e := v / d - q;
    assert d * e == 0 by {
      assert d * (v / d) == d * e + d * q;
    }
    assert e == 0;
  }

  // ---- single bits ------------------------------------------------------------------

  /** Bit j of a number, from the least significant end. */
  predicate HasBit(v: nat, j: nat) {
    v / Pow2(j) % 2 == 1
  }

  /** Low parts that differ in one bit only differ exactly when it is set. */
  lemma LowGrowsIffBit(v: nat, j: nat)
    ensures Low(v, j + 1) != Low(v, j) <==> HasBit(v, j)
  {
    LowAdd(v, j, 1);
    ShrIsDiv(v, j);
    OneBit(Shr(v, j));
    ShlIsMul(Low(Shr(v, j), 1), j);
  }

  lemma OneBit(v: nat)
    ensures Low(v, 1) == v % 2
  {
    assert Low(v / 2, 0) == 0;
  }
}

/** Key codes as digit streams: one, two or four bits a digit, in either bit order. */
module TvDigits {
  import opened Halving

  /** A key code in n digits of w bits, least significant digit first. */
  function Digits(v: nat, n: nat, w: nat): (ds: seq<nat>)
    ensures |ds| == n
  {
    seq(n, i requires 0 <= i < n => Low(Shr(v, w * i), w))
  }

  function FromDigits(ds: seq<nat>, w: nat): nat {
    if ds == [] then 0 else ds[0] + Shl(FromDigits(ds[1..], w), w)
  }

  function Reverse<T>(s: seq<T>): (r: seq<T>)
    ensures |r| == |s| && forall i :: 0 <= i < |s| ==> r[i] == s[|s| - 1 - i]
  {
    seq(|s|, i requires 0 <= i < |s| => s[|s| - 1 - i])
  }

  lemma ReverseTwice<T>(s: seq<T>)
    ensures Reverse(Reverse(s)) == s
  {
  }

  /** The digits in the order the emitter sends them.  A field of `bits` bits has
      bits / w digits; the most-significant-first order starts from its top bit. */
  function LsbStream(v: nat, bits: nat, w: nat): (ds: seq<nat>)
    requires w > 0
    ensures |ds| == bits / w
  {
    Digits(v, bits / w, w)
  }

  function MsbStream(v: nat, bits: nat, w: nat): (ds: seq<nat>)
    requires w > 0
    ensures |ds| == bits / w
  {
    Reverse(Digits(Shr(v, bits % w), bits / w, w))
  }

  lemma TimesStep(w: nat, n: nat)
    requires n > 0
    ensures w * n == w + w * (n - 1) && w * (n - 1) >= 0
  {
  }

  // ---- the streams ----------------------------------------------------------------

  lemma DigitsStep(v: nat, n: nat, w: nat)
    requires n > 0
    ensures Digits(v, n, w) == [Low(v, w)] + Digits(Shr(v, w), n - 1, w)
  {
    forall i | 1 <= i < n
      ensures Digits(v, n, w)[i] == Digits(Shr(v, w), n - 1, w)[i - 1]
    {
      TimesStep(w, i);
      ShrAdd(v, w, w * (i - 1));
    }
  }

  lemma LsbDigitAt(v: nat, bits: nat, w: nat, i: nat)
    requires w > 0 && i < bits / w
    ensures 0 <= w * i
    ensures LsbStream(v, bits, w)[i] == Low(Shr(v, w * i), w)
  {
  }

  lemma TopDigitShift(bits: nat, w: nat, i: nat)
    requires w > 0 && i < bits / w
    ensures bits - w * (i + 1) == bits % w + w * (bits / w - 1 - i)
  {
  }

  lemma MsbDigitAt(v: nat, bits: nat, w: nat, i: nat)
    requires w > 0 && i < bits / w
    ensures 0 <= bits - w * (i + 1)
    ensures MsbStream(v, bits, w)[i] == Low(Shr(v, bits - w * (i + 1)), w)
  {
    var j := bits / w - 1 - i;
    TopDigitShift(bits, w, i);
    ShrAdd(v, bits % w, w * j);
  }

  /** The digits reassemble to the low part of the key code. */
  lemma {:induction false} DigitsReassemble(v: nat, n: nat, w: nat)
    ensures FromDigits(Digits(v, n, w), w) == Low(v, w * n)
    decreases n
  {
    if n > 0 {
      DigitsStep(v, n, w);
      DigitsReassemble(Shr(v, w), n - 1, w);
      TimesStep(w, n);
      LowAdd(v, w, w * (n - 1));
    }
  }

  lemma FieldWidth(bits: nat, w: nat)
    requires w > 0
    ensures bits - bits % w == w * (bits / w)
  {
  }

  /** Both orders carry the field; when w does not divide the width, the most-
      significant-first order skips the lowest bits % w bits instead of the highest. */
  lemma StreamsReassemble(v: nat, bits: nat, w: nat)
    requires w > 0
    ensures FromDigits(LsbStream(v, bits, w), w) == Low(v, bits - bits % w)
    ensures FromDigits(Reverse(MsbStream(v, bits, w)), w) == Low(Shr(v, bits % w), bits - bits % w)
  {
    var n, u := bits / w, Shr(v, bits % w);
    FieldWidth(bits, w);
    DigitsReassemble(v, n, w);
    DigitsReassemble(u, n, w);
    ReverseTwice(Digits(u, n, w));
  }

  lemma OneMirrored(bits: nat, w: nat)
    requires w > 0 && bits % w > 0 && bits >= w
    ensures MsbStream(1, bits, w) != Reverse(LsbStream(1, bits, w))
  {
    var n, r := bits / w, bits % w;
    assert n > 0;
    OneShiftedOut(r);
    OneIsOdd(w);
    hide Low, Shr;
    assert Shr(1, 0) == 1 && w * 0 == 0 by { ShrByNothing(1); }
    ShrByNothing(Shr(1, r));
    LowBelowNothing(w);
    assert LsbStream(1, bits, w)[0] == Low(Shr(1, w * 0), w);
    assert Reverse(MsbStream(1, bits, w))[0] == Digits(Shr(1, r), n, w)[0];
    ReverseTwice(LsbStream(1, bits, w));
  }

  lemma ShrByNothing(v: nat)
    ensures Shr(v, 0) == v
  {
  }

  lemma LowBelowNothing(k: nat)
    ensures Low(0, k) == 0
  {
    LowShrSplit(0, k);
  }

  lemma OneShiftedOut(r: nat)
    requires r > 0
    ensures Shr(1, r) == 0
  {
    assert Shr(1, r) == Shr(0, r - 1);
    LowShrSplit(0, r - 1);
    LowBelow(0, r - 1);
  }

  lemma OneIsOdd(w: nat)
    requires w > 0
    ensures Low(1, w) > 0
  {
  }

  /** The two orders are mirror images for every key code exactly when the digit width
      divides the field width, or the field is too narrow for one digit. */
  lemma OrdersMirrorIffWidthDivides(bits: nat, w: nat)
    requires w > 0
    ensures (forall v: nat :: MsbStream(v, bits, w) == Reverse(LsbStream(v, bits, w)))
       <==> (bits % w == 0 || bits < w)
  {
    if bits >= w && bits % w > 0 {
      OneMirrored(bits, w);
    } else if bits < w {
      assert bits / w == 0;
    }
  }

  /** Inverse mode sends the byte's complement: every digit inside the byte is complemented. */
  lemma {:induction false} InverseComplementsDigits(v: nat, c: nat, n: nat, w: nat, k: nat)
    requires w * n <= k && v + c == Shl(1, k) - 1
    ensures forall i :: 0 <= i < n ==> Digits(v, n, w)[i] + Digits(c, n, w)[i] == Shl(1, w) - 1
    decreases n
  {
    if n > 0 {
      TimesStep(w, n);
      DigitsStep(v, n, w);
      DigitsStep(c, n, w);
      Complement(v, c, w, k);
      InverseComplementsDigits(Shr(v, w), Shr(c, w), n - 1, w, k - w);
    }
  }

  lemma {:induction false} PowerGrows(a: nat, b: nat)
    requires a < b
    ensures Shl(1, a) < Shl(1, b)
  {
    if a > 0 {
      PowerGrows(a - 1, b - 1);
    } else {
      LowBelow(0, b - 1);
    }
  }

  /** A digit of a byte and the same digit of the complement are complementary exactly when the
      digit lies inside the byte. */
  lemma DigitComplementIff(v: nat, c: nat, s: nat, w: nat)
    requires w > 0 && v + c == Shl(1, 8) - 1
    ensures Low(Shr(v, s), w) + Low(Shr(c, s), w) == Shl(1, w) - 1 <==> s + w <= 8
  {
    assert Shl(1, 0) == 1;
    hide Low, Shr, Shl;
    if s <= 8 {
      Complement(v, c, s, 8);
      if s + w <= 8 {
        Complement(Shr(v, s), Shr(c, s), w, 8 - s);
      } else {
        PowerGrows(8 - s, w);
        LowBelow(Shr(v, s), w);
        LowBelow(Shr(c, s), w);
      }
    } else {
      NothingBeyond(v, s);
      NothingBeyond(c, s);
      LowBelow(0, w);
      PowerGrows(0, w);
    }
  }

  lemma NothingBeyond(v: nat, s: nat)
    requires v < Shl(1, 8) && s >= 8
    ensures Shr(v, s) == 0
  {
    hide Low, Shr, Shl;
    if s > 8 {
      PowerGrows(8, s);
    }
    LowBelow(v, s);
  }
}

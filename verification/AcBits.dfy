/** Bytes as bits, and a byte buffer as one bit string, most significant bit first. */
module AcBits {
  import opened Halving

  type byte = bv8

  // ---- one byte ------------------------------------------------------------------

  /** The byte with bit j set: 1 << j. */
  function One(j: nat): byte
    requires j < 8
  {
    if j == 0 then 1 else if j == 1 then 2 else if j == 2 then 4 else if j == 3 then 8
    else if j == 4 then 16 else if j == 5 then 32 else if j == 6 then 64 else 128
  }

  /** The byte with the low w bits set: 0xFF >> (8 - w). */
  function Ones(w: nat): byte
    requires w <= 8
  {
    if w == 0 then 0 else if w == 1 then 1 else if w == 2 then 3 else if w == 3 then 7 else if w == 4 then 15
    else if w == 5 then 31 else if w == 6 then 63 else if w == 7 then 127 else 255
  }

  /** Bit j counted from the least significant end. */
  predicate LowBit(b: byte, j: nat)
    requires j < 8
  {
    b & One(j) != 0
  }

  /** Bit k counted from the most significant end. */
  predicate Bit(b: byte, k: nat)
    requires k < 8
  {
    LowBit(b, 7 - k)
  }

  /** The low w bits of a byte. */
  function LowBits(b: byte, w: nat): byte
    requires w <= 8
  {
    b & Ones(w)
  }

  /** A byte shifted left, with a bit shifted in. */
  function ShiftIn(x: byte, b: bool): byte {
    (x << 1) | (if b then 1 else 0)
  }

  lemma LowBitsDetermine(x: byte, y: byte)
    requires forall j :: 0 <= j < 8 ==> LowBit(x, j) == LowBit(y, j)
    ensures x == y
  {
    assert LowBit(x, 0) == LowBit(y, 0) && LowBit(x, 1) == LowBit(y, 1) && LowBit(x, 2) == LowBit(y, 2);
    assert LowBit(x, 3) == LowBit(y, 3) && LowBit(x, 4) == LowBit(y, 4) && LowBit(x, 5) == LowBit(y, 5);
    assert LowBit(x, 6) == LowBit(y, 6) && LowBit(x, 7) == LowBit(y, 7);
  }

  lemma BitsDetermineByte(x: byte, y: byte)
    requires forall k :: 0 <= k < 8 ==> Bit(x, k) == Bit(y, k)
    ensures x == y
  {
    hide LowBit;
    forall j | 0 <= j < 8
      ensures LowBit(x, j) == LowBit(y, j)
    {
      assert Bit(x, 7 - j) == Bit(y, 7 - j);
    }
    LowBitsDetermine(x, y);
  }

  lemma ShiftInBit(x: byte, b: bool, j: nat)
    requires j < 8
    ensures LowBit(ShiftIn(x, b), j) == if j == 0 then b else LowBit(x, j - 1)
  {
  }

  lemma LowBitsBit(b: byte, w: nat, j: nat)
    requires w <= 8 && j < 8
    ensures LowBit(LowBits(b, w), j) == (j < w && LowBit(b, j))
  {
  }

  lemma ZeroBit(j: nat)
    requires j < 8
    ensures !LowBit(0, j)
  {
  }

  // ---- bytes as numbers ------------------------------------------------------------

  function Num(b: byte): nat {
    b as nat
  }

  function ByteOf(n: nat): byte
    requires n < 256
  {
    n as byte
  }

  /** A number cut to a byte. */
  function Trunc(n: nat): byte {
    ByteOf(n % 256)
  }

  lemma NumOfEnds()
    ensures Num(0) == 0 && Num(255) == 255
  {
  }

  lemma NextBelow(x: byte)
    ensures x != 255 ==> Num(x + 1) == Num(x) + 1
  {
  }

  lemma ByteOfNum(b: byte)
    ensures Num(b) < 256 && ByteOf(Num(b)) == b
  {
  }

  lemma TopNum(b: byte)
    ensures b == 255 <==> Num(b) == 255
  {
  }

  /** Counted up: the byte of the next number is the next byte. */
  lemma {:induction false} NumOfSmall(n: nat)
    requires n < 256
    ensures Num(ByteOf(n)) == n
  {
    hide Num, ByteOf;
    if n == 0 {
      NumOfEnds();
      ByteOfNum(0);
    } else {
      var b := ByteOf(n - 1);
      NumOfSmall(n - 1);
      TopNum(b);
      NextBelow(b);
      ByteOfNum(b + 1);
    }
  }

  lemma NumOfTrunc(n: nat)
    ensures Num(Trunc(n)) == n % 256
  {
    hide Num, ByteOf;
    NumOfSmall(n % 256);
  }

  /** Byte addition. */
  function Plus(a: byte, b: byte): byte {
    a + b
  }

  lemma NextNum(x: byte)
    ensures Num(x + 1) == (Num(x) + 1) % 256
  {
    hide Num;
    NumIsByte(x);
    TopNum(x);
    if x == 255 {
      NumOfEnds();
      assert x + 1 == 0;
    } else {
      NextBelow(x);
    }
  }

  lemma PreviousNum(x: byte)
    ensures x == 0 <==> Num(x) == 0
    ensures x != 0 ==> Num(x - 1) == Num(x) - 1
  {
  }

  lemma MoveOne(x: byte, y: byte)
    ensures (x + 1) + (y - 1) == x + y
  {
  }

  lemma MoveOneMod(a: int, b: int)
    ensures ((a + 1) % 256 + (b - 1)) % 256 == (a + b) % 256
  {
  }

  /** Byte addition is addition modulo 256. */
  lemma {:induction false} AddIsModular(x: byte, y: byte)
    ensures Num(Plus(x, y)) == (Num(x) + Num(y)) % 256
    decreases Num(y)
  {
    hide Num;
    PreviousNum(y);
    if y == 0 {
      assert x + y == x;
      NumIsByte(x);
    } else {
      NextNum(x);
      AddIsModular(x + 1, y - 1);
      MoveOne(x, y);
      MoveOneMod(Num(x), Num(y));
    }
  }

  lemma NumIsByte(x: byte)
    ensures Num(x) < 256
  {
  }

  lemma OrderOfNums(x: byte, y: byte)
    ensures x <= y <==> Num(x) <= Num(y)
    ensures x == y <==> Num(x) == Num(y)
  {
  }

  lemma ModDropsMultiple(x: int, k: int)
    ensures (x + 256 * k) % 256 == x % 256
  {
  }

  /** Cutting an addend to a byte does not matter for the sum modulo 256. */
  lemma ModInner(a: int, b: int)
    ensures (a + b % 256) % 256 == (a + b) % 256
  {
    ModDropsMultiple(a + b % 256, b / 256);
  }

  lemma ModAssociates(a: int, b: int, c: int)
    ensures ((a + b) % 256 + c) % 256 == (a + (b + c) % 256) % 256
  {
    ModInner(c, a + b);
    ModInner(a, b + c);
  }

  lemma PlusLaws(a: byte, b: byte, c: byte)
    ensures Plus(a, 0) == a
    ensures Plus(a, b) == Plus(b, a)
    ensures Plus(Plus(a, b), c) == Plus(a, Plus(b, c))
  {
    hide Num, Plus;
    PlusZero(a);
    AddIsModular(a, b);
    AddIsModular(b, a);
    AddIsModular(Plus(a, b), c);
    AddIsModular(b, c);
    AddIsModular(a, Plus(b, c));
    ModAssociates(Num(a), Num(b), Num(c));
    OrderOfNums(Plus(a, b), Plus(b, a));
    OrderOfNums(Plus(Plus(a, b), c), Plus(a, Plus(b, c)));
  }

  lemma PlusZero(a: byte)
    ensures Plus(a, 0) == a
  {
  }

  lemma SubIsExact(x: byte, y: byte)
    requires y <= x
    ensures Num(x - y) == Num(x) - Num(y)
  {
    hide Num;
    assert (x - y) + y == x;
    AddIsModular(x - y, y);
    NumIsByte(x);
    NumIsByte(y);
    NumIsByte(x - y);
    OrderOfNums(y, x);
  }

  /** The byte offset and the place within the byte of a bit position. */
  lemma PositionParts(x: byte)
    ensures Num(x >> 3) == Num(x) / 8
    ensures Num(x - ((x >> 3) << 3)) == Num(x) % 8
  {
    assert x - ((x >> 3) << 3) == x & 7;
  }

  /** The same bits, addressed by bytes: the forms shift expressions are about. */
  predicate LowBitB(b: byte, j: byte)
    requires j < 8
  {
    (b >> j) & 1 == 1
  }

  predicate BitB(b: byte, k: byte)
    requires k < 8
  {
    (b >> (7 - k)) & 1 == 1
  }

  lemma LowBitByShift(b: byte, j: byte)
    requires j < 8
    ensures Num(j) < 8
    ensures LowBit(b, Num(j)) == LowBitB(b, j)
  {
    if j == 0 {} else if j == 1 {} else if j == 2 {} else if j == 3 {}
    else if j == 4 {} else if j == 5 {} else if j == 6 {}
  }

  lemma BitByShift(b: byte, k: byte)
    requires k < 8
    ensures Num(k) < 8
    ensures Bit(b, Num(k)) == BitB(b, k)
  {
    hide LowBit;
    LowBitByShift(b, 7 - k);
    SubIsExact(7, k);
  }

  // ---- the bit string ----------------------------------------------------------------

  /** The buffer as one bit string. */
  function Bits(buf: seq<byte>): (bs: seq<bool>)
    ensures |bs| == 8 * |buf|
  {
    seq(8 * |buf|, p requires 0 <= p < 8 * |buf| => Bit(buf[p / 8], p % 8))
  }

  lemma BitsDetermineBuffer(a: seq<byte>, b: seq<byte>)
    requires Bits(a) == Bits(b)
    ensures a == b
  {
    hide Bit;
    assert |a| == |b|;
    forall i | 0 <= i < |a|
      ensures a[i] == b[i]
    {
      forall k | 0 <= k < 8
        ensures Bit(a[i], k) == Bit(b[i], k)
      {
        assert Bits(a)[8 * i + k] == Bit(a[i], k);
        assert Bits(b)[8 * i + k] == Bit(b[i], k);
      }
      BitsDetermineByte(a[i], b[i]);
    }
  }

  /** The bits [start, end) as a number. */
  function FieldValue(bs: seq<bool>, start: nat, end: nat): byte
    requires start <= end <= |bs|
    decreases end - start
  {
    if start == end then 0
    else ShiftIn(FieldValue(bs, start, end - 1), bs[end - 1])
  }

  /** The bit string with the bits [start, end) replaced by the low bits of raw. */
  function SetField(bs: seq<bool>, start: nat, end: nat, raw: byte): (r: seq<bool>)
    requires start <= end <= |bs| && end - start <= 8
    ensures |r| == |bs|
  {
    seq(|bs|, p requires 0 <= p < |bs| => if start <= p < end then LowBit(raw, end - 1 - p) else bs[p])
  }

  lemma {:induction false} FieldValueBit(bs: seq<bool>, start: nat, end: nat, j: nat)
    requires start <= end <= |bs| && end - start <= 8 && j < 8
    ensures LowBit(FieldValue(bs, start, end), j) == (j < end - start && bs[end - 1 - j])
    decreases end - start
  {
    hide LowBit, ShiftIn;
    if start == end {
      ZeroBit(j);
    } else {
      ShiftInBit(FieldValue(bs, start, end - 1), bs[end - 1], j);
      if j > 0 {
        FieldValueBit(bs, start, end - 1, j - 1);
      }
    }
  }

  /** A field set to raw reads back as raw modulo two to its width. */
  lemma SetFieldReadsBack(bs: seq<bool>, start: nat, end: nat, raw: byte)
    requires start <= end <= |bs| && end - start <= 8
    ensures FieldValue(SetField(bs, start, end, raw), start, end) == LowBits(raw, end - start)
  {
    hide FieldValue, LowBit, LowBits;
    var v := FieldValue(SetField(bs, start, end, raw), start, end);
    forall j | 0 <= j < 8
      ensures LowBit(v, j) == LowBit(LowBits(raw, end - start), j)
    {
      FieldValueBit(SetField(bs, start, end, raw), start, end, j);
      LowBitsBit(raw, end - start, j);
    }
    LowBitsDetermine(v, LowBits(raw, end - start));
  }

  /** A field depends on its own bits only. */
  lemma {:induction false} FieldValueFrame(a: seq<bool>, b: seq<bool>, start: nat, end: nat)
    requires start <= end <= |a| && |a| == |b|
    requires forall p :: start <= p < end ==> a[p] == b[p]
    ensures FieldValue(a, start, end) == FieldValue(b, start, end)
    decreases end - start
  {
    hide ShiftIn;
    if start < end {
      FieldValueFrame(a, b, start, end - 1);
    }
  }

  /** The buffer with a given bit string. */
  function FromBits(bs: seq<bool>): (buf: seq<byte>)
    ensures |buf| == |bs| / 8
  {
    seq(|bs| / 8, i requires 0 <= i < |bs| / 8 => FieldValue(bs, 8 * i, 8 * i + 8))
  }

  lemma BitsOfFromBits(bs: seq<bool>)
    requires |bs| % 8 == 0
    ensures Bits(FromBits(bs)) == bs
  {
    hide LowBit, FieldValue;
    forall p | 0 <= p < |bs|
      ensures Bits(FromBits(bs))[p] == bs[p]
    {
      FieldValueBit(bs, 8 * (p / 8), 8 * (p / 8) + 8, 7 - p % 8);
    }
  }

  lemma FromBitsOfBits(buf: seq<byte>)
    ensures FromBits(Bits(buf)) == buf
  {
    hide Bits, FromBits;
    BitsOfFromBits(Bits(buf));
    BitsDetermineBuffer(FromBits(Bits(buf)), buf);
  }

  /** The low bits of a byte, as a number. */
  lemma {:induction false} NumOfLowBits(b: byte, w: nat)
    requires w <= 8
    ensures Num(LowBits(b, w)) == Low(Num(b), w)
  {
    hide LowBits, ShiftIn;
    if w == 0 {
      NoLowBits(b);
    } else {
      NumOfLowBits(b >> 1, w - 1);
      LowBitsShift(b, w);
      NumOfHalves(b);
      NumOfShiftIn(LowBits(b >> 1, w - 1), b & 1 == 1);
    }
  }

  lemma NoLowBits(b: byte)
    ensures Num(LowBits(b, 0)) == 0
  {
  }

  lemma LowBitsShift(b: byte, w: nat)
    requires 0 < w <= 8
    ensures LowBits(b, w) == ShiftIn(LowBits(b >> 1, w - 1), b & 1 == 1)
    ensures LowBits(b >> 1, w - 1) < 128
  {
  }

  lemma NumOfHalves(b: byte)
    ensures Num(b >> 1) == Num(b) / 2 && (b & 1 == 1 <==> Num(b) % 2 == 1)
  {
  }

  lemma NumOfShiftIn(x: byte, bit: bool)
    requires x < 128
    ensures Num(ShiftIn(x, bit)) == 2 * Num(x) + (if bit then 1 else 0)
  {
  }

  /** Cutting to a byte on the way does not matter for the low w bits. */
  lemma LowThroughByte(a: nat, b: nat, w: nat)
    requires w <= 8
    ensures Low((a + b % 256) % 256, w) == Low(a + b, w)
  {
    var x, m := (a + b % 256) % 256, b / 256 + (a + b % 256) / 256;
    assert a + b == x + 256 * m;
    LowPeriodic(x, m, 8, w);
    ByteShift(m);
  }

  lemma ByteShift(m: nat)
    ensures Shl(m, 8) == 256 * m
  {
    ShlIsMul(m, 8);
    assert Pow2(8) == 256;
  }

  // ---- bits of bytes as bits of numbers ----------------------------------------------------

  lemma LowBitsGrowIffBit(x: byte, j: nat)
    requires j < 8
    ensures LowBits(x, j + 1) != LowBits(x, j) <==> LowBit(x, j)
  {
    if j == 0 {} else if j == 1 {} else if j == 2 {} else if j == 3 {}
    else if j == 4 {} else if j == 5 {} else if j == 6 {}
  }

  lemma LowBitIsNumberBit(x: byte, j: nat)
    requires j < 8
    ensures LowBit(x, j) <==> HasBit(Num(x), j)
  {
    hide Num, LowBit, LowBits, HasBit;
    LowBitsGrowIffBit(x, j);
    NumOfLowBits(x, j);
    NumOfLowBits(x, j + 1);
    OrderOfNums(LowBits(x, j + 1), LowBits(x, j));
    LowGrowsIffBit(Num(x), j);
  }

  /** Bit p of the bit string is bit 7 - p % 8 of the number in byte p / 8. */
  lemma BitIsNumberBit(buf: seq<byte>, p: nat)
    requires p < 8 * |buf|
    ensures Bits(buf)[p] <==> HasBit(Num(buf[p / 8]), 7 - p % 8)
  {
    hide LowBit, Num;
    LowBitIsNumberBit(buf[p / 8], 7 - p % 8);
  }
}

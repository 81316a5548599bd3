/** The shift-and-mask expressions that patch a bit field in one byte or across two, and what
    they do to the buffer's bit string. */
module AcFields {
  import opened AcBits

  // ---- the patched bytes, as shift-and-mask expressions ------------------------------

  /** Mask of the bits outside [s, e) of a byte. */
  function OuterMask(s: byte, e: byte): byte
    requires s < 8 && e <= 8
  {
    (0xFF << (8 - s)) | (0xFF >> e)
  }

  function ByteSet(o: byte, raw: byte, s: byte, e: byte): byte
    requires s <= e <= 8 && s < 8
  {
    (o & OuterMask(s, e)) | ((raw << (8 - s - (e - s))) & !OuterMask(s, e))
  }

  function ByteValue(o: byte, s: byte, e: byte): byte
    requires s <= e <= 8 && s < 8
  {
    (o & !OuterMask(s, e)) >> (8 - e)
  }

  function ByteAdd(o: byte, raw: byte, s: byte, e: byte): byte
    requires s <= e <= 8 && s < 8
  {
    (o & OuterMask(s, e)) | ((Plus(ByteValue(o, s, e), raw) << (8 - e)) & !OuterMask(s, e))
  }

  /** The part of a straddling field of 8 - s + e bits that goes to the upper byte. */
  function TopPart(raw: byte, s: byte, e: byte): byte
    requires 1 <= e <= s < 8
  {
    ((0xFF >> (8 - (8 - s + e))) & raw) >> e
  }

  function HighSet(o: byte, raw: byte, s: byte, e: byte): byte
    requires 1 <= e <= s < 8
  {
    (o & (0xFF << (8 - s))) | TopPart(raw, s, e)
  }

  function LowSet(o: byte, raw: byte, s: byte, e: byte): byte
    requires 1 <= e <= s < 8
  {
    (o & (0xFF >> e)) | (((0xFF >> (8 - (8 - s + e))) & raw) << (8 - e))
  }

  function PairValue(hi: byte, lo: byte, s: byte, e: byte): byte
    requires 1 <= e <= s < 8
  {
    ((hi & !(0xFF << (8 - s))) << e) | ((lo & !(0xFF >> e)) >> (8 - e))
  }

  // ---- the same, bit by bit ------------------------------------------------------------

  lemma ByteSetB(o: byte, raw: byte, s: byte, e: byte, k: byte)
    requires s <= e <= 8 && s < 8 && k < 8
    ensures BitB(ByteSet(o, raw, s, e), k) == if s <= k < e then LowBitB(raw, e - 1 - k) else BitB(o, k)
  {
  }

  /** Adding is setting to the field's value plus the amount. */
  lemma ByteAddIsSet(o: byte, raw: byte, s: byte, e: byte)
    requires s <= e <= 8 && s < 8
    ensures ByteAdd(o, raw, s, e) == ByteSet(o, Plus(ByteValue(o, s, e), raw), s, e)
  {
    hide OuterMask, ByteValue, Plus;
    assert 8 - s - (e - s) == 8 - e;
  }

  lemma ByteValueB(o: byte, s: byte, e: byte, j: byte)
    requires s <= e <= 8 && s < 8 && j < 8
    ensures LowBitB(ByteValue(o, s, e), j) == (j < e - s && BitB(o, e - 1 - j))
  {
  }

  lemma OrB(a: byte, b: byte, k: byte)
    requires k < 8
    ensures BitB(a | b, k) == (BitB(a, k) || BitB(b, k))
  {
  }

  lemma TopPartB(raw: byte, s: byte, e: byte, k: byte)
    requires 1 <= e <= s < 8 && k < 8
    ensures BitB(TopPart(raw, s, e), k) == (s <= k && LowBitB(raw, e + 7 - k))
  {
  }

  lemma KeptTopB(o: byte, s: byte, k: byte)
    requires s < 8 && k < 8
    ensures BitB(o & (0xFF << (8 - s)), k) == (k < s && BitB(o, k))
  {
  }

  lemma HighSetB(o: byte, raw: byte, s: byte, e: byte, k: byte)
    requires 1 <= e <= s < 8 && k < 8
    ensures BitB(HighSet(o, raw, s, e), k) == if s <= k then LowBitB(raw, e + 7 - k) else BitB(o, k)
  {
    hide TopPart, BitB, LowBitB;
    OrB(o & (0xFF << (8 - s)), TopPart(raw, s, e), k);
    KeptTopB(o, s, k);
    TopPartB(raw, s, e, k);
  }

  lemma LowSetB(o: byte, raw: byte, s: byte, e: byte, k: byte)
    requires 1 <= e <= s < 8 && k < 8
    ensures BitB(LowSet(o, raw, s, e), k) == if k < e then LowBitB(raw, e - 1 - k) else BitB(o, k)
  {
  }

  lemma PairValueB(hi: byte, lo: byte, s: byte, e: byte, j: byte)
    requires 1 <= e <= s < 8 && j < 8
    ensures LowBitB(PairValue(hi, lo, s, e), j)
      == if j < e then BitB(lo, e - 1 - j) else j < 8 - s + e && BitB(hi, e + 7 - j)
  {
  }

  // ---- the same, with numbers for positions ------------------------------------------------

  lemma SmallNums()
    ensures Num(0) == 0 && Num(1) == 1 && Num(7) == 7 && Num(8) == 8
  {
  }

  /** Places within a byte, as bytes and as numbers. */
  lemma Places(s: byte, e: byte, k: nat)
    requires s <= 8 && e <= 8 && k < 8
    ensures var kb := ByteOf(k);
      && kb < 8 && Num(kb) == k && Num(s) <= 8 && Num(e) <= 8
      && (s <= kb <==> Num(s) <= k) && (kb < e <==> k < Num(e))
      && (kb < e ==> e - 1 - kb < 8 && Num(e - 1 - kb) == Num(e) - 1 - k)
      && (e <= s && s <= kb ==> e + 7 - kb < 8 && Num(e + 7 - kb) == Num(e) + 7 - k)
  {
    hide Num;
    var kb := ByteOf(k);
    NumOfSmall(k);
    SmallNums();
    OrderOfNums(s, 8);
    OrderOfNums(e, 8);
    OrderOfNums(s, kb);
    OrderOfNums(kb, e);
    OrderOfNums(8, kb);
    if kb < e {
      SubIsExact(e, 1);
      SubIsExact(e - 1, kb);
    }
    AddIsModular(e, 7);
    OrderOfNums(kb, e + 7);
    if kb <= e + 7 {
      SubIsExact(e + 7, kb);
    }
  }

  lemma ByteSetBit(o: byte, raw: byte, s: byte, e: byte, k: nat)
    requires s <= e <= 8 && s < 8 && k < 8
    ensures Num(e) <= 8
    ensures Bit(ByteSet(o, raw, s, e), k) == if Num(s) <= k < Num(e) then LowBit(raw, Num(e) - 1 - k) else Bit(o, k)
  {
    hide Bit, LowBit, BitB, LowBitB, Num, ByteSet;
    var kb := ByteOf(k);
    Places(s, e, k);
    ByteSetB(o, raw, s, e, kb);
    BitByShift(o, kb);
    BitByShift(ByteSet(o, raw, s, e), kb);
    if kb < e {
      LowBitByShift(raw, e - 1 - kb);
    }
  }

  lemma HighSetBit(o: byte, raw: byte, s: byte, e: byte, k: nat)
    requires 1 <= e <= s < 8 && k < 8
    ensures 1 <= Num(e) <= Num(s) < 8
    ensures Bit(HighSet(o, raw, s, e), k) == if Num(s) <= k then LowBit(raw, Num(e) + 7 - k) else Bit(o, k)
  {
    hide Bit, LowBit, BitB, LowBitB, Num, HighSet;
    var kb := ByteOf(k);
    Places(s, e, k);
    SmallNums();
    OrderOfNums(1, e);
    OrderOfNums(e, s);
    OrderOfNums(8, s);
    HighSetB(o, raw, s, e, kb);
    BitByShift(o, kb);
    BitByShift(HighSet(o, raw, s, e), kb);
    if s <= kb {
      LowBitByShift(raw, e + 7 - kb);
    }
  }

  lemma LowSetBit(o: byte, raw: byte, s: byte, e: byte, k: nat)
    requires 1 <= e <= s < 8 && k < 8
    ensures Num(e) <= 8
    ensures Bit(LowSet(o, raw, s, e), k) == if k < Num(e) then LowBit(raw, Num(e) - 1 - k) else Bit(o, k)
  {
    hide Bit, LowBit, BitB, LowBitB, Num, LowSet;
    var kb := ByteOf(k);
    Places(s, e, k);
    LowSetB(o, raw, s, e, kb);
    BitByShift(o, kb);
    BitByShift(LowSet(o, raw, s, e), kb);
    if kb < e {
      LowBitByShift(raw, e - 1 - kb);
    }
  }

  lemma ByteValueBit(o: byte, s: byte, e: byte, j: nat)
    requires s <= e <= 8 && s < 8 && j < 8
    ensures Num(s) <= Num(e) <= 8
    ensures LowBit(ByteValue(o, s, e), j) == (j < Num(e) - Num(s) && Bit(o, Num(e) - 1 - j))
  {
    hide Bit, LowBit, BitB, LowBitB, Num, ByteValue;
    var jb := ByteOf(j);
    Places(s, e, j);
    SubIsExact(e, s);
    OrderOfNums(s, e);
    OrderOfNums(e - s, jb);
    ByteValueB(o, s, e, jb);
    LowBitByShift(ByteValue(o, s, e), jb);
    if jb < e - s {
      BitByShift(o, e - 1 - jb);
    }
  }

  lemma PairValueBit(hi: byte, lo: byte, s: byte, e: byte, j: nat)
    requires 1 <= e <= s < 8 && j < 8
    ensures 1 <= Num(e) <= Num(s) < 8
    ensures LowBit(PairValue(hi, lo, s, e), j)
      == if j < Num(e) then Bit(lo, Num(e) - 1 - j)
         else j < 8 - Num(s) + Num(e) && Bit(hi, Num(e) + 7 - j)
  {
    hide Bit, LowBit, BitB, LowBitB, Num, PairValue;
    var jb := ByteOf(j);
    Places(s, e, j);
    Places(e, e, j);
    SmallNums();
    OrderOfNums(1, e);
    OrderOfNums(e, s);
    OrderOfNums(8, s);
    SubIsExact(8, s);
    AddIsModular(8 - s, e);
    OrderOfNums(8 - s + e, jb);
    PairValueB(hi, lo, s, e, jb);
    LowBitByShift(PairValue(hi, lo, s, e), jb);
    if jb < e {
      BitByShift(lo, e - 1 - jb);
    } else if jb < 8 - s + e {
      BitByShift(hi, e + 7 - jb);
    }
  }

  // ---- the same, on the bit string of a buffer -----------------------------------------------

  /** The places computed from a field's start and end bits.  The end less one is an int before
      it is shifted and cut to a byte, so that end 0 gives 255. */
  function HiByte(start: byte): byte { start >> 3 }
  function LoByte(end: byte): byte { if end == 0 then 255 else (end - 1) >> 3 }
  function StartInByte(start: byte): byte { start - (HiByte(start) << 3) }
  function EndInByte(end: byte): byte { end - (LoByte(end) << 3) }

  lemma FieldPlaces(start: byte, end: byte)
    requires end != 0
    ensures Num(HiByte(start)) == Num(start) / 8 && Num(LoByte(end)) == (Num(end) - 1) / 8
    ensures StartInByte(start) < 8 && Num(StartInByte(start)) == Num(start) % 8
    ensures 1 <= EndInByte(end) <= 8 && Num(EndInByte(end)) == (Num(end) - 1) % 8 + 1
  {
    PositionParts(start);
    PositionParts(end - 1);
    PreviousNum(end);
    PlacesInByte(start, end);
    hide Num;
    EndIsNext(end);
    NextNum(end - 1 - (LoByte(end) << 3));
  }

  lemma EndIsNext(end: byte)
    requires end != 0
    ensures end - 1 - (LoByte(end) << 3) + 1 == EndInByte(end)
  {
  }

  lemma PlacesInByte(start: byte, end: byte)
    requires end != 0
    ensures StartInByte(start) < 8 && 1 <= EndInByte(end) <= 8
  {
  }

  /** The field [start, end) is one the patch code can handle: 1 to 8 bits inside the buffer.
      (Zero bits are harmless too.) */
  predicate FieldFits(start: nat, end: nat, size: nat) {
    start <= end <= start + 8 && 0 < end <= 8 * size
  }

  /** The field starts in a later byte than it ends in. */
  predicate Backwards(start: nat, end: nat) {
    0 < end && (end - 1) / 8 < start / 8
  }

  /** End 0 neither fits nor is backwards: whatever the start, the patch code would take the
      two-byte branch and access byte 255, which no code has. */
  lemma EndZeroLeavesCode(start: byte, size: nat)
    requires size < 256
    ensures HiByte(start) < LoByte(0) && Num(LoByte(0)) >= size
    ensures !FieldFits(Num(start), 0, size) && !Backwards(Num(start), 0)
  {
    hide Num;
    NumOfEnds();
  }

  lemma OneBytePlaces(start: byte, end: byte, size: nat)
    requires FieldFits(Num(start), Num(end), size) && HiByte(start) == LoByte(end)
    ensures Num(LoByte(end)) < size
    ensures StartInByte(start) < 8 && StartInByte(start) <= EndInByte(end) <= 8
    ensures Num(StartInByte(start)) < 8 && Num(EndInByte(end)) <= 8
    ensures Num(start) == 8 * Num(LoByte(end)) + Num(StartInByte(start))
    ensures Num(end) == 8 * Num(LoByte(end)) + Num(EndInByte(end))
  {
    hide Num, HiByte, LoByte, StartInByte, EndInByte;
    PreviousNum(end);
    FieldPlaces(start, end);
    OrderOfNums(StartInByte(start), EndInByte(end));
  }

  /** Bits [s, e) of byte i are set. */
  lemma OneByteSet(buf: seq<byte>, i: nat, s: byte, e: byte, raw: byte)
    requires i < |buf| && s <= e <= 8 && s < 8
    ensures Num(s) <= Num(e) <= 8
    ensures Bits(buf[i := ByteSet(buf[i], raw, s, e)]) == SetField(Bits(buf), 8 * i + Num(s), 8 * i + Num(e), raw)
  {
    hide Bit, LowBit, ByteSet, Num;
    OrderOfNums(s, e);
    OrderOfNums(e, 8);
    SmallNums();
    var a, b := Bits(buf[i := ByteSet(buf[i], raw, s, e)]), SetField(Bits(buf), 8 * i + Num(s), 8 * i + Num(e), raw);
    forall p | 0 <= p < 8 * |buf|
      ensures a[p] == b[p]
    {
      if p / 8 == i {
        ByteSetBit(buf[i], raw, s, e, p % 8);
      }
    }
  }

  lemma OneByteValue(buf: seq<byte>, i: nat, s: byte, e: byte)
    requires i < |buf| && s <= e <= 8 && s < 8
    ensures Num(s) <= Num(e) <= 8
    ensures ByteValue(buf[i], s, e) == FieldValue(Bits(buf), 8 * i + Num(s), 8 * i + Num(e))
  {
    hide Bit, LowBit, ByteValue, Num, FieldValue;
    OrderOfNums(s, e);
    OrderOfNums(e, 8);
    SmallNums();
    var v, f := ByteValue(buf[i], s, e), FieldValue(Bits(buf), 8 * i + Num(s), 8 * i + Num(e));
    forall j | 0 <= j < 8
      ensures LowBit(v, j) == LowBit(f, j)
    {
      ByteValueBit(buf[i], s, e, j);
      FieldValueBit(Bits(buf), 8 * i + Num(s), 8 * i + Num(e), j);
    }
    LowBitsDetermine(v, f);
  }

  lemma TwoBytePlaces(start: byte, end: byte, size: nat)
    requires FieldFits(Num(start), Num(end), size) && Num(HiByte(start)) < Num(LoByte(end))
    ensures Num(LoByte(end)) == Num(HiByte(start)) + 1 < size
    ensures 1 <= EndInByte(end) <= StartInByte(start) < 8
    ensures 1 <= Num(EndInByte(end)) <= Num(StartInByte(start)) < 8
    ensures Num(start) == 8 * Num(HiByte(start)) + Num(StartInByte(start))
    ensures Num(end) == 8 * Num(LoByte(end)) + Num(EndInByte(end))
  {
    hide Num, HiByte, LoByte, StartInByte, EndInByte;
    PreviousNum(end);
    FieldPlaces(start, end);
    OrderOfNums(EndInByte(end), StartInByte(start));
  }

  lemma StraddlePlaces(s: byte, e: byte)
    requires 1 <= e <= s < 8
    ensures 1 <= Num(e) <= Num(s) < 8
  {
    hide Num;
    SmallNums();
    OrderOfNums(1, e);
    OrderOfNums(e, s);
    OrderOfNums(8, s);
  }

  /** Bits s.. of byte h and bits ..e of the next byte are set. */
  lemma TwoByteSet(buf: seq<byte>, h: nat, s: byte, e: byte, raw: byte)
    requires h + 1 < |buf| && 1 <= e <= s < 8
    ensures 1 <= Num(e) <= Num(s) < 8
    ensures Bits(buf[h := HighSet(buf[h], raw, s, e)][h + 1 := LowSet(buf[h + 1], raw, s, e)])
         == SetField(Bits(buf), 8 * h + Num(s), 8 * (h + 1) + Num(e), raw)
  {
    hide Bit, LowBit, HighSet, LowSet, Num;
    StraddlePlaces(s, e);
    var u := buf[h := HighSet(buf[h], raw, s, e)][h + 1 := LowSet(buf[h + 1], raw, s, e)];
    var a, b := Bits(u), SetField(Bits(buf), 8 * h + Num(s), 8 * (h + 1) + Num(e), raw);
    forall p | 0 <= p < 8 * |buf|
      ensures a[p] == b[p]
    {
      if p / 8 == h {
        HighSetBit(buf[h], raw, s, e, p % 8);
      } else if p / 8 == h + 1 {
        LowSetBit(buf[h + 1], raw, s, e, p % 8);
      }
    }
  }

  lemma TwoByteValue(buf: seq<byte>, h: nat, s: byte, e: byte)
    requires h + 1 < |buf| && 1 <= e <= s < 8
    ensures 1 <= Num(e) <= Num(s) < 8
    ensures PairValue(buf[h], buf[h + 1], s, e) == FieldValue(Bits(buf), 8 * h + Num(s), 8 * (h + 1) + Num(e))
  {
    hide Bit, LowBit, PairValue, Num, FieldValue;
    StraddlePlaces(s, e);
    var v, f := PairValue(buf[h], buf[h + 1], s, e), FieldValue(Bits(buf), 8 * h + Num(s), 8 * (h + 1) + Num(e));
    forall j | 0 <= j < 8
      ensures LowBit(v, j) == LowBit(f, j)
    {
      PairValueBit(buf[h], buf[h + 1], s, e, j);
      FieldValueBit(Bits(buf), 8 * h + Num(s), 8 * (h + 1) + Num(e), j);
    }
    LowBitsDetermine(v, f);
  }
}

/** Applying parameter tables to the code buffer, one patch after another. */
module AcApply {
  import opened AcBits
  import opened AcFields

  // ---- one field -------------------------------------------------------------------------

  /** The bit string after patching a field: set to raw, or, for a temperature, raw added. */
  function PatchField(bs: seq<bool>, start: nat, end: nat, raw: byte, isTemp: bool): (r: seq<bool>)
    requires start <= end <= |bs| && end - start <= 8
    ensures |r| == |bs|
  {
    SetField(bs, start, end, if isTemp then Plus(FieldValue(bs, start, end), raw) else raw)
  }

  /** The buffer after the same patch. */
  function Patch2(buf: seq<byte>, start: nat, end: nat, raw: byte, isTemp: bool): (r: seq<byte>)
    requires start <= end <= 8 * |buf| && end - start <= 8
    ensures |r| == |buf|
  {
    FromBits(PatchField(Bits(buf), start, end, raw, isTemp))
  }

  lemma BitsOfPatch2(buf: seq<byte>, start: nat, end: nat, raw: byte, isTemp: bool)
    requires start <= end <= 8 * |buf| && end - start <= 8
    ensures Bits(Patch2(buf, start, end, raw, isTemp)) == PatchField(Bits(buf), start, end, raw, isTemp)
  {
    hide PatchField, Bits, FromBits;
    BitsOfFromBits(PatchField(Bits(buf), start, end, raw, isTemp));
  }

  /** The one-byte branch. */
  method PatchInByte(dc: array<byte>, i: nat, s: byte, e: byte, raw: byte, isTemp: bool)
    requires i < dc.Length && s <= e <= 8 && s < 8
    modifies dc
    ensures Num(s) <= Num(e) <= 8
    ensures Bits(dc[..]) == PatchField(Bits(old(dc[..])), 8 * i + Num(s), 8 * i + Num(e), raw, isTemp)
  {
    hide Num, Plus, ByteSet, ByteAdd, ByteValue, FieldValue, SetField, Bits, OuterMask;
    ghost var was := dc[..];
    var mask := OuterMask(s, e);
    var origin := dc[i];
    OneByteValue(was, i, s, e);
    if isTemp {
      OneByteSet(was, i, s, e, Plus(ByteValue(origin, s, e), raw));
      ByteAddIsSet(origin, raw, s, e);
      dc[i] := ByteAdd(origin, raw, s, e);
    } else {
      OneByteSet(was, i, s, e, raw);
      dc[i] := ByteSet(origin, raw, s, e);
    }
    assert dc[..] == was[i := dc[i]];
  }

  /** The two-byte branch. */
  method PatchTwoBytes(dc: array<byte>, h: nat, s: byte, e: byte, raw: byte, isTemp: bool)
    requires h + 1 < dc.Length && 1 <= e <= s < 8
    modifies dc
    ensures 1 <= Num(e) <= Num(s) < 8
    ensures Bits(dc[..]) == PatchField(Bits(old(dc[..])), 8 * h + Num(s), 8 * (h + 1) + Num(e), raw, isTemp)
  {
    hide Num, Plus, HighSet, LowSet, PairValue, FieldValue, SetField, Bits;
    ghost var was := dc[..];
    var rawValue := raw;
    var originHi, originLo := dc[h], dc[h + 1];
    var value := PairValue(originHi, originLo, s, e);
    TwoByteValue(was, h, s, e);
    if isTemp {
      PlusLaws(rawValue, value, 0);
      rawValue := Plus(rawValue, value);
    }
    dc[h] := HighSet(originHi, rawValue, s, e);
    dc[h + 1] := LowSet(originLo, rawValue, s, e);
    TwoByteSet(was, h, s, e, rawValue);
    assert dc[..] == was[h := HighSet(was[h], rawValue, s, e)][h + 1 := LowSet(was[h + 1], rawValue, s, e)];
  }

  /** Patches the field given by a table triple: start bit, end bit, value.  A field that
      starts in a later byte than it ends in is refused. */
  method ApplyType2(dc: array<byte>, seg: seq<byte>, cur: nat, isTemp: bool) returns (ok: bool)
    requires |seg| % 3 == 0 ==> cur + 2 < |seg|
    requires |seg| % 3 == 0 ==>
      FieldFits(Num(seg[cur]), Num(seg[cur + 1]), dc.Length) || Backwards(Num(seg[cur]), Num(seg[cur + 1]))
    modifies dc
    ensures ok <==> |seg| % 3 == 0 && !Backwards(Num(seg[cur]), Num(seg[cur + 1]))
    ensures dc[..] == if ok then Patch2(old(dc[..]), Num(seg[cur]), Num(seg[cur + 1]), seg[cur + 2], isTemp)
                      else old(dc[..])
  {
    hide Num, HiByte, LoByte, StartInByte, EndInByte, PatchField, Patch2, Bits;
    if |seg| % 3 != 0 {
      return false;
    }
    var start, end, raw := seg[cur], seg[cur + 1], seg[cur + 2];
    ghost var was := dc[..];
    PreviousNum(end);
    FieldPlaces(start, end);
    OrderOfNums(HiByte(start), LoByte(end));
    if HiByte(start) == LoByte(end) {
      OneBytePlaces(start, end, dc.Length);
      PatchInByte(dc, Num(LoByte(end)), StartInByte(start), EndInByte(end), raw, isTemp);
    } else {
      if HiByte(start) > LoByte(end) {
        return false;
      }
      TwoBytePlaces(start, end, dc.Length);
      PatchTwoBytes(dc, Num(HiByte(start)), StartInByte(start), EndInByte(end), raw, isTemp);
    }
    BitsArePatched(was, dc[..], Num(start), Num(end), raw, isTemp);
    return true;
  }

  lemma BitsArePatched(was: seq<byte>, now: seq<byte>, start: nat, end: nat, raw: byte, isTemp: bool)
    requires start <= end <= 8 * |was| && end - start <= 8
    requires Bits(now) == PatchField(Bits(was), start, end, raw, isTemp)
    ensures now == Patch2(was, start, end, raw, isTemp)
  {
    hide PatchField, Bits, Patch2;
    BitsOfPatch2(was, start, end, raw, isTemp);
    BitsDetermineBuffer(now, Patch2(was, start, end, raw, isTemp));
  }

  // ---- one byte --------------------------------------------------------------------------

  function Patch1(buf: seq<byte>, pos: nat, value: byte, isTemp: bool): (r: seq<byte>)
    requires pos < |buf|
    ensures |r| == |buf|
  {
    buf[pos := if isTemp then Plus(buf[pos], value) else value]
  }

  /** Patches the byte given by a table pair: position, value. */
  method ApplyType1(dc: array<byte>, seg: seq<byte>, cur: nat, isTemp: bool) returns (ok: bool)
    requires |seg| % 2 == 0 ==> cur + 1 < |seg| && Num(seg[cur]) < dc.Length
    modifies dc
    ensures ok <==> |seg| % 2 == 0
    ensures dc[..] == if ok then Patch1(old(dc[..]), Num(seg[cur]), seg[cur + 1], isTemp) else old(dc[..])
  {
    hide Num, Plus;
    if |seg| % 2 != 0 {
      return false;
    }
    var pos := Num(seg[cur]);
    if isTemp {
      dc[pos] := Plus(dc[pos], seg[cur + 1]);
    } else {
      dc[pos] := seg[cur + 1];
    }
    return true;
  }

  // ---- tables ------------------------------------------------------------------------------

  datatype Put = Put(pos: nat, value: byte)
  datatype Field = Field(start: nat, end: nat, raw: byte)

  function Puts(seg: seq<byte>): seq<Put> {
    seq(|seg| / 2, k requires 0 <= k < |seg| / 2 => Put(Num(seg[2 * k]), seg[2 * k + 1]))
  }

  function Fields(seg: seq<byte>): seq<Field> {
    seq(|seg| / 3, k requires 0 <= k < |seg| / 3 => Field(Num(seg[3 * k]), Num(seg[3 * k + 1]), seg[3 * k + 2]))
  }

  predicate PutsFit(puts: seq<Put>, size: nat) {
    forall k :: 0 <= k < |puts| ==> puts[k].pos < size
  }

  /** The entry starts in a later byte than it ends in; it is refused. */
  predicate Refused(f: Field) {
    Backwards(f.start, f.end)
  }

  predicate EntryFits(f: Field, size: nat) {
    Refused(f) || FieldFits(f.start, f.end, size)
  }

  predicate FieldsFit(fs: seq<Field>, size: nat) {
    forall k :: 0 <= k < |fs| ==> EntryFits(fs[k], size)
  }

  /** One entry of a table: patches its field, or nothing. */
  function PatchEntry(buf: seq<byte>, f: Field, isTemp: bool): (r: seq<byte>)
    requires EntryFits(f, |buf|)
    ensures |r| == |buf|
  {
    if Refused(f) then buf else Patch2(buf, f.start, f.end, f.raw, isTemp)
  }

  function PutAll(buf: seq<byte>, puts: seq<Put>, isTemp: bool): (r: seq<byte>)
    requires PutsFit(puts, |buf|)
    ensures |r| == |buf|
  {
    if puts == [] then buf
    else var p := puts[|puts| - 1]; Patch1(PutAll(buf, puts[..|puts| - 1], isTemp), p.pos, p.value, isTemp)
  }

  function SetAll(buf: seq<byte>, fs: seq<Field>, isTemp: bool): (r: seq<byte>)
    requires FieldsFit(fs, |buf|)
    ensures |r| == |buf|
  {
    if fs == [] then buf
    else PatchEntry(SetAll(buf, fs[..|fs| - 1], isTemp), fs[|fs| - 1], isTemp)
  }

  /** A table whose length is not a whole number of entries is refused entry by entry. */
  predicate Table1Fits(seg: seq<byte>, size: nat) {
    |seg| % 2 == 0 ==> PutsFit(Puts(seg), size)
  }

  predicate Table2Fits(seg: seq<byte>, size: nat) {
    |seg| % 3 == 0 ==> FieldsFit(Fields(seg), size)
  }

  function Table1(buf: seq<byte>, seg: seq<byte>, isTemp: bool): (r: seq<byte>)
    requires Table1Fits(seg, |buf|)
    ensures |r| == |buf|
  {
    if |seg| % 2 == 0 then PutAll(buf, Puts(seg), isTemp) else buf
  }

  function Table2(buf: seq<byte>, seg: seq<byte>, isTemp: bool): (r: seq<byte>)
    requires Table2Fits(seg, |buf|)
    ensures |r| == |buf|
  {
    if |seg| % 3 == 0 then SetAll(buf, Fields(seg), isTemp) else buf
  }

  lemma PutNext(buf: seq<byte>, puts: seq<Put>, i: nat, isTemp: bool)
    requires PutsFit(puts, |buf|) && i < |puts|
    ensures PutsFit(puts[..i], |buf|) && PutsFit(puts[..i + 1], |buf|)
    ensures PutAll(buf, puts[..i + 1], isTemp)
      == Patch1(PutAll(buf, puts[..i], isTemp), puts[i].pos, puts[i].value, isTemp)
  {
    hide Patch1;
    assert puts[..i + 1][..i] == puts[..i];
  }

  lemma SetNext(buf: seq<byte>, fs: seq<Field>, i: nat, isTemp: bool)
    requires FieldsFit(fs, |buf|) && i < |fs|
    ensures FieldsFit(fs[..i], |buf|) && FieldsFit(fs[..i + 1], |buf|)
    ensures SetAll(buf, fs[..i + 1], isTemp) == PatchEntry(SetAll(buf, fs[..i], isTemp), fs[i], isTemp)
  {
    hide PatchEntry, EntryFits;
    assert fs[..i + 1][..i] == fs[..i];
  }

  method ApplyTable1(dc: array<byte>, seg: seq<byte>, isTemp: bool)
    requires Table1Fits(seg, dc.Length)
    modifies dc
    ensures dc[..] == Table1(old(dc[..]), seg, isTemp)
  {
    hide Num, PutAll, Patch1;
    ghost var was, puts := dc[..], Puts(seg);
    assert |seg| % 2 == 0 ==> PutAll(was, puts[..0], isTemp) == was by { PutNone(was, isTemp); assert puts[..0] == []; }
    var i := 0;
    while i < |seg|
      invariant 0 <= i && (|seg| % 2 == 0 ==> i % 2 == 0 && i <= |seg|)
      invariant |seg| % 2 == 0 ==> PutsFit(puts[..i / 2], |was|)
      invariant dc[..] == if |seg| % 2 == 0 then PutAll(was, puts[..i / 2], isTemp) else was
    {
      if |seg| % 2 == 0 {
        PutNext(was, puts, i / 2, isTemp);
      }
      var ok := ApplyType1(dc, seg, i, isTemp);
      i := i + 2;
    }
    assert |seg| % 2 == 0 ==> puts[..i / 2] == puts;
  }

  lemma PutNone(buf: seq<byte>, isTemp: bool)
    ensures PutAll(buf, [], isTemp) == buf
  {
  }

  lemma SetNone(buf: seq<byte>, isTemp: bool)
    ensures SetAll(buf, [], isTemp) == buf
  {
  }

  method ApplyTable2(dc: array<byte>, seg: seq<byte>, isTemp: bool)
    requires Table2Fits(seg, dc.Length)
    modifies dc
    ensures dc[..] == Table2(old(dc[..]), seg, isTemp)
  {
    hide Num, SetAll, Patch2;
    ghost var was, fs := dc[..], Fields(seg);
    assert |seg| % 3 == 0 ==> SetAll(was, fs[..0], isTemp) == was by { SetNone(was, isTemp); assert fs[..0] == []; }
    var i := 0;
    while i < |seg|
      invariant 0 <= i && (|seg| % 3 == 0 ==> i % 3 == 0 && i <= |seg|)
      invariant |seg| % 3 == 0 ==> FieldsFit(fs[..i / 3], |was|)
      invariant dc[..] == if |seg| % 3 == 0 then SetAll(was, fs[..i / 3], isTemp) else was
    {
      if |seg| % 3 == 0 {
        SetNext(was, fs, i / 3, isTemp);
      }
      var ok := ApplyType2(dc, seg, i, isTemp);
      i := i + 3;
    }
    assert |seg| % 3 == 0 ==> fs[..i / 3] == fs;
  }
}

/** Reading parameter tables: hex text, length-prefixed segments, and the dynamic form of
    the temperature tables. */
module AcParse {
  import opened AcBits

  // ---- hex text -------------------------------------------------------------------------------

  function CharToHex(c: char): byte {
    if '0' <= c <= '9' then ByteOf(c as int - '0' as int)
    else if 'a' <= c <= 'f' then ByteOf(c as int - 'a' as int + 10)
    else if 'A' <= c <= 'F' then ByteOf(c as int - 'A' as int + 10)
    else 0
  }

  function CharsToHex(hi: char, lo: char): byte {
    Plus(CharToHex(hi) << 4, CharToHex(lo))
  }

  function HalfByteToChar(h: byte): char
    requires h < 16
  {
    if h >= 10 then (Num(h) - 10 + 0x41) as char else (Num(h) + 0x30) as char
  }

  /** The two characters of a byte. */
  function HexOfByte(b: byte): string {
    [HalfByteToChar((b >> 4) & 0x0F), HalfByteToChar(b & 0x0F)]
  }

  function HexOf(data: seq<byte>): (text: string)
    ensures |text| == 2 * |data|
  {
    if data == [] then [] else HexOf(data[..|data| - 1]) + HexOfByte(data[|data| - 1])
  }

  /** The bytes of a text of character pairs; an odd last character is ignored. */
  function ReadHex(text: string): (data: seq<byte>)
    ensures |data| == |text| / 2
  {
    seq(|text| / 2, i requires 0 <= i < |text| / 2 => CharsToHex(text[2 * i], text[2 * i + 1]))
  }

  method StringToHexCommon(text: string, hexData: array<byte>, len: nat)
    requires 2 * len <= |text| && len <= hexData.Length
    modifies hexData
    ensures hexData[..len] == ReadHex(text[..2 * len])
    ensures hexData[len..] == old(hexData[len..])
  {
    hide CharsToHex;
    var i := 0;
    while i < len
      invariant 0 <= i <= len
      invariant forall k :: 0 <= k < i ==> hexData[k] == CharsToHex(text[2 * k], text[2 * k + 1])
      invariant hexData[len..] == old(hexData[len..])
    {
      hexData[i] := CharsToHex(text[2 * i], text[2 * i + 1]);
      i := i + 1;
    }
  }

  lemma HalfByteReadsBack(h: byte)
    requires h < 16
    ensures CharToHex(HalfByteToChar(h)) == h
  {
  }

  lemma ByteFromHalves(b: byte)
    ensures Plus(((b >> 4) & 0x0F) << 4, b & 0x0F) == b
  {
  }

  lemma HexByteReadsBack(b: byte)
    ensures CharsToHex(HexOfByte(b)[0], HexOfByte(b)[1]) == b
  {
    HalfByteReadsBack((b >> 4) & 0x0F);
    HalfByteReadsBack(b & 0x0F);
    ByteFromHalves(b);
  }

  /** Printing bytes as hex and reading the text gives the bytes back. */
  lemma {:induction false} HexReadsBack(data: seq<byte>)
    ensures ReadHex(HexOf(data)) == data
  {
    hide CharsToHex, HexOfByte;
    if data != [] {
      var n := |data| - 1;
      HexReadsBack(data[..n]);
      HexByteReadsBack(data[n]);
      var text, init := HexOf(data), HexOf(data[..n]);
      forall i | 0 <= i < |data|
        ensures ReadHex(text)[i] == data[i]
      {
        if i < n {
          assert text[2 * i] == init[2 * i] && text[2 * i + 1] == init[2 * i + 1];
          assert ReadHex(init)[i] == data[..n][i];
        }
      }
    }
  }

  // ---- length-prefixed segments -----------------------------------------------------------------

  /** Where the segment at `off` ends. */
  function SegmentEnd(data: seq<byte>, off: nat): nat
    requires off < |data|
  {
    off + 1 + Num(data[off])
  }

  /** Reading up to k segments from `off` on stays inside the data. */
  predicate WellFormed(data: seq<byte>, off: nat, k: nat)
    decreases k
  {
    k == 0 || (
      && off < |data| && SegmentEnd(data, off) <= |data|
      && (SegmentEnd(data, off) < |data| ==> WellFormed(data, SegmentEnd(data, off), k - 1)))
  }

  /** The segments read: up to k of them, or until the data is used up. */
  function Segments(data: seq<byte>, off: nat, k: nat): (segs: seq<seq<byte>>)
    requires WellFormed(data, off, k)
    ensures |segs| <= k
    decreases k
  {
    if k == 0 then [] else
      var end := SegmentEnd(data, off);
      [data[off + 1..end]] + (if end >= |data| then [] else Segments(data, end, k - 1))
  }

  lemma NextSegment(data: seq<byte>, off: nat, k: nat)
    requires k > 0 && WellFormed(data, off, k)
    ensures off < |data| && SegmentEnd(data, off) <= |data|
    ensures var end := SegmentEnd(data, off);
      if end < |data| then
        WellFormed(data, end, k - 1) && Segments(data, off, k) == [data[off + 1..end]] + Segments(data, end, k - 1)
      else Segments(data, off, k) == [data[off + 1..end]]
  {
    hide Num;
  }

  method ParseCompData(data: seq<byte>, off: nat) returns (seg: seq<byte>, next: nat)
    requires off < |data| && SegmentEnd(data, off) <= |data|
    ensures next == SegmentEnd(data, off) && seg == data[off + 1..next]
  {
    hide Num;
    var segLen := Num(data[off]);
    next := off + 1;
    if segLen == 0 {
      return [], next;
    }
    seg := data[next..next + segLen];
    next := next + segLen;
  }

  /** Fills one slot a segment; the slots beyond the last segment keep what they had. */
  method ParseCommonAcParameter(text: string, comps: array<seq<byte>>, withEnd: nat) returns (ghost count: nat)
    requires withEnd <= comps.Length && WellFormed(ReadHex(text), 0, withEnd)
    modifies comps
    ensures count == |Segments(ReadHex(text), 0, withEnd)| <= comps.Length
    ensures comps[..count] == Segments(ReadHex(text), 0, withEnd)
    ensures comps[count..] == old(comps[count..])
  {
    hide Num, ReadHex;
    var hexLen := |text| / 2;
    var hexData := new byte[hexLen];
    StringToHexCommon(text, hexData, hexLen);
    var data := hexData[..];
    assert data == ReadHex(text) by { EvenPart(text); assert data == hexData[..hexLen]; }
    count := FillSlots(data, comps, withEnd);
  }

  method FillSlots(data: seq<byte>, comps: array<seq<byte>>, withEnd: nat) returns (ghost count: nat)
    requires withEnd <= comps.Length && WellFormed(data, 0, withEnd)
    modifies comps
    ensures count == |Segments(data, 0, withEnd)| <= comps.Length
    ensures comps[..count] == Segments(data, 0, withEnd)
    ensures comps[count..] == old(comps[count..])
  {
    hide WellFormed, Segments, SegmentEnd;
    var off: nat, i: nat, done := 0, 0, withEnd == 0;
    NoSlots(data);
    while i < withEnd && !done
      invariant 0 <= i <= withEnd && forall j :: i <= j < comps.Length ==> comps[j] == old(comps[j])
      invariant done ==> comps[..i] == Segments(data, 0, withEnd)
      invariant !done ==> WellFormed(data, off, withEnd - i)
      invariant !done ==> comps[..i] + Segments(data, off, withEnd - i) == Segments(data, 0, withEnd)
    {
      NextSegment(data, off, withEnd - i);
      var seg, next := ParseCompData(data, off);
      ghost var before := comps[..i];
      comps[i] := seg;
      assert comps[..i + 1] == before + [seg];
      off := next;
      i := i + 1;
      done := off >= |data|;
      if !done {
        ghost var rest := Segments(data, off, withEnd - i);
        assert (before + [seg]) + rest == before + ([seg] + rest);
      }
    }
    if !done {
      NoMoreSlots(data, off);
      assert comps[..i] + [] == comps[..i];
    }
    count := i;
  }

  lemma NoSlots(data: seq<byte>)
    ensures WellFormed(data, 0, 0) && Segments(data, 0, 0) == []
  {
  }

  lemma NoMoreSlots(data: seq<byte>, off: nat)
    ensures WellFormed(data, off, 0) && Segments(data, off, 0) == []
  {
  }

  lemma EvenPart(text: string)
    ensures ReadHex(text[..2 * (|text| / 2)]) == ReadHex(text)
  {
  }

  // ---- printing segments ------------------------------------------------------------------------

  predicate AreSegments(segs: seq<seq<byte>>) {
    forall i :: 0 <= i < |segs| ==> |segs[i]| < 256
  }

  /** Each segment after its length. */
  function Print(segs: seq<seq<byte>>): seq<byte>
    requires AreSegments(segs)
  {
    if segs == [] then [] else [Trunc(|segs[0]|)] + segs[0] + Print(segs[1..])
  }

  function Min(a: nat, b: nat): nat {
    if a < b then a else b
  }

  /** A printed segment reads back where it stands. */
  lemma ReadOne(front: seq<byte>, seg: seq<byte>, rest: seq<byte>)
    requires |seg| < 256
    ensures var data, off := front + ([Trunc(|seg|)] + seg + rest), |front|;
      && data == front + ([Trunc(|seg|)] + seg) + rest
      && SegmentEnd(data, off) == off + 1 + |seg| == |data| - |rest|
      && data[off + 1..off + 1 + |seg|] == seg
  {
    hide Num, Trunc;
    NumOfTrunc(|seg|);
  }

  lemma PrintEmptyIff(segs: seq<seq<byte>>)
    requires AreSegments(segs)
    ensures Print(segs) == [] <==> segs == []
  {
  }

  lemma {:induction false} SegmentsReadBackAt(front: seq<byte>, segs: seq<seq<byte>>, k: nat)
    requires AreSegments(segs) && segs != []
    ensures var data := front + Print(segs);
      WellFormed(data, |front|, k) && Segments(data, |front|, k) == segs[..Min(k, |segs|)]
    decreases k
  {
    hide Num, Trunc;
    hide SegmentEnd;
    if k > 0 {
      var seg, rest := segs[0], segs[1..];
      var more := Print(rest);
      assert Print(segs) == [Trunc(|seg|)] + seg + more;
      hide Print;
      ReadOne(front, seg, more);
      PrintEmptyIff(rest);
      if rest != [] {
        SegmentsReadBackAt(front + ([Trunc(|seg|)] + seg), rest, k - 1);
      }
      assert segs[..Min(k, |segs|)] == [seg] + rest[..Min(k - 1, |rest|)];
    }
  }

  /** Printing segments as hex text and parsing the text gives the segments back, empty ones
      included, as many as there are slots. */
  lemma SegmentsReadBack(segs: seq<seq<byte>>, k: nat)
    requires AreSegments(segs) && segs != []
    ensures var text := HexOf(Print(segs));
      WellFormed(ReadHex(text), 0, k) && Segments(ReadHex(text), 0, k) == segs[..Min(k, |segs|)]
  {
    hide Print, HexOf, ReadHex, WellFormed, Segments;
    HexReadsBack(Print(segs));
    SegmentsReadBackAt([], segs, k);
    assert [] + Print(segs) == Print(segs);
  }
}

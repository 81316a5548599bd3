/** What the texts and tables of a binary say, character by character and tag by tag. */
module AcTextLaws {
  import opened Words
  import opened AcBits
  import opened AcChecksum
  import opened AcChecksumText
  import opened AcFrameText
  import opened AcFunctionTable
  import opened AcParse
  import opened AcProtocol
  import opened AcSetup
  import opened AcTable
  import opened AcTemperature
  import opened TextFields
  import AcBinary

  // ---- characters -----------------------------------------------------------------------------------

  /** The digits are worth their place, in either case. */
  lemma HexDigitsAre(i: nat)
    requires i < 16
    ensures Num(CharToHex("0123456789ABCDEF"[i])) == i && Num(CharToHex("0123456789abcdef"[i])) == i
  {
    hide ByteOf, Num;
    var upper, lower := "0123456789ABCDEF", "0123456789abcdef";
    NumOfSmall(i);
    if i < 10 {
      assert upper[i] as int == 0x30 + i && lower[i] as int == 0x30 + i;
    } else {
      assert upper[i] as int == 0x41 + (i - 10) && lower[i] as int == 0x61 + (i - 10);
    }
  }

  lemma PairNumber(hi: byte, lo: byte)
    requires Num(hi) < 16 && Num(lo) < 16
    ensures Num(Plus(hi << 4, lo)) == 16 * Num(hi) + Num(lo)
  {
    SmallHalf(hi);
    SmallHalf(lo);
    ShiftedHalf(hi, lo);
  }

  lemma SmallHalf(x: byte)
    requires Num(x) < 16
    ensures x < 16
  {
  }

  lemma ShiftedHalf(hi: byte, lo: byte)
    requires hi < 16 && lo < 16
    ensures Num((hi << 4) + lo) == 16 * Num(hi) + Num(lo)
  {
  }

  lemma CharBelow16(c: char)
    ensures Num(CharToHex(c)) < 16
  {
    hide ByteOf, Num;
    if '0' <= c <= '9' {
      NumOfSmall(c as int - '0' as int);
    } else if 'a' <= c <= 'f' {
      NumOfSmall(c as int - 'a' as int + 10);
    } else if 'A' <= c <= 'F' {
      NumOfSmall(c as int - 'A' as int + 10);
    } else {
      NumOfEnds();
    }
  }

  /** Byte i of a text is its characters 2 i and 2 i + 1, the first one worth sixteen times. */
  lemma HexByteIs(text: string, i: nat)
    requires 2 * i + 1 < |text|
    ensures Num(ReadHex(text)[i]) == 16 * Num(CharToHex(text[2 * i])) + Num(CharToHex(text[2 * i + 1]))
  {
    hide Num, CharToHex, Plus;
    CharBelow16(text[2 * i]);
    CharBelow16(text[2 * i + 1]);
    PairNumber(CharToHex(text[2 * i]), CharToHex(text[2 * i + 1]));
  }

  // ---- tables -----------------------------------------------------------------------------------------

  /** A segment is its length and its bytes. */
  lemma SegmentIs(seg: seq<byte>, levels: nat)
    requires |seg| < 256 && levels > 0
    ensures var text := HexOf([Trunc(|seg|)] + seg);
      WellFormed(ReadHex(text), 0, levels) && Segments(ReadHex(text), 0, levels) == [seg]
  {
    hide HexOf, ReadHex, WellFormed, Segments, Trunc;
    assert Print([seg]) == [Trunc(|seg|)] + seg;
    SegmentsReadBack([seg], levels);
  }

  /** An entry of a function table is its length and the function, counted with the bytes, and the
      bytes: they are the patches of slot id - 1. */
  lemma FunctionEntryIs(id: byte, patches: seq<byte>, slot: nat)
    requires |patches| < 255 && Num(id) != 8 && slot < 7
    ensures var text := HexOf([Trunc(|patches| + 1), id] + patches);
      && EntriesComplete(text)
      && |FunctionTable(text).comps| == 7
      && FunctionTable(text).comps[slot] == if Num(id) == slot + 1 then patches else []
  {
    hide HexOf, ReadHex, WellFormedEntries, Entries, FillAll, Trunc, Num;
    var e := Entry(id, patches);
    assert PrintEntries([e]) == [Trunc(|patches| + 1), id] + patches;
    PrintedSlotIsRead([e], if Num(id) == slot + 1 then 0 else 1, slot);
  }

  /** An entry of length 0 still names its function and has two bytes; any other has its length
      and one more. */
  lemma EntryEndIs(data: seq<byte>, off: nat)
    requires off < |data|
    ensures EntryEnd(data, off) == off + (if Num(data[off]) == 0 then 2 else Num(data[off]) + 1)
    ensures off + 2 <= EntryEnd(data, off) <= |data| ==>
      EntryAt(data, off) == Entry(data[off + 1], data[off + 2..EntryEnd(data, off)])
  {
    hide Num;
  }

  /** A checksum block that lists half bytes: length, kind, target, constant, and the list. */
  lemma ListedBlockIs(len: byte, kind: byte, target: byte, plus: byte, spec: seq<byte>)
    ensures ListBlock([len, kind, target, plus] + spec)
      == Block(Num(len), Num(kind), 0, 0, Num(target), plus, Nums(spec))
  {
    hide Num, Nums;
    assert ([len, kind, target, plus] + spec)[4..] == spec;
  }

  /** No text is two modes, "0" none, "1" swing only. */
  lemma SwingTextsAre(was: SwingInfo)
    ensures SwingInfoOf("", was) == SwingInfo(Normal, 2)
    ensures SwingInfoOf("0", was) == SwingInfo(NotSpecified, 0)
    ensures SwingInfoOf("1", was) == SwingInfo(SwingOnly, 1)
  {
  }

  // ---- numbers and delays -------------------------------------------------------------------------------

  /** Every further digit is worth one, and those before it ten times as much. */
  lemma {:induction false} DigitsRead(s: string, d: nat, acc: nat)
    requires d < 10 && forall i :: 0 <= i < |s| ==> IsDigit(s[i])
    ensures ReadDigits(s + ["0123456789"[d]], acc) == 10 * ReadDigits(s, acc) + d
    decreases |s|
  {
    assert "0123456789"[d] as int == 0x30 + d;
    var t := s + ["0123456789"[d]];
    if s == [] {
      assert t[1..] == [];
    } else {
      assert t[1..] == s[1..] + ["0123456789"[d]];
      DigitsRead(s[1..], d, 10 * acc + (s[0] as int - '0' as int));
    }
  }

  /** A delay is its position, an ampersand, and its times between commas. */
  lemma DelayTextIs(pos: string, times: seq<string>)
    requires times != [] && Free(pos, '&') && forall i :: 0 <= i < |times| ==> Free(times[i], ',')
    ensures var d := ReadDelay(pos + "&" + Join(times, ','));
      && d.pos == ToS16(Atoi(pos) % 0x1_0000)
      && |d.times| == |times| && forall i :: 0 <= i < |times| ==> d.times[i] == Atoi(times[i]) % 0x1_0000
  {
    hide Split, Join, Atoi, IndexOf;
    var s, n := pos + "&" + Join(times, ','), |pos|;
    IndexPastField(s, '&', 0, n);
    assert s[..n] == pos && s[n + 1..] == Join(times, ',');
    SplitJoin(times, ',');
  }

  // ---- the tag table --------------------------------------------------------------------------------------

  /** The offset of entry i, low byte first. */
  lemma OffsetsAre(data: seq<u8>, i: nat)
    requires |data| >= 59 && i < 29
    ensures AcBinary.Offsets(data)[i] == data[2 * i + 1] + 0x100 * data[2 * i + 2] as int
  {
  }

  /** Which entry of the tag table holds which table's text. */
  lemma TextsComeFrom(parts: seq<seq<u8>>)
    requires AcBinary.Printable(parts)
    ensures |parts| == 29 && AcBinary.TagsInside(AcBinary.Print(parts))
    ensures var ts := AcBinary.TextsOf(AcBinary.Print(parts));
      && ts.power1 == AcBinary.Chars(parts[7]) && ts.temp1 == AcBinary.Chars(parts[9])
      && ts.mode1 == AcBinary.Chars(parts[10]) && ts.speed1 == AcBinary.Chars(parts[11])
      && ts.swing1 == AcBinary.Chars(parts[12]) && ts.checksum == AcBinary.Chars(parts[13])
      && ts.function1 == AcBinary.Chars(parts[15]) && ts.temp2 == AcBinary.Chars(parts[16])
      && ts.mode2 == AcBinary.Chars(parts[17]) && ts.speed2 == AcBinary.Chars(parts[18])
      && ts.swing2 == AcBinary.Chars(parts[19]) && ts.function2 == AcBinary.Chars(parts[20])
      && ts.swingInfo == AcBinary.Chars(parts[26])
  {
    hide AcBinary.Print, AcBinary.TagBytes, AcBinary.TagsInside, AcBinary.Chars;
    AcBinary.PrintedTagsInside(parts);
    forall i: nat | i < 29
      ensures AcBinary.TagBytes(AcBinary.Print(parts), i) == parts[i]
    {
      AcBinary.PrintedTagReadsBack(parts, i);
    }
  }

  /** Tags 21 to 34 and 46 feed the tables they are for. */
  lemma TablesComeFrom(parts: seq<seq<u8>>, t: Tables)
    requires AcBinary.Printable(parts)
    requires AcBinary.TagsInside(AcBinary.Print(parts)) && IsParsed(t, AcBinary.TextsOf(AcBinary.Print(parts)))
    ensures |parts| == 29
    ensures IsTable(t.power1, AcBinary.Chars(parts[7]), 2)
    ensures IsTemp1(t.temp1, t.temp1Dynamic, AcBinary.Chars(parts[9]))
    ensures IsTable(t.mode1, AcBinary.Chars(parts[10]), 5) && IsTable(t.mode2, AcBinary.Chars(parts[17]), 5)
    ensures IsTable(t.speed1, AcBinary.Chars(parts[11]), 4) && IsTable(t.speed2, AcBinary.Chars(parts[18]), 4)
    ensures t.swingInfo.kind.Normal? ==>
      && IsTable(t.swing1, AcBinary.Chars(parts[12]), t.swingInfo.modeCount)
      && IsTable(t.swing2, AcBinary.Chars(parts[19]), t.swingInfo.modeCount)
    ensures IsChecksum(t.checksums, AcBinary.Chars(parts[13]))
    ensures EntriesComplete(AcBinary.Chars(parts[15])) && t.function1 == FunctionTable(AcBinary.Chars(parts[15]))
    ensures IsTemp2(t.temp2, t.temp2Dynamic, AcBinary.Chars(parts[16]))
    ensures EntriesComplete(AcBinary.Chars(parts[20])) && t.function2 == FunctionTable(AcBinary.Chars(parts[20]))
    ensures t.swingInfo == SwingInfoOf(AcBinary.Chars(parts[26]), SwingInfo(SwingOnly, 0))
  {
    hide AcBinary.Print, AcBinary.TextsOf, AcBinary.TagsInside, AcBinary.Chars;
    hide IsTable, IsTemp1, IsTemp2, IsChecksum, EntriesComplete, FunctionTable, SwingInfoOf;
    TextsComeFrom(parts);
  }
}

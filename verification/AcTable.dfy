/** Setting up parameter tables from the binary: levels without a segment stay empty, and the
    swing tables get one level for each mode the swing information lists. */
module AcTable {
  import opened AcBits
  import opened AcParse
  import opened AcProtocol

  /** The length kept for a table: the text's length as a byte, halved. */
  function KeptLen(textLen: nat): nat {
    textLen % 256 / 2
  }

  /** Segments for the first levels, nothing for the others. */
  function Padded(segs: seq<seq<byte>>, levels: nat): (comps: seq<seq<byte>>)
    requires |segs| <= levels
    ensures |comps| == levels
  {
    segs + seq(levels - |segs|, _ => [])
  }

  predicate LevelsComplete(text: string, levels: nat) {
    text != [] ==> WellFormed(ReadHex(text), 0, levels)
  }

  /** The table read from a text of segments. */
  predicate IsTable(t: Table, text: string, levels: nat) {
    if text == [] then t == ABSENT
    else WellFormed(ReadHex(text), 0, levels)
         && t == Table(KeptLen(|text|), Padded(Segments(ReadHex(text), 0, levels), levels))
  }

  /** Reads a power, mode, wind speed or swing table. */
  method ParseTable(text: string, levels: nat) returns (t: Table)
    requires LevelsComplete(text, levels)
    ensures IsTable(t, text, levels)
  {
    if text == [] {
      return ABSENT;
    }
    hide WellFormed, Segments, ReadHex;
    var comps := new seq<byte>[levels](_ => []);
    ghost var count := ParseCommonAcParameter(text, comps, levels);
    assert comps[..] == comps[..count] + comps[count..];
    t := Table(KeptLen(|text|), comps[..]);
  }

  /** The levels of a table whose memory has been cleared. */
  method ReadLevels(data: seq<byte>, levels: nat) returns (comps: seq<seq<byte>>)
    requires WellFormed(data, 0, levels)
    ensures comps == Padded(Segments(data, 0, levels), levels)
  {
    hide WellFormed, Segments;
    var slots := new seq<byte>[levels](_ => []);
    ghost var count := FillSlots(data, slots, levels);
    comps := slots[..];
    assert comps == slots[..count] + slots[count..];
  }

  /** Printed segments come back as the table's levels, in order and with nothing behind them;
      but the table counts as absent exactly when its data are a multiple of 128 bytes. */
  lemma PrintedTableReadsBack(segs: seq<seq<byte>>, levels: nat)
    requires AreSegments(segs) && 0 < |segs| <= levels
    ensures var text := HexOf(Print(segs));
      && text != [] && WellFormed(ReadHex(text), 0, levels)
      && Padded(Segments(ReadHex(text), 0, levels), levels) == segs + seq(levels - |segs|, _ => [])
      && (KeptLen(|text|) == 0 <==> |Print(segs)| % 128 == 0)
  {
    hide WellFormed, Segments, ReadHex, HexOf, Print, KeptLen;
    SegmentsReadBack(segs, levels);
    PrintEmptyIff(segs);
    assert segs[..|segs|] == segs;
    KeptLenOfHex(|Print(segs)|);
  }

  lemma KeptLenOfHex(n: nat)
    ensures KeptLen(2 * n) == n % 128
  {
    assert 2 * n % 256 == 2 * (n % 128);
  }

  // ---- the swing tables ------------------------------------------------------------------------

  /** The swing information of the tag text; a single other character changes nothing. */
  function SwingInfoOf(text: string, was: SwingInfo): SwingInfo {
    if text == [] then SwingInfo(Normal, 2)
    else if |text| > 1 then SwingInfo(Normal, (|text| + 1) / 2 % 256)
    else if text[0] == '0' then SwingInfo(NotSpecified, 0)
    else if text[0] == '1' then SwingInfo(SwingOnly, 1)
    else was
  }

  method ParseSwingInfo(text: string, was: SwingInfo) returns (ok: bool, info: SwingInfo)
    requires text != []
    ensures info == SwingInfoOf(text, was)
    ensures !ok <==> |text| == 1 && text[0] != '0' && text[0] != '1'
  {
    if 1 == |text| {
      if '0' == text[0] {
        return true, SwingInfo(NotSpecified, 0);
      } else if '1' == text[0] {
        return true, SwingInfo(SwingOnly, 1);
      } else {
        return false, was;
      }
    }
    return true, SwingInfo(Normal, (|text| + 1) / 2 % 256);
  }

  /** Modes of one character each, with a comma between them. */
  function ModeList(modes: string): string {
    if |modes| <= 1 then modes else [modes[0], ','] + ModeList(modes[1..])
  }

  lemma {:induction false} ModeListLength(modes: string)
    ensures |ModeList(modes)| == if modes == [] then 0 else 2 * |modes| - 1
  {
    if |modes| > 1 {
      ModeListLength(modes[1..]);
    }
  }

  /** A list of several modes counts all of them, up to 255. */
  lemma ListedModesAreCounted(modes: string, was: SwingInfo)
    requires |modes| > 1
    ensures SwingInfoOf(ModeList(modes), was) == SwingInfo(Normal, |modes| % 256)
  {
    hide ModeList;
    ModeListLength(modes);
    assert (2 * |modes| - 1 + 1) / 2 == |modes|;
  }

  /** The swing part of the parse: the information first, then, in normal mode only, the
      tables, with one level a mode, so that a present table has a level for every mode. */
  method ParseSwing(info: string, text1: string, text2: string) returns (si: SwingInfo, swing1: Table, swing2: Table)
    requires
      var n := SwingInfoOf(info, SwingInfo(SwingOnly, 0)).modeCount;
      LevelsComplete(text1, n) && LevelsComplete(text2, n)
    ensures si == SwingInfoOf(info, SwingInfo(SwingOnly, 0))
    ensures if si.kind.Normal? then IsTable(swing1, text1, si.modeCount) && IsTable(swing2, text2, si.modeCount)
            else swing1 == swing2 == ABSENT
    ensures swing1.len != 0 ==> si.kind.Normal? && |swing1.comps| == si.modeCount
    ensures swing2.len != 0 ==> si.kind.Normal? && |swing2.comps| == si.modeCount
  {
    hide WellFormed, Segments, ReadHex, Padded, KeptLen;
    si := SwingInfo(SwingOnly, 0);
    if info != [] {
      var ok;
      ok, si := ParseSwingInfo(info, si);
    } else {
      si := SwingInfo(Normal, 2);
    }
    swing1, swing2 := ABSENT, ABSENT;
    if si.kind.Normal? {
      swing1 := ParseTable(text1, si.modeCount);
      swing2 := ParseTable(text2, si.modeCount);
    }
  }
}

/** The whole parse of a protocol's tables, and when what it gives is one a call can use. */
module AcSetup {
  import opened AcBits
  import opened AcApply
  import opened AcChecksum
  import opened AcChecksumText
  import opened AcFrame
  import opened AcFunctionTable
  import opened AcParse
  import opened AcProtocol
  import opened AcTable
  import opened AcTemperature
  import TextFields

  /** The texts of the tags that hold tables; an absent tag has no text. */
  datatype Texts = Texts(power1: string, mode1: string, mode2: string, speed1: string, speed2: string,
                         swingInfo: string, swing1: string, swing2: string, temp1: string, temp2: string,
                         function1: string, function2: string, checksum: string)

  /** What the other tags say. */
  datatype Rest = Rest(defaultCode: seq<byte>, layout: Layout, soloMark: byte, rules: seq<ModeRules>)

  function SwingOf(ts: Texts): SwingInfo {
    SwingInfoOf(ts.swingInfo, SwingInfo(SwingOnly, 0))
  }

  /** What the lengths in the texts announce is there. */
  predicate TextsComplete(ts: Texts) {
    && LevelsComplete(ts.power1, POWER_MAX)
    && LevelsComplete(ts.mode1, MODE_MAX) && LevelsComplete(ts.mode2, MODE_MAX)
    && LevelsComplete(ts.speed1, SPEED_MAX) && LevelsComplete(ts.speed2, SPEED_MAX)
    && LevelsComplete(ts.swing1, SwingOf(ts).modeCount) && LevelsComplete(ts.swing2, SwingOf(ts).modeCount)
    && TempComplete(ts.temp1) && TempComplete(ts.temp2)
    && EntriesComplete(ts.function1) && EntriesComplete(ts.function2)
    && |ts.checksum| < 256 && (ts.checksum != [] ==> AllComplete(TextFields.Split(ts.checksum, '|', 0)))
  }

  predicate IsSwing(t: Tables, ts: Texts) {
    && t.swingInfo == SwingOf(ts)
    && if t.swingInfo.kind.Normal? then
         IsTable(t.swing1, ts.swing1, t.swingInfo.modeCount) && IsTable(t.swing2, ts.swing2, t.swingInfo.modeCount)
       else t.swing1 == t.swing2 == ABSENT
  }

  predicate IsChecksum(bs: seq<Block>, text: string) {
    if text == [] then bs == [] else
      var pieces := TextFields.Split(text, '|', 0);
      AllComplete(pieces) && AllGood(pieces) && bs == BlocksOf(pieces)
  }

  /** What the parse gives for the texts. */
  predicate IsParsed(t: Tables, ts: Texts) {
    && IsTable(t.power1, ts.power1, POWER_MAX)
    && IsTable(t.mode1, ts.mode1, MODE_MAX) && IsTable(t.mode2, ts.mode2, MODE_MAX)
    && IsTable(t.speed1, ts.speed1, SPEED_MAX) && IsTable(t.speed2, ts.speed2, SPEED_MAX)
    && IsSwing(t, ts)
    && IsTemp1(t.temp1, t.temp1Dynamic, ts.temp1) && IsTemp2(t.temp2, t.temp2Dynamic, ts.temp2)
    && EntriesComplete(ts.function1) && t.function1 == FunctionTable(ts.function1)
    && EntriesComplete(ts.function2) && t.function2 == FunctionTable(ts.function2)
    && IsChecksum(t.checksums, ts.checksum)
  }

  method ParseBlocks(text: string) returns (ok: bool, blocks: seq<Block>)
    requires |text| < 256 && (text != [] ==> AllComplete(TextFields.Split(text, '|', 0)))
    ensures ok <==> (text != [] ==> AllGood(TextFields.Split(text, '|', 0)))
    ensures ok ==> IsChecksum(blocks, text)
  {
    hide AllComplete, AllGood, BlocksOf, KeptChecksumLen, TextFields.Split;
    if text == [] {
      return true, [];
    }
    var len;
    ok, blocks, len := ParseChecksum(text);
  }

  /** The parse of all tables; a bad checksum block fails it. */
  method ParseTables(ts: Texts, rest: Rest) returns (ok: bool, t: Tables)
    requires TextsComplete(ts)
    ensures ok <==> (ts.checksum != [] ==> AllGood(TextFields.Split(ts.checksum, '|', 0)))
    ensures ok ==> IsParsed(t, ts)
    ensures ok ==> t.defaultCode == rest.defaultCode && t.layout == rest.layout
    ensures ok ==> t.soloMark == rest.soloMark && t.rules == rest.rules
  {
    hide LevelsComplete, TempComplete, EntriesComplete, IsTable, IsTemp1, IsTemp2, IsChecksum, FunctionTable;
    hide AllComplete, AllGood, SwingInfoOf, TextFields.Split;
    var si, swing1, swing2 := ParseSwing(ts.swingInfo, ts.swing1, ts.swing2);
    var power1 := ParseTable(ts.power1, POWER_MAX);
    var mode1 := ParseTable(ts.mode1, MODE_MAX);
    var mode2 := ParseTable(ts.mode2, MODE_MAX);
    var speed1 := ParseTable(ts.speed1, SPEED_MAX);
    var speed2 := ParseTable(ts.speed2, SPEED_MAX);
    var temp1, dynamic1 := ParseTemp1(ts.temp1);
    var temp2, dynamic2 := ParseTemp2(ts.temp2);
    var function1 := ParseFunctionTable(ts.function1);
    var function2 := ParseFunctionTable(ts.function2);
    var blocks;
    ok, blocks := ParseBlocks(ts.checksum);
    t := Tables(rest.defaultCode, rest.layout, power1, mode1, mode2, speed1, speed2, swing1, swing2,
                temp1, dynamic1, temp2, dynamic2, function1, function2, blocks, si, rest.soloMark, rest.rules);
  }

  // ---- when a call can use it ------------------------------------------------------------------------

  predicate Inside1(t: Table, size: nat) {
    t.len != 0 ==> forall i :: 0 <= i < |t.comps| ==> Table1Fits(t.comps[i], size)
  }

  predicate Inside2(t: Table, size: nat) {
    t.len != 0 ==> forall i :: 0 <= i < |t.comps| ==> Table2Fits(t.comps[i], size)
  }

  /** Every patch of a table that counts, and every checksum, lies inside the code. */
  predicate PatchesInside(t: Tables) {
    var n := |t.defaultCode|;
    && Inside1(t.power1, n) && Inside1(t.mode1, n) && Inside1(t.speed1, n) && Inside1(t.swing1, n)
    && Inside1(t.temp1, n) && Inside1(t.function1, n)
    && Inside2(t.mode2, n) && Inside2(t.speed2, n) && Inside2(t.swing2, n)
    && Inside2(t.temp2, n) && Inside2(t.function2, n)
    && AllFit(t.checksums, n)
  }

  lemma TableLevels(t: Table, text: string, levels: nat)
    requires IsTable(t, text, levels)
    ensures t.len != 0 ==> |t.comps| == levels
  {
    hide ReadHex, WellFormed, Segments, Padded;
  }

  lemma TempLevels(t: Table, dynamic: bool, text: string)
    ensures IsTemp1(t, dynamic, text) && t.len != 0 ==> |t.comps| == TEMP_MAX
    ensures IsTemp2(t, dynamic, text) && t.len != 0 ==> |t.comps| == TEMP_MAX
  {
    hide ReadHex, WellFormed, Segments, Padded, Dynamic, Level1, Level2;
  }

  lemma FunctionLevels(text: string)
    requires EntriesComplete(text)
    ensures FunctionTable(text).len != 0 ==> |FunctionTable(text).comps| == SLOTS
  {
    hide ReadHex, WellFormedEntries, Entries, FillAll, Padded;
  }

  /** Whatever the texts, the parse gives every table its levels: a call can use the result
      exactly when its patches lie inside the code. */
  lemma ParsedIsProtocolIff(t: Tables, ts: Texts)
    requires IsParsed(t, ts) && |t.defaultCode| < 256 && |t.rules| == MODE_MAX
    ensures Valid(t) <==> PatchesInside(t)
  {
    hide IsTable, IsTemp1, IsTemp2, IsChecksum, EntriesComplete, FunctionTable, Table1Fits, Table2Fits, AllFit;
    TableLevels(t.power1, ts.power1, POWER_MAX);
    TableLevels(t.mode1, ts.mode1, MODE_MAX);
    TableLevels(t.mode2, ts.mode2, MODE_MAX);
    TableLevels(t.speed1, ts.speed1, SPEED_MAX);
    TableLevels(t.speed2, ts.speed2, SPEED_MAX);
    if t.swingInfo.kind.Normal? {
      TableLevels(t.swing1, ts.swing1, t.swingInfo.modeCount);
      TableLevels(t.swing2, ts.swing2, t.swingInfo.modeCount);
    }
    TempLevels(t.temp1, t.temp1Dynamic, ts.temp1);
    TempLevels(t.temp2, t.temp2Dynamic, ts.temp2);
    FunctionLevels(ts.function1);
    FunctionLevels(ts.function2);
  }
}

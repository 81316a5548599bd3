/** What a control call sends, said of the protocol's tables, the status and the bits of the
    bytes by their numbers: which entry of which table each bit of the code comes from, when a
    call sends at all, and where the wind goes. */
module AcCallLaws {
  import opened Halving
  import opened AcBits
  import opened AcApply
  import opened AcTables
  import opened AcChecksum
  import opened AcProtocol
  import opened AcTransmission

  // ---- what a table lists for a bit --------------------------------------------------------------

  /** Bit b of a code, from the top bit of byte 0 on. */
  ghost predicate CodeBit(code: seq<byte>, b: nat)
    requires b < 8 * |code|
  {
    HasBit(Num(code[b / 8]), 7 - b % 8)
  }

  /** Pair k of a byte table, position and value, is for the byte of bit b. */
  ghost predicate Pair(seg: seq<byte>, k: nat, b: nat) {
    2 * k + 1 < |seg| && Num(seg[2 * k]) == b / 8
  }

  /** Triple k of a field table, start, end and value, covers bit b. */
  ghost predicate Triple(seg: seq<byte>, k: nat, b: nat) {
    3 * k + 2 < |seg| && Num(seg[3 * k]) <= b < Num(seg[3 * k + 1])
  }

  /** The table in use, the first one unless it is absent, lists nothing for bit b. */
  ghost predicate Spares(t1: Table, t2: Table, level: nat, b: nat) {
    if t1.len != 0 then
      level < |t1.comps| && |t1.comps[level]| % 2 == 0 ==> forall k: nat :: !Pair(t1.comps[level], k, b)
    else
      t2.len != 0 && level < |t2.comps| && |t2.comps[level]| % 3 == 0 ==>
        forall k: nat :: !Triple(t2.comps[level], k, b)
  }

  ghost predicate LastPair(seg: seq<byte>, k: nat, b: nat) {
    Pair(seg, k, b) && forall j: nat :: k < j ==> !Pair(seg, j, b)
  }

  ghost predicate LastTriple(seg: seq<byte>, k: nat, b: nat) {
    Triple(seg, k, b) && forall j: nat :: k < j ==> !Triple(seg, j, b)
  }

  ghost predicate PairSays(seg: seq<byte>, b: nat, v: bool) {
    |seg| % 2 == 0 && exists k: nat :: LastPair(seg, k, b) && HasBit(Num(seg[2 * k + 1]), 7 - b % 8) == v
  }

  /** The field's last bit is the value's lowest. */
  ghost predicate TripleSays(seg: seq<byte>, b: nat, v: bool) {
    |seg| % 3 == 0 &&
    exists k: nat :: LastTriple(seg, k, b) && HasBit(Num(seg[3 * k + 2]), Num(seg[3 * k + 1]) - 1 - b) == v
  }

  /** The last entry for bit b in the level of the table in use says v. */
  ghost predicate Says(t1: Table, t2: Table, level: nat, b: nat, v: bool) {
    if t1.len != 0 then level < |t1.comps| && PairSays(t1.comps[level], b, v)
    else t2.len != 0 && level < |t2.comps| && TripleSays(t2.comps[level], b, v)
  }

  // ---- one table -----------------------------------------------------------------------------------

  lemma SparedIsUntouched(t1: Table, t2: Table, level: nat, add1: bool, add2: bool, b: nat)
    requires Spares(t1, t2, level, b)
    ensures !Touches(Choose(t1, t2, level, add1, add2), b)
  {
    hide Num;
    match Choose(t1, t2, level, add1, add2)
    case ByBytes(seg, _) =>
      if |seg| % 2 == 0 {
        forall k: nat | k < |Puts(seg)|
          ensures Puts(seg)[k].pos != b / 8
        {
          assert !Pair(seg, k, b);
        }
      }
    case ByBits(seg, _) =>
      if |seg| % 3 == 0 {
        forall k: nat | k < |Fields(seg)|
          ensures !Covers(Fields(seg)[k], b)
        {
          assert !Triple(seg, k, b);
        }
      }
    case _ =>
  }

  lemma {:induction false} LastPutIs(puts: seq<Put>, k: nat, i: nat)
    requires k < |puts| && puts[k].pos == i && forall j :: k < j < |puts| ==> puts[j].pos != i
    ensures LastPut(puts, i) == k
    decreases |puts|
  {
    if k != |puts| - 1 {
      LastPutIs(puts[..|puts| - 1], k, i);
    }
  }

  lemma {:induction false} LastCoverIs(fs: seq<Field>, k: nat, b: nat)
    requires k < |fs| && Covers(fs[k], b) && forall j :: k < j < |fs| ==> !Covers(fs[j], b)
    ensures LastCover(fs, b) == k
    decreases |fs|
  {
    if k != |fs| - 1 {
      LastCoverIs(fs[..|fs| - 1], k, b);
    }
  }

  lemma PairStands(buf: seq<byte>, seg: seq<byte>, b: nat, v: bool)
    requires Table1Fits(seg, |buf|) && b < 8 * |buf| && PairSays(seg, b, v)
    ensures CodeBit(Table1(buf, seg, false), b) == v
  {
    hide Num, HasBit, PutAll;
    var k: nat :| LastPair(seg, k, b) && HasBit(Num(seg[2 * k + 1]), 7 - b % 8) == v;
    forall j | k < j < |Puts(seg)|
      ensures Puts(seg)[j].pos != b / 8
    {
      assert !Pair(seg, j, b);
    }
    LastPutIs(Puts(seg), k, b / 8);
    LastPutWins(buf, Puts(seg), b / 8);
  }

  lemma TripleStands(buf: seq<byte>, seg: seq<byte>, b: nat, v: bool)
    requires Table2Fits(seg, |buf|) && b < 8 * |buf| && TripleSays(seg, b, v)
    ensures CodeBit(Table2(buf, seg, false), b) == v
  {
    hide Num, HasBit, SetAll, Bits, LowBit, EntryFits;
    var k: nat :| LastTriple(seg, k, b) && HasBit(Num(seg[3 * k + 2]), Num(seg[3 * k + 1]) - 1 - b) == v;
    var fs := Fields(seg);
    forall j | k < j < |fs|
      ensures !Covers(fs[j], b)
    {
      assert !Triple(seg, j, b);
    }
    LastCoverIs(fs, k, b);
    CoveringFits(fs[k], |buf|, b);
    LastWriterWins(buf, fs, b);
    LowBitIsNumberBit(fs[k].raw, fs[k].end - 1 - b);
    BitIsNumberBit(SetAll(buf, fs, false), b);
  }

  /** A table that is set, not added, leaves what it says, whatever the code held. */
  lemma SaidStands(buf: seq<byte>, t1: Table, t2: Table, level: nat, add1: bool, add2: bool, b: nat, v: bool)
    requires Says(t1, t2, level, b, v) && b < 8 * |buf|
    requires !(if t1.len != 0 then add1 else add2)
    requires ChoiceFits(Choose(t1, t2, level, add1, add2), |buf|)
    ensures CodeBit(Patched(buf, Choose(t1, t2, level, add1, add2)), b) == v
  {
    hide PairSays, TripleSays, Table1, Table2, Table1Fits, Table2Fits, CodeBit;
    if t1.len != 0 {
      NoPairsSayNothing(b, v);
      PairStands(buf, t1.comps[level], b, v);
    } else {
      NoTriplesSayNothing(b, v);
      TripleStands(buf, t2.comps[level], b, v);
    }
  }

  lemma NoPairsSayNothing(b: nat, v: bool)
    ensures !PairSays([], b, v)
  {
  }

  lemma NoTriplesSayNothing(b: nat, v: bool)
    ensures !TripleSays([], b, v)
  {
  }

  // ---- the call ----------------------------------------------------------------------------------------

  /** No checksum writes the byte, or the half byte, of bit b. */
  ghost predicate NotSummed(p: Protocol, b: nat) {
    forall k :: 0 <= k < |p.checksums| ==>
      var s := p.checksums[k];
      && (1 <= s.kind <= 4 && s.len >= 3 ==> s.target != b / 8)
      && (5 <= s.kind <= 6 && s.len >= 4 ==> s.target != b / 4)
      && (7 <= s.kind <= 8 && s.len >= 4 ==> s.target / 2 != b / 8)
  }

  lemma NotSummedIsUnsummed(p: Protocol, b: nat)
    requires NotSummed(p, b)
    ensures Unsummed(p, b)
  {
    forall k | 0 <= k < |p.checksums|
      ensures !p.checksums[k].Writes(b / 4)
    {
      assert b / 4 / 2 == b / 8;
    }
  }

  /** Function f, from 1 on, is sent solo: bit f - 1 of the mark. */
  ghost predicate SoloFunction(p: Protocol, f: nat) {
    1 <= f <= 7 && HasBit(Num(p.soloMark), f - 1)
  }

  lemma SoloIsBit(p: Protocol, f: nat)
    requires 1 <= f <= 7
    ensures Solo(p, f) <==> SoloFunction(p, f)
  {
    hide LowBit, HasBit, Num;
    LowBitIsNumberBit(p.soloMark, f - 1);
  }

  lemma SoloAreBits(p: Protocol)
    ensures forall f: nat :: 1 <= f <= 7 ==> (Solo(p, f) <==> SoloFunction(p, f))
  {
    hide Solo, SoloFunction;
    forall f: nat | 1 <= f <= 7 {
      SoloIsBit(p, f);
    }
  }

  ghost predicate SpeedBanned(p: Protocol, s: Status)
    requires s.mode < 5
  {
    p.rules[s.mode].allSpeed || s.speed in p.rules[s.mode].speeds
  }

  ghost predicate TempBanned(p: Protocol, s: Status)
    requires s.mode < 5
  {
    p.rules[s.mode].allTemp || s.temp in p.rules[s.mode].temps
  }

  /** The table in use has no such level, or no patches for it. */
  ghost predicate Lacks(t1: Table, t2: Table, level: nat) {
    if t1.len != 0 then level >= |t1.comps| || t1.comps[level] == []
    else t2.len != 0 && (level >= |t2.comps| || t2.comps[level] == [])
  }

  /** The mode is there, and the speed if the key is the speed key, or they are sent solo. */
  ghost predicate ModeAndSpeedThere(p: Protocol, c: Call)
    requires ValidCall(c)
  {
    && (SoloFunction(p, 2) || !Lacks(p.mode1, p.mode2, c.status.mode))
    && (SoloFunction(p, 5) || c.func != 5
        || !(SpeedBanned(p, c.status) || Lacks(p.speed1, p.speed2, c.status.speed)))
  }

  /** The swing is applied: on a solo swing key (6 or 7), or with the whole status unless
      swing is sent solo. */
  ghost predicate AppliesSwing(p: Protocol, c: Call)
    requires ValidCall(c)
  {
    && p.defaultCode != [] && c.status.power.On? && p.rules[c.status.mode].enable
    && if SoloFunction(p, c.func) then c.func == 6 || c.func == 7
       else ModeAndSpeedThere(p, c) && !SoloFunction(p, 6) && !SoloFunction(p, 7)
  }

  /** Key 7 fixes the wind: with several modes it moves the direction on, if a change is asked
      for, from the last one back to 1.  Key 6 swings: status 0. */
  function WindMoved(p: Protocol, w: Wind, c: Call): Wind {
    if c.func == 7 && p.swingInfo.kind.Normal? && p.swingInfo.modeCount > 1 then
      var next := if c.change then (w.dir + 1) % 256 else w.dir;
      var dir := if next == p.swingInfo.modeCount then 1 else next;
      Wind(dir, dir)
    else if c.func == 6 then Wind(w.dir, 0)
    else w
  }

  lemma WindAfterIs(p: Protocol, w: Wind, c: Call)
    requires ValidCall(c)
    ensures WindAfter(p, w, c) == if AppliesSwing(p, c) then WindMoved(p, w, c) else w
  {
    hide Solo, SoloFunction;
    SoloAreBits(p);
  }

  /** Function patches for a key in either table. */
  ghost predicate HasPatches(p: Protocol, f: nat)
    requires 1 <= f <= 7
  {
    (p.function1.len != 0 && p.function1.comps[f - 1] != []) || (p.function2.len != 0 && p.function2.comps[f - 1] != [])
  }

  /** When a call sends: with a default code, and, when on, in an enabled mode, either for a solo
      key or with everything there that matters to the key: the mode always, the speed for key
      5, the swing or function patches for keys 6 and 7, the temperature for keys 3 and 4. */
  lemma SendsIff(p: Protocol, w: Wind, c: Call)
    requires ValidCall(c)
    ensures Sends(p, w, c) <==>
      p.defaultCode != [] && (c.status.power.On? ==>
        p.rules[c.status.mode].enable && (SoloFunction(p, c.func) || (
          && ModeAndSpeedThere(p, c)
          && (SoloFunction(p, 6) || SoloFunction(p, 7) || !(c.func == 6 || c.func == 7) || HasPatches(p, c.func)
              || !Lacks(p.swing1, p.swing2, WindMoved(p, w, c).swing))
          && (SoloFunction(p, 3) || SoloFunction(p, 4) || !(c.func == 3 || c.func == 4)
              || !(TempBanned(p, c.status) || Lacks(p.temp1, p.temp2, c.status.temp))))))
  {
    hide Solo, SoloFunction, WindMoved, NextWind;
    SoloAreBits(p);
    WindAfterIs(p, w, c);
  }

  // ---- which bits come from where ------------------------------------------------------------------------

  /** The whole status is sent: on, and not for a solo key. */
  ghost predicate SendsStatus(p: Protocol, w: Wind, c: Call)
    requires ValidCall(c)
  {
    Sends(p, w, c) && c.status.power.On? && !SoloFunction(p, c.func)
  }

  ghost predicate ModeSpares(p: Protocol, c: Call, b: nat) {
    SoloFunction(p, 2) || Spares(p.mode1, p.mode2, c.status.mode, b)
  }

  ghost predicate SpeedSpares(p: Protocol, c: Call, b: nat)
    requires ValidCall(c)
  {
    SoloFunction(p, 5) || SpeedBanned(p, c.status) || Spares(p.speed1, p.speed2, c.status.speed, b)
  }

  ghost predicate SwingSpares(p: Protocol, w: Wind, c: Call, b: nat) {
    SoloFunction(p, 6) || SoloFunction(p, 7) || Spares(p.swing1, p.swing2, WindMoved(p, w, c).swing, b)
  }

  ghost predicate TempSpares(p: Protocol, c: Call, b: nat)
    requires ValidCall(c)
  {
    SoloFunction(p, 3) || SoloFunction(p, 4) || TempBanned(p, c.status) || Spares(p.temp1, p.temp2, c.status.temp, b)
  }

  ghost predicate FunctionSpares(p: Protocol, c: Call, b: nat)
    requires ValidCall(c)
  {
    Spares(p.function1, p.function2, c.func - 1, b)
  }

  /** The stages of a whole status by the tables they take their patches from. */
  lemma StatusStages(p: Protocol, w: Wind, c: Call)
    requires ValidCall(c) && SendsStatus(p, w, c)
    ensures var all, s := Stages(p, w, c), c.status;
      && |all| == 6
      && (!SoloFunction(p, 1) ==> all[0] == Choose(p.power1, Table(0, []), 0))
      && all[1] == (if SoloFunction(p, 2) then Nothing else Choose(p.mode1, p.mode2, s.mode))
      && (if SoloFunction(p, 5) then all[2] == Nothing
          else if SpeedBanned(p, s) then all[2] == Refuse
          else all[2] == Choose(p.speed1, p.speed2, s.speed))
      && (if SoloFunction(p, 6) || SoloFunction(p, 7) then all[3] == Nothing
          else all[3] == Choose(p.swing1, p.swing2, WindMoved(p, w, c).swing))
      && (if SoloFunction(p, 3) || SoloFunction(p, 4) then all[4] == Nothing
          else if TempBanned(p, s) then all[4] == Refuse
          else all[4] == Choose(p.temp1, p.temp2, s.temp, p.temp1Dynamic, p.temp2Dynamic))
      && all[5] == Choose(p.function1, p.function2, c.func - 1)
  {
    hide Solo, SoloFunction, WindMoved, WindAfter, Choose, ModeAndSpeedThere, Sends;
    SoloAreBits(p);
    WindAfterIs(p, w, c);
    SendsIff(p, w, c);
    var all := Stages(p, w, c);
    assert all[..3] == LevelStages(p, c) && all[3..5] == AirStages(p, w, c);
  }

  lemma NothingTouchesNothing(b: nat)
    ensures !Touches(Nothing, b) && !Touches(Refuse, b)
  {
  }

  lemma StatusSpares(p: Protocol, w: Wind, c: Call, b: nat)
    requires ValidCall(c) && SendsStatus(p, w, c)
    ensures |Stages(p, w, c)| == 6
    ensures ModeSpares(p, c, b) ==> !Touches(Stages(p, w, c)[1], b)
    ensures SpeedSpares(p, c, b) ==> !Touches(Stages(p, w, c)[2], b)
    ensures SwingSpares(p, w, c, b) ==> !Touches(Stages(p, w, c)[3], b)
    ensures TempSpares(p, c, b) ==> !Touches(Stages(p, w, c)[4], b)
    ensures FunctionSpares(p, c, b) ==> !Touches(Stages(p, w, c)[5], b)
  {
    hide Stages, Choose, Touches, Spares, SoloFunction, SpeedBanned, TempBanned, WindMoved, SendsStatus;
    StatusStages(p, w, c);
    NothingTouchesNothing(b);
    if Spares(p.mode1, p.mode2, c.status.mode, b) {
      SparedIsUntouched(p.mode1, p.mode2, c.status.mode, false, false, b);
    }
    if Spares(p.speed1, p.speed2, c.status.speed, b) {
      SparedIsUntouched(p.speed1, p.speed2, c.status.speed, false, false, b);
    }
    var swing := WindMoved(p, w, c).swing;
    if Spares(p.swing1, p.swing2, swing, b) {
      SparedIsUntouched(p.swing1, p.swing2, swing, false, false, b);
    }
    if Spares(p.temp1, p.temp2, c.status.temp, b) {
      SparedIsUntouched(p.temp1, p.temp2, c.status.temp, p.temp1Dynamic, p.temp2Dynamic, b);
    }
    if Spares(p.function1, p.function2, c.func - 1, b) {
      SparedIsUntouched(p.function1, p.function2, c.func - 1, false, false, b);
    }
  }

  /** What stage j says of a bit that no later stage touches is what is sent. */
  lemma StageIsSent(p: Protocol, w: Wind, c: Call, j: nat, t1: Table, t2: Table, level: nat, add1: bool, add2: bool,
                    b: nat, v: bool)
    requires ValidCall(c) && b < 8 * |p.defaultCode| && NotSummed(p, b)
    requires j < |Stages(p, w, c)| && Stages(p, w, c)[j] == Choose(t1, t2, level, add1, add2)
    requires forall i :: j < i < |Stages(p, w, c)| ==> !Touches(Stages(p, w, c)[i], b)
    requires Says(t1, t2, level, b, v) && !(if t1.len != 0 then add1 else add2)
    ensures CodeBit(SentCode(p, w, c), b) == v
  {
    hide Stages, Choose, Touches, Says, Bits, HasBit, Num, ApplyStages, ApplyBlocks, Patched, ChoiceFits;
    hide NotSummed, Unsummed;
    var d, cs := p.defaultCode, Stages(p, w, c);
    StagesFit(p, w, c);
    NotSummedIsUnsummed(p, b);
    SentBitOfStages(p, w, c, b);
    StagesKeepBit(d, cs, j + 1, b);
    LastStage(d, cs[..j + 1]);
    assert cs[..j + 1][..j] == cs[..j];
    SaidStands(ApplyStages(d, cs[..j]), t1, t2, level, add1, add2, b, v);
    BitIsNumberBit(SentCode(p, w, c), b);
    BitIsNumberBit(ApplyStages(d, cs[..j + 1]), b);
  }

  lemma SentBitOfStages(p: Protocol, w: Wind, c: Call, b: nat)
    requires ValidCall(c) && b < 8 * |p.defaultCode| && Unsummed(p, b)
    ensures forall i :: 0 <= i < |Stages(p, w, c)| ==> ChoiceFits(Stages(p, w, c)[i], |p.defaultCode|)
    ensures Bits(SentCode(p, w, c))[b] == Bits(ApplyStages(p.defaultCode, Stages(p, w, c)))[b]
  {
    hide Stages, Bits, ApplyStages, ApplyBlocks, ChoiceFits;
    StagesFit(p, w, c);
    BlocksKeepBit(ApplyStages(p.defaultCode, Stages(p, w, c)), p.checksums, b);
  }

  /** Switched off, a call sends what entry 1 of the power table says, where the function's
      patches do not cover it. */
  lemma PowerOffIsSent(p: Protocol, w: Wind, c: Call, b: nat, v: bool)
    requires ValidCall(c) && c.status.power.Off? && b < 8 * |p.defaultCode| && NotSummed(p, b)
    requires Says(p.power1, Table(0, []), 1, b, v) && FunctionSpares(p, c, b)
    ensures CodeBit(SentCode(p, w, c), b) == v
  {
    hide Says, Touches, CodeBit, NotSummed, Spares;
    SparedIsUntouched(p.function1, p.function2, c.func - 1, false, false, b);
    StageIsSent(p, w, c, 0, p.power1, Table(0, []), 1, false, false, b, v);
  }

  /** With the whole status, entry 0 of the power table stands where no later parameter covers
      it. */
  lemma PowerOnIsSent(p: Protocol, w: Wind, c: Call, b: nat, v: bool)
    requires ValidCall(c) && SendsStatus(p, w, c) && b < 8 * |p.defaultCode| && NotSummed(p, b)
    requires !SoloFunction(p, 1) && Says(p.power1, Table(0, []), 0, b, v)
    requires ModeSpares(p, c, b) && SpeedSpares(p, c, b) && SwingSpares(p, w, c, b) && TempSpares(p, c, b)
    requires FunctionSpares(p, c, b)
    ensures CodeBit(SentCode(p, w, c), b) == v
  {
    hide Stages, Choose, Says, Touches, CodeBit, NotSummed, SoloFunction, SendsStatus;
    hide ModeSpares, SpeedSpares, SwingSpares, TempSpares, FunctionSpares;
    StatusStages(p, w, c);
    StatusSpares(p, w, c, b);
    StageIsSent(p, w, c, 0, p.power1, Table(0, []), 0, false, false, b, v);
  }

  /** The status' mode, unless modes are sent solo. */
  lemma ModeIsSent(p: Protocol, w: Wind, c: Call, b: nat, v: bool)
    requires ValidCall(c) && SendsStatus(p, w, c) && b < 8 * |p.defaultCode| && NotSummed(p, b)
    requires !SoloFunction(p, 2) && Says(p.mode1, p.mode2, c.status.mode, b, v)
    requires SpeedSpares(p, c, b) && SwingSpares(p, w, c, b) && TempSpares(p, c, b) && FunctionSpares(p, c, b)
    ensures CodeBit(SentCode(p, w, c), b) == v
  {
    hide Stages, Choose, Says, Touches, CodeBit, NotSummed, SoloFunction, SendsStatus;
    hide ModeSpares, SpeedSpares, SwingSpares, TempSpares, FunctionSpares;
    StatusStages(p, w, c);
    StatusSpares(p, w, c, b);
    StageIsSent(p, w, c, 1, p.mode1, p.mode2, c.status.mode, false, false, b, v);
  }

  /** The status' wind speed, unless it is banned in the mode or speeds are sent solo. */
  lemma SpeedIsSent(p: Protocol, w: Wind, c: Call, b: nat, v: bool)
    requires ValidCall(c) && SendsStatus(p, w, c) && b < 8 * |p.defaultCode| && NotSummed(p, b)
    requires !SoloFunction(p, 5) && !SpeedBanned(p, c.status)
    requires Says(p.speed1, p.speed2, c.status.speed, b, v)
    requires SwingSpares(p, w, c, b) && TempSpares(p, c, b) && FunctionSpares(p, c, b)
    ensures CodeBit(SentCode(p, w, c), b) == v
  {
    hide Stages, Choose, Says, Touches, CodeBit, NotSummed, SoloFunction, SendsStatus, SpeedBanned;
    hide ModeSpares, SpeedSpares, SwingSpares, TempSpares, FunctionSpares;
    StatusStages(p, w, c);
    StatusSpares(p, w, c, b);
    StageIsSent(p, w, c, 2, p.speed1, p.speed2, c.status.speed, false, false, b, v);
  }

  /** The swing level the key leads to, unless swing is sent solo. */
  lemma SwingIsSent(p: Protocol, w: Wind, c: Call, b: nat, v: bool)
    requires ValidCall(c) && SendsStatus(p, w, c) && b < 8 * |p.defaultCode| && NotSummed(p, b)
    requires !SoloFunction(p, 6) && !SoloFunction(p, 7)
    requires Says(p.swing1, p.swing2, WindMoved(p, w, c).swing, b, v)
    requires TempSpares(p, c, b) && FunctionSpares(p, c, b)
    ensures CodeBit(SentCode(p, w, c), b) == v
  {
    hide Stages, Choose, Says, Touches, CodeBit, NotSummed, SoloFunction, SendsStatus, WindMoved;
    hide ModeSpares, SpeedSpares, SwingSpares, TempSpares, FunctionSpares;
    StatusStages(p, w, c);
    StatusSpares(p, w, c, b);
    StageIsSent(p, w, c, 3, p.swing1, p.swing2, WindMoved(p, w, c).swing, false, false, b, v);
  }

  /** The status' temperature from a static table, unless it is banned in the mode or sent solo. */
  lemma TemperatureIsSent(p: Protocol, w: Wind, c: Call, b: nat, v: bool)
    requires ValidCall(c) && SendsStatus(p, w, c) && b < 8 * |p.defaultCode| && NotSummed(p, b)
    requires !SoloFunction(p, 3) && !SoloFunction(p, 4) && !TempBanned(p, c.status)
    requires Says(p.temp1, p.temp2, c.status.temp, b, v)
    requires !(if p.temp1.len != 0 then p.temp1Dynamic else p.temp2Dynamic)
    requires FunctionSpares(p, c, b)
    ensures CodeBit(SentCode(p, w, c), b) == v
  {
    hide Stages, Choose, Says, Touches, CodeBit, NotSummed, SoloFunction, SendsStatus, TempBanned;
    hide ModeSpares, SpeedSpares, SwingSpares, TempSpares, FunctionSpares;
    StatusStages(p, w, c);
    StatusSpares(p, w, c, b);
    StageIsSent(p, w, c, 4, p.temp1, p.temp2, c.status.temp, p.temp1Dynamic, p.temp2Dynamic, b, v);
  }

  /** The patches of the key's own function, entry function - 1, stand in every code sent. */
  lemma FunctionIsSent(p: Protocol, w: Wind, c: Call, b: nat, v: bool)
    requires ValidCall(c) && b < 8 * |p.defaultCode| && NotSummed(p, b)
    requires Says(p.function1, p.function2, c.func - 1, b, v)
    ensures CodeBit(SentCode(p, w, c), b) == v
  {
    hide Choose, Says, Touches, CodeBit, NotSummed, Solo, LevelStages, AirStages, SoloStage;
    var n := |Stages(p, w, c)|;
    StageIsSent(p, w, c, n - 1, p.function1, p.function2, c.func - 1, false, false, b, v);
  }

  /** On a solo key only its own parameter is sent, before the function's patches: power (1),
      mode (2), wind speed (5) unless banned, swing (6, 7). */
  lemma SoloKeyIsSent(p: Protocol, w: Wind, c: Call, t1: Table, t2: Table, level: nat, b: nat, v: bool)
    requires ValidCall(c) && Sends(p, w, c) && c.status.power.On? && SoloFunction(p, c.func)
    requires b < 8 * |p.defaultCode| && NotSummed(p, b)
    requires
      || (c.func == 1 && t1 == p.power1 && t2 == Table(0, []) && level == 0)
      || (c.func == 2 && t1 == p.mode1 && t2 == p.mode2 && level == c.status.mode)
      || (c.func == 5 && !SpeedBanned(p, c.status) && t1 == p.speed1 && t2 == p.speed2 && level == c.status.speed)
      || ((c.func == 6 || c.func == 7) && t1 == p.swing1 && t2 == p.swing2 && level == WindMoved(p, w, c).swing)
    requires Says(t1, t2, level, b, v) && FunctionSpares(p, c, b)
    ensures CodeBit(SentCode(p, w, c), b) == v
  {
    hide Choose, Says, Touches, CodeBit, NotSummed, Solo, SoloFunction, WindMoved, Spares, NextWind;
    SoloAreBits(p);
    WindAfterIs(p, w, c);
    SparedIsUntouched(p.function1, p.function2, c.func - 1, false, false, b);
    StageIsSent(p, w, c, 0, t1, t2, level, false, false, b, v);
  }

  /** The same for a temperature key (3, 4) with a static table. */
  lemma SoloTemperatureIsSent(p: Protocol, w: Wind, c: Call, b: nat, v: bool)
    requires ValidCall(c) && c.status.power.On? && SoloFunction(p, c.func) && (c.func == 3 || c.func == 4)
    requires b < 8 * |p.defaultCode| && NotSummed(p, b) && !TempBanned(p, c.status)
    requires Says(p.temp1, p.temp2, c.status.temp, b, v) && FunctionSpares(p, c, b)
    requires !(if p.temp1.len != 0 then p.temp1Dynamic else p.temp2Dynamic)
    ensures CodeBit(SentCode(p, w, c), b) == v
  {
    hide Choose, Says, Touches, CodeBit, NotSummed, Solo, SoloFunction, Spares;
    SoloAreBits(p);
    SparedIsUntouched(p.function1, p.function2, c.func - 1, false, false, b);
    StageIsSent(p, w, c, 0, p.temp1, p.temp2, c.status.temp, p.temp1Dynamic, p.temp2Dynamic, b, v);
  }

  /** With the whole status, a bit no parameter covers is the default code's. */
  lemma SparedBitIsDefault(p: Protocol, w: Wind, c: Call, b: nat)
    requires ValidCall(c) && SendsStatus(p, w, c) && b < 8 * |p.defaultCode| && NotSummed(p, b)
    requires (SoloFunction(p, 1) || Spares(p.power1, Table(0, []), 0, b)) && ModeSpares(p, c, b) && SpeedSpares(p, c, b)
    requires SwingSpares(p, w, c, b) && TempSpares(p, c, b) && FunctionSpares(p, c, b)
    ensures CodeBit(SentCode(p, w, c), b) == CodeBit(p.defaultCode, b)
  {
    hide Choose, Touches, NotSummed, Unsummed, SoloFunction, Solo, SendsStatus, HasBit, Num, SentCode, Bits;
    hide Spares, LevelStages, AirStages;
    hide ModeSpares, SpeedSpares, SwingSpares, TempSpares, FunctionSpares;
    PowerStageSpares(p, w, c, b);
    hide Stages;
    StatusSpares(p, w, c, b);
    NotSummedIsUnsummed(p, b);
    UntouchedBitIsDefault(p, w, c, b);
    BitIsNumberBit(SentCode(p, w, c), b);
    BitIsNumberBit(p.defaultCode, b);
  }

  lemma PowerStageSpares(p: Protocol, w: Wind, c: Call, b: nat)
    requires ValidCall(c) && SendsStatus(p, w, c)
    requires SoloFunction(p, 1) || Spares(p.power1, Table(0, []), 0, b)
    ensures Stages(p, w, c) != [] && !Touches(Stages(p, w, c)[0], b)
  {
    hide Choose, Touches, Solo, SoloFunction, Spares, AirStages;
    SoloAreBits(p);
    NothingTouchesNothing(b);
    if !SoloFunction(p, 1) {
      SparedIsUntouched(p.power1, Table(0, []), 0, false, false, b);
    }
  }
}

/** What a whole control call puts on the air, from the status to the decoded frame: the
    frame decodes to the code sent, the code satisfies its checksums, the function's own
    patches stand in it, and every bit nothing touches is the default code's. */
module AcTransmission {
  import opened AcBits
  import opened AcApply
  import opened AcTables
  import opened AcChecksum
  import opened AcFrame
  import opened AcProtocol

  // ---- what a stage leaves alone -----------------------------------------------------------------

  /** The stage's patches cover bit p of the code. */
  predicate Touches(c: Choice, p: nat) {
    match c
    case ByBytes(t, _) => |t| % 2 == 0 && exists k :: 0 <= k < |Puts(t)| && Puts(t)[k].pos == p / 8
    case ByBits(t, _) => |t| % 3 == 0 && exists k :: 0 <= k < |Fields(t)| && Covers(Fields(t)[k], p)
    case _ => false
  }

  lemma {:induction false} PutsKeepByte(buf: seq<byte>, puts: seq<Put>, isTemp: bool, i: nat)
    requires PutsFit(puts, |buf|) && i < |buf|
    requires forall k :: 0 <= k < |puts| ==> puts[k].pos != i
    ensures PutAll(buf, puts, isTemp)[i] == buf[i]
  {
    if puts != [] {
      PutsKeepByte(buf, puts[..|puts| - 1], isTemp, i);
    }
  }

  lemma {:induction false} FieldsKeepBit(buf: seq<byte>, fs: seq<Field>, isTemp: bool, p: nat)
    requires FieldsFit(fs, |buf|) && p < 8 * |buf|
    requires forall k :: 0 <= k < |fs| ==> !Covers(fs[k], p)
    ensures Bits(SetAll(buf, fs, isTemp))[p] == Bits(buf)[p]
  {
    hide Bits, LowBit, SetAll, FieldValue, Plus;
    if fs == [] {
      SetNone(buf, isTemp);
    } else {
      SetAllSnoc(buf, fs, isTemp);
      FieldsKeepBit(buf, fs[..|fs| - 1], isTemp, p);
      assert !Covers(fs[|fs| - 1], p);
    }
  }

  lemma StageKeepsBit(buf: seq<byte>, c: Choice, p: nat)
    requires ChoiceFits(c, |buf|) && p < 8 * |buf| && !Touches(c, p)
    ensures Bits(Patched(buf, c))[p] == Bits(buf)[p]
  {
    hide Puts, Fields, PutAll, SetAll, Bit, Covers;
    match c
    case ByBytes(t, add) =>
      if |t| % 2 == 0 {
        PutsKeepByte(buf, Puts(t), add, p / 8);
      }
    case ByBits(t, add) =>
      if |t| % 3 == 0 {
        FieldsKeepBit(buf, Fields(t), add, p);
      }
    case _ =>
  }

  /** A bit that no stage from j on touches is the one stage j found. */
  lemma {:induction false} StagesKeepBit(buf: seq<byte>, cs: seq<Choice>, j: nat, p: nat)
    requires (forall i :: 0 <= i < |cs| ==> ChoiceFits(cs[i], |buf|)) && j <= |cs| && p < 8 * |buf|
    requires forall i :: j <= i < |cs| ==> !Touches(cs[i], p)
    ensures Bits(ApplyStages(buf, cs))[p] == Bits(ApplyStages(buf, cs[..j]))[p]
    decreases |cs|
  {
    hide Bits, Patched, Touches, ChoiceFits, ApplyStages;
    if j == |cs| {
      assert cs[..j] == cs;
    } else {
      var m := |cs| - 1;
      StagesKeepBit(buf, cs[..m], j, p);
      assert cs[..m][..j] == cs[..j];
      LastStage(buf, cs);
      StageKeepsBit(ApplyStages(buf, cs[..m]), cs[m], p);
    }
  }

  lemma LastStage(buf: seq<byte>, cs: seq<Choice>)
    requires (forall i :: 0 <= i < |cs| ==> ChoiceFits(cs[i], |buf|)) && cs != []
    ensures ApplyStages(buf, cs) == Patched(ApplyStages(buf, cs[..|cs| - 1]), cs[|cs| - 1])
  {
    hide Patched, ChoiceFits;
  }

  // ---- what the checksums leave alone --------------------------------------------------------------

  lemma HalfHoldsBit(a: byte, b: byte, k: nat)
    requires k < 8 && (if k < 4 then a >> 4 == b >> 4 else a & 0x0F == b & 0x0F)
    ensures Bit(a, k) == Bit(b, k)
  {
  }

  lemma AgreeOnBit(a: seq<byte>, b: seq<byte>, p: nat)
    requires |a| == |b| && p < 8 * |a| && AgreeOn(a, b, p / 4)
    ensures Bits(a)[p] == Bits(b)[p]
  {
    hide Bit;
    var i, k, n := p / 8, p % 8, p / 4;
    assert n / 2 == i && (n % 2 == 0 <==> k < 4);
    HalfHoldsBit(a[i], b[i], k);
  }

  /** A bit in a half byte no block writes is unchanged. */
  lemma BlocksKeepBit(buf: seq<byte>, bs: seq<Block>, p: nat)
    requires AllFit(bs, |buf|) && p < 8 * |buf|
    requires forall k :: 0 <= k < |bs| ==> !bs[k].Writes(p / 4)
    ensures Bits(ApplyBlocks(buf, bs))[p] == Bits(buf)[p]
  {
    hide ApplyBlocks, Bits, Half;
    UntargetedKept(buf, bs, p / 4);
    AgreeOnBit(ApplyBlocks(buf, bs), buf, p);
  }

  // ---- the code that is sent -------------------------------------------------------------------------

  /** No checksum of the protocol writes the half byte of bit b. */
  predicate Unsummed(p: Protocol, b: nat) {
    forall k :: 0 <= k < |p.checksums| ==> !p.checksums[k].Writes(b / 4)
  }

  /** A bit that no stage of the call touches and no checksum writes is the default code's. */
  lemma UntouchedBitIsDefault(p: Protocol, w: Wind, c: Call, b: nat)
    requires ValidCall(c) && b < 8 * |p.defaultCode| && Unsummed(p, b)
    requires forall i :: 0 <= i < |Stages(p, w, c)| ==> !Touches(Stages(p, w, c)[i], b)
    ensures Bits(SentCode(p, w, c))[b] == Bits(p.defaultCode)[b]
  {
    hide Bits, Stages, ApplyStages, ApplyBlocks, Touches, ChoiceFits;
    StagesFit(p, w, c);
    StagesKeepBit(p.defaultCode, Stages(p, w, c), 0, b);
    NoStages(p.defaultCode);
    BlocksKeepBit(ApplyStages(p.defaultCode, Stages(p, w, c)), p.checksums, b);
  }

  /** In the code sent every checksum equation holds, all at once. */
  lemma SentChecksumsHold(p: Protocol, w: Wind, c: Call, k: nat)
    requires ValidCall(c) && Ordered(p.checksums) && k < |p.checksums|
    ensures p.checksums[k].Fits(|p.defaultCode|) && Holds(SentCode(p, w, c), p.checksums[k])
  {
    hide Holds, Stages, ApplyStages, ApplyBlocks;
    StagesFit(p, w, c);
    AllBlocksHold(ApplyStages(p.defaultCode, Stages(p, w, c)), p.checksums);
  }

  /** The entry writes a set bit at bit b. */
  predicate WritesOne(f: Field, b: nat) {
    Covers(f, b) && f.end - 1 - b < 8 && LowBit(f.raw, f.end - 1 - b)
  }

  /** The function's own patches are the last word on every bit no checksum writes: whatever
      power, mode, speed, swing and temperature patch, the bit is what they say. */
  lemma FunctionPatchStands(p: Protocol, w: Wind, c: Call, b: nat)
    requires ValidCall(c) && b < 8 * |p.defaultCode| && Unsummed(p, b)
    ensures var f := FunctionChoice(p, c.func);
      && (f.ByBits? && |f.table2| % 3 == 0 && !f.add2 && LastCover(Fields(f.table2), b) >= 0 ==>
            var g := Fields(f.table2)[LastCover(Fields(f.table2), b)];
            Bits(SentCode(p, w, c))[b] == WritesOne(g, b))
      && (f.ByBytes? && |f.table1| % 2 == 0 && !f.add1 && LastPut(Puts(f.table1), b / 8) >= 0 ==>
            Bits(SentCode(p, w, c))[b] == Bit(Puts(f.table1)[LastPut(Puts(f.table1), b / 8)].value, b % 8))
  {
    hide Bits, ApplyBlocks, WritesOne, Puts, Fields, PutAll, SetAll, LastPut, LastCover, LevelStages, AirStages,
         SoloStage;
    StagesFit(p, w, c);
    var all := Stages(p, w, c);
    var before := ApplyStages(p.defaultCode, all[..|all| - 1]);
    var f := FunctionChoice(p, c.func);
    assert ApplyStages(p.defaultCode, all) == Patched(before, f);
    hide ApplyStages, Stages, FunctionChoice;
    BlocksKeepBit(Patched(before, f), p.checksums, b);
    StagePatchStands(before, f, b);
  }

  lemma StagePatchStands(buf: seq<byte>, f: Choice, b: nat)
    requires ChoiceFits(f, |buf|) && b < 8 * |buf|
    ensures f.ByBits? && |f.table2| % 3 == 0 && !f.add2 && LastCover(Fields(f.table2), b) >= 0 ==>
      var g := Fields(f.table2)[LastCover(Fields(f.table2), b)];
      Bits(Patched(buf, f))[b] == WritesOne(g, b)
    ensures f.ByBytes? && |f.table1| % 2 == 0 && !f.add1 && LastPut(Puts(f.table1), b / 8) >= 0 ==>
      Bits(Patched(buf, f))[b] == Bit(Puts(f.table1)[LastPut(Puts(f.table1), b / 8)].value, b % 8)
  {
    hide LowBit, Bit, Puts, Fields, PutAll, SetAll, LastPut, LastCover;
    if f.ByBits? && |f.table2| % 3 == 0 {
      var k := LastCover(Fields(f.table2), b);
      if k >= 0 {
        CoveringFits(Fields(f.table2)[k], |buf|, b);
      }
      LastWriterWins(buf, Fields(f.table2), b);
    } else if f.ByBytes? && |f.table1| % 2 == 0 {
      LastPutWins(buf, Puts(f.table1), b / 8);
    }
  }

  // ---- the frame on the air ----------------------------------------------------------------------------

  /** Every copy in the output of a call that sends decodes, byte by byte, to the code sent,
      modulo two to the byte's width. */
  lemma OutputDecodes(p: Protocol, w: Wind, c: Call, k: nat, i: nat)
    requires ValidCall(c) && Sends(p, w, c) && p.layout.one != p.layout.zero
    requires k < SendCount(p.layout) && i < |p.defaultCode|
    ensures var code := SentCode(p, w, c);
      var n := |Frame(p.layout, code)|;
      var bits := BitsPerByte(p.layout.widths, i);
      && 0 <= k * n <= k * n + n <= |Output(p, w, c)|
      && Offset(p.layout, i, |code|) + 2 * bits <= n
      && DecodeByte(p.layout, Output(p, w, c)[k * n..k * n + n], i, |code|) == LowBits(code[i], Min8(bits))
  {
    hide Sends, SentCode, Frame, DecodeByte, Offset, BitsPerByte, LowBits, Copies;
    var code := SentCode(p, w, c);
    CopyAt(Frame(p.layout, code), SendCount(p.layout), k);
    FrameDecodes(p.layout, code, i);
  }
}

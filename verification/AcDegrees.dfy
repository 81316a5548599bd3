/** The dynamic temperature on a whole call: from the text of the table to the code sent. */
module AcDegrees {
  import opened Halving
  import opened AcBits
  import opened AcFields
  import opened AcApply
  import opened AcTables
  import opened AcParse
  import opened AcChecksum
  import opened AcProtocol
  import opened AcTemperature
  import opened AcTransmission

  // ---- one choice of a dynamic table -----------------------------------------------------------

  /** A field of the text's table, with a place in the code. */
  predicate ListedField(hex: seq<byte>, k: nat, size: nat) {
    && |hex| % 3 == 1 && 3 * k + 3 < |hex|
    && FieldFits(FieldStart(hex, k), FieldEnd(hex, k), size) && !Backwards(FieldStart(hex, k), FieldEnd(hex, k))
  }

  /** What level t adds to field k: t steps, but nothing when the length kept for the table, a
      byte, is 0. */
  function FieldDegrees(hex: seq<byte>, k: nat, t: nat): nat
    requires 3 * k + 3 < |hex|
  {
    if |hex| % 256 == 0 then 0 else FieldSteps(hex, k, t)
  }

  lemma FieldValueIsNarrow(bs: seq<bool>, s: nat, e: nat)
    requires s <= e <= |bs| && e - s <= 8
    ensures Num(FieldValue(bs, s, e)) == Low(Num(FieldValue(bs, s, e)), e - s)
  {
    hide Num, LowBit, LowBits, FieldValue, Low;
    var v := FieldValue(bs, s, e);
    forall j | 0 <= j < 8
      ensures LowBit(LowBits(v, e - s), j) == LowBit(v, j)
    {
      LowBitsBit(v, e - s, j);
      FieldValueBit(bs, s, e, j);
    }
    LowBitsDetermine(LowBits(v, e - s), v);
    NumOfLowBits(v, e - s);
  }

  lemma NothingMoved(buf: seq<byte>, s: nat, e: nat)
    requires s <= e <= 8 * |buf| && e - s <= 8
    ensures FieldMoved(buf, buf, s, e, 0)
  {
    hide Num, FieldValue, Low, Bits;
    FieldValueIsNarrow(Bits(buf), s, e);
  }

  /** A dynamic type 2 table that is used is applied exactly when its length is not a multiple
      of 256 bytes; then it adds the steps to its fields, otherwise nothing. */
  lemma DynamicFieldsApplied(t1: Table, t2: Table, text: string, t: nat, k: nat, add1: bool, buf: seq<byte>)
    requires |text| >= 2 && IsTemp2(t2, true, text) && t1.len == 0 && t < TEMP_MAX
    requires ListedField(ReadHex(text), k, |buf|) && AllApart(Fields(Level2(ReadHex(text), t)))
    requires ChoiceFits(Choose(t1, t2, t, add1, true), |buf|)
    ensures var hex, c := ReadHex(text), Choose(t1, t2, t, add1, true);
      && (if |hex| % 256 != 0 then c == ByBits(Level2(hex, t), true) else c == Nothing)
      && FieldMoved(buf, Patched(buf, c), FieldStart(hex, k), FieldEnd(hex, k), FieldDegrees(hex, k, t))
  {
    hide ReadHex, Level2, FieldMoved, FieldSteps, Num, Fields, AllApart, SetAll, Backwards, Dynamic;
    var hex := ReadHex(text);
    if |hex| % 256 != 0 {
      hide IsTemp2;
      LevelOfText2(t2, text, t);
      DynamicFields(hex, buf, t, k);
    } else {
      NothingMoved(buf, FieldStart(hex, k), FieldEnd(hex, k));
    }
  }

  lemma LevelOfText2(t2: Table, text: string, t: nat)
    requires |text| >= 2 && IsTemp2(t2, true, text) && t < TEMP_MAX && |ReadHex(text)| % 3 == 1
    ensures t2.len == |ReadHex(text)| % 256 && t < |t2.comps| && t2.comps[t] == Level2(ReadHex(text), t)
  {
    hide ReadHex, Level2, Dynamic;
  }

  /** A dynamic type 1 table with whole entries always counts, and adds the steps to its bytes. */
  lemma DynamicBytesApplied(t1: Table, t2: Table, text: string, t: nat, add2: bool, buf: seq<byte>, i: nat)
    requires |text| >= 2 && IsTemp1(t1, true, text) && t < TEMP_MAX && |ReadHex(text)| % 2 == 1 && i < |buf|
    requires ChoiceFits(Choose(t1, t2, t, true, add2), |buf|)
    ensures Num(Patched(buf, Choose(t1, t2, t, true, add2))[i])
      == (Num(buf[i]) + StepAt(Steps(ReadHex(text)), i) * t) % 256
  {
    hide ReadHex, Level1, Num, StepAt, Steps, PutAll;
    var hex := ReadHex(text);
    DynamicIsShort(hex);
    assert t1.len != 0 && t1.comps[t] == Level1(hex, t);
    hide IsTemp1;
    if |hex| == 1 {
      NoStepsListed(hex, i);
      NumIsByte(buf[i]);
    } else {
      DynamicBytes(hex, buf, t, i);
    }
  }

  lemma DynamicIsShort(hex: seq<byte>)
    requires hex != [] && Dynamic(hex)
    ensures |hex| <= 256
  {
    hide Num;
    NumIsByte(hex[0]);
  }

  lemma NoStepsListed(hex: seq<byte>, i: nat)
    requires |hex| == 1
    ensures StepAt(Steps(hex), i) == 0
  {
  }

  // ---- the table that is skipped -----------------------------------------------------------------

  /** 85 fields of three bits, each with step 1: 256 bytes of data. */
  function WideHex(): (hex: seq<byte>)
    ensures |hex| == 256
  {
    seq(256, i requires 0 <= i < 256 =>
      if i == 0 then 255 else if i % 3 == 1 then Trunc(i - 1) else if i % 3 == 2 then Trunc(i + 1) else 1)
  }

  lemma WideField(k: nat)
    requires k < 85
    ensures FieldStart(WideHex(), k) == 3 * k && FieldEnd(WideHex(), k) == 3 * k + 3
    ensures FieldSteps(WideHex(), k, 1) == 1
  {
    hide Num, Trunc;
    var hex := WideHex();
    assert hex[3 * k + 1] == Trunc(3 * k) && hex[3 * k + 2] == Trunc(3 * k + 3) && hex[3 * k + 3] == 1;
    hide WideHex;
    NumOfTrunc(3 * k);
    NumOfTrunc(3 * k + 3);
    SmallNums();
  }

  lemma WideFields(t: nat, k: nat)
    requires k < 85
    ensures k < |Fields(Level2(WideHex(), t))|
    ensures var f := Fields(Level2(WideHex(), t))[k]; f.start == 3 * k && f.end == 3 * k + 3
  {
    hide WideHex, Level2, Fields, FieldStart, FieldEnd, FieldSteps;
    Level2Field(WideHex(), t, k);
    WideField(k);
  }

  lemma WideFieldsFit(t: nat, size: nat)
    requires size >= 32
    ensures Table2Fits(Level2(WideHex(), t), size) && AllApart(Fields(Level2(WideHex(), t)))
  {
    hide WideHex, Level2;
    var fs := Fields(Level2(WideHex(), t));
    assert |fs| == 85;
    hide Fields;
    forall k: nat | k < 85
      ensures fs[k].start == 3 * k && fs[k].end == 3 * k + 3
    {
      WideFields(t, k);
    }
  }

  /** The dynamic table whose length is kept as 0: its fields lie inside a code of 32 bytes and
      apart, and yet it adds nothing, where its steps would move every field. */
  lemma WideTableIsSkipped(t1: Table, t2: Table, dynamic: bool, buf: seq<byte>)
    requires IsTemp2(t2, dynamic, HexOf(WideHex())) && t1.len == 0 && |buf| >= 32
    ensures |HexOf(WideHex())| == 512 && dynamic && t2.len == 0
    ensures Table2Fits(Level2(WideHex(), 1), |buf|) && AllApart(Fields(Level2(WideHex(), 1)))
    ensures var after := Patched(buf, Choose(t1, t2, 1, false, dynamic));
      after == buf && !FieldMoved(buf, after, 0, 3, FieldSteps(WideHex(), 0, 1))
  {
    hide HexOf, ReadHex, FieldValue, Bits, Table2Fits, Level2, FieldSteps, FieldStart, FieldEnd;
    HexReadsBack(WideHex());
    NumOfEnds();
    assert WideHex()[0] == 255;
    hide WideHex;
    WideFieldsFit(1, |buf|);
    WideField(0);
    ThreeBitsMove(Num(FieldValue(Bits(buf), 0, 3)));
  }

  lemma ThreeBitsMove(v: nat)
    ensures Low(v + 1, 3) != v
  {
  }

  // ---- a call that sends the temperature -----------------------------------------------------------

  /** The call is on, its temperature is allowed in the mode, and the status or the key sends it. */
  predicate SendsTemperature(p: Protocol, c: Call)
    requires ValidCall(c)
  {
    var s := c.status;
    && s.power.On? && !p.rules[s.mode].allTemp && s.temp !in p.rules[s.mode].temps
    && if Solo(p, c.func) then c.func == TEMPERATURE_UP || c.func == TEMPERATURE_DOWN
       else !Solo(p, TEMPERATURE_UP) && !Solo(p, TEMPERATURE_DOWN)
  }

  /** The stage the temperature has among the call's. */
  function TempStage(p: Protocol, c: Call): nat
    requires ValidCall(c)
  {
    if Solo(p, c.func) then 0 else 4
  }

  lemma TempStageIsTemperature(p: Protocol, w: Wind, c: Call)
    requires ValidCall(c) && SendsTemperature(p, c)
    ensures TempStage(p, c) < |Stages(p, w, c)|
    ensures Stages(p, w, c)[TempStage(p, c)]
      == Choose(p.temp1, p.temp2, c.status.temp, p.temp1Dynamic, p.temp2Dynamic)
  {
    hide Choose, Solo, FunctionChoice, SwingChoice, SpeedChoice, ModeChoice, PowerChoice, WindAfter;
  }

  /** Of the call's stages the temperature alone touches the bit, and no checksum writes it. */
  predicate OnlyTemperature(p: Protocol, w: Wind, c: Call, b: nat)
    requires ValidCall(c)
  {
    && Unsummed(p, b)
    && forall i :: 0 <= i < |Stages(p, w, c)| && i != TempStage(p, c) ==> !Touches(Stages(p, w, c)[i], b)
  }

  /** The code the temperature stage finds. */
  function Before(p: Protocol, w: Wind, c: Call): (r: seq<byte>)
    requires ValidCall(c) && SendsTemperature(p, c)
    ensures |r| == |p.defaultCode|
  {
    TempStageIsTemperature(p, w, c);
    StagesFit(p, w, c);
    ApplyStages(p.defaultCode, Stages(p, w, c)[..TempStage(p, c)])
  }

  lemma TemperatureBit(p: Protocol, w: Wind, c: Call, b: nat)
    requires ValidCall(c) && SendsTemperature(p, c) && b < 8 * |p.defaultCode| && OnlyTemperature(p, w, c, b)
    ensures var t := Choose(p.temp1, p.temp2, c.status.temp, p.temp1Dynamic, p.temp2Dynamic);
      && ChoiceFits(t, |p.defaultCode|)
      && Bits(Before(p, w, c))[b] == Bits(p.defaultCode)[b]
      && Bits(SentCode(p, w, c))[b] == Bits(Patched(Before(p, w, c), t))[b]
  {
    hide Bits, Stages, ApplyStages, ApplyBlocks, Touches, ChoiceFits, Patched, Choose, TempStage, SendsTemperature;
    StagesFit(p, w, c);
    TempStageIsTemperature(p, w, c);
    var cs, j, d := Stages(p, w, c), TempStage(p, c), p.defaultCode;
    StagesKeepBit(d, cs[..j], 0, b);
    assert cs[..j][..0] == [];
    NoStages(d);
    StagesKeepBit(d, cs, j + 1, b);
    LastStage(d, cs[..j + 1]);
    assert cs[..j + 1][..j] == cs[..j];
    BlocksKeepBit(ApplyStages(d, cs), p.checksums, b);
  }

  /** In the code sent, a field of a dynamic type 2 table that nothing else touches is the
      default code's plus the steps for the level, modulo two to its width, or plus nothing
      when the table's length is kept as 0. */
  lemma SentFieldIsDefaultPlusSteps(p: Protocol, w: Wind, c: Call, text: string, k: nat)
    requires ValidCall(c) && SendsTemperature(p, c)
    requires |text| >= 2 && IsTemp2(p.temp2, true, text) && p.temp2Dynamic && p.temp1.len == 0
    requires ListedField(ReadHex(text), k, |p.defaultCode|) && AllApart(Fields(Level2(ReadHex(text), c.status.temp)))
    requires var hex := ReadHex(text);
      forall b: nat :: FieldStart(hex, k) <= b < FieldEnd(hex, k) ==> OnlyTemperature(p, w, c, b)
    ensures var hex := ReadHex(text);
      var degrees := FieldDegrees(hex, k, c.status.temp);
      FieldMoved(p.defaultCode, SentCode(p, w, c), FieldStart(hex, k), FieldEnd(hex, k), degrees)
  {
    hide Bits, ReadHex, Level2, OnlyTemperature, SentCode, Before, Choose, Patched, ChoiceFits, IsTemp2, Fields,
         AllApart;
    hide SendsTemperature, FieldDegrees, FieldStart, FieldEnd, Backwards, Num, FieldValue, Low;
    var hex, t := ReadHex(text), c.status.temp;
    var s, e := FieldStart(hex, k), FieldEnd(hex, k);
    var choice := Choose(p.temp1, p.temp2, t, p.temp1Dynamic, p.temp2Dynamic);
    TempFits(p, t);
    DynamicFieldsApplied(p.temp1, p.temp2, text, t, k, p.temp1Dynamic, Before(p, w, c));
    forall b: nat | s <= b < e
      ensures Bits(Before(p, w, c))[b] == Bits(p.defaultCode)[b]
      ensures Bits(SentCode(p, w, c))[b] == Bits(Patched(Before(p, w, c), choice))[b]
    {
      TemperatureBit(p, w, c, b);
    }
    FieldValueFrame(Bits(Before(p, w, c)), Bits(p.defaultCode), s, e);
    FieldValueFrame(Bits(SentCode(p, w, c)), Bits(Patched(Before(p, w, c), choice)), s, e);
  }

  lemma TempFits(p: Protocol, t: nat)
    ensures ChoiceFits(Choose(p.temp1, p.temp2, t, p.temp1Dynamic, p.temp2Dynamic), |p.defaultCode|)
  {
    hide ChoiceFits, Choose, Sized1, Sized2;
    ChooseFits(p.temp1, p.temp2, t, TEMP_MAX, |p.defaultCode|, p.temp1Dynamic, p.temp2Dynamic);
  }

  /** In the code sent, a byte that nothing but a dynamic type 1 table touches is the default
      code's plus the listed steps times the level, modulo 256. */
  lemma SentByteIsDefaultPlusSteps(p: Protocol, w: Wind, c: Call, text: string, i: nat)
    requires ValidCall(c) && SendsTemperature(p, c) && i < |p.defaultCode|
    requires |text| >= 2 && IsTemp1(p.temp1, true, text) && p.temp1Dynamic && |ReadHex(text)| % 2 == 1
    requires forall b: nat :: 8 * i <= b < 8 * i + 8 ==> OnlyTemperature(p, w, c, b)
    ensures Num(SentCode(p, w, c)[i])
      == (Num(p.defaultCode[i]) + StepAt(Steps(ReadHex(text)), i) * c.status.temp) % 256
  {
    hide Bits, ReadHex, OnlyTemperature, SentCode, Before, Choose, Patched, ChoiceFits, IsTemp1, StepAt, Steps, Num;
    hide SendsTemperature;
    var t := c.status.temp;
    var before := Before(p, w, c);
    var choice := Choose(p.temp1, p.temp2, t, p.temp1Dynamic, p.temp2Dynamic);
    TempFits(p, t);
    DynamicBytesApplied(p.temp1, p.temp2, text, t, p.temp2Dynamic, before, i);
    forall b: nat | 8 * i <= b < 8 * i + 8
      ensures Bits(before)[b] == Bits(p.defaultCode)[b]
      ensures Bits(SentCode(p, w, c))[b] == Bits(Patched(before, choice))[b]
    {
      TemperatureBit(p, w, c, b);
    }
    ByteOfBits(before, p.defaultCode, i);
    ByteOfBits(SentCode(p, w, c), Patched(before, choice), i);
  }

  lemma ByteOfBits(a: seq<byte>, b: seq<byte>, i: nat)
    requires |a| == |b| && i < |a|
    requires forall p: nat :: 8 * i <= p < 8 * i + 8 ==> Bits(a)[p] == Bits(b)[p]
    ensures a[i] == b[i]
  {
    hide Bit;
    forall k | 0 <= k < 8
      ensures Bit(a[i], k) == Bit(b[i], k)
    {
      assert Bits(a)[8 * i + k] == Bit(a[i], k) && Bits(b)[8 * i + k] == Bit(b[i], k);
    }
    BitsDetermineByte(a[i], b[i]);
  }
}

/** The dynamic temperature on a call, said of the bytes of its text and of numbers. */
module AcDegreeLaws {
  import opened Halving
  import opened AcBits
  import opened AcFields
  import opened AcApply
  import opened AcTables
  import opened AcParse
  import opened AcProtocol
  import opened AcTemperature
  import opened AcTransmission
  import opened AcDegrees
  import opened AcCallLaws

  // ---- the number in a field -----------------------------------------------------------------------

  /** Bits [start, end) of a code as a number, the last bit lowest. */
  ghost function FieldNumber(code: seq<byte>, start: nat, end: nat): nat
    requires end <= 8 * |code|
    decreases end
  {
    if end <= start then 0 else 2 * FieldNumber(code, start, end - 1) + (if CodeBit(code, end - 1) then 1 else 0)
  }

  lemma {:induction false} FieldNumberIsValue(code: seq<byte>, start: nat, end: nat)
    requires start <= end <= 8 * |code| && end - start <= 8
    ensures Num(FieldValue(Bits(code), start, end)) == FieldNumber(code, start, end) < Pow2(end - start)
    decreases end
  {
    hide Num, Bits, ShiftIn, CodeBit;
    if start == end {
      SmallNums();
    } else {
      FieldNumberIsValue(code, start, end - 1);
      PowersInByte(end - 1 - start);
      BelowHalf(FieldValue(Bits(code), start, end - 1));
      NumOfShiftIn(FieldValue(Bits(code), start, end - 1), Bits(code)[end - 1]);
      CodeBitIsBit(code, end - 1);
    }
  }

  lemma CodeBitIsBit(code: seq<byte>, b: nat)
    requires b < 8 * |code|
    ensures CodeBit(code, b) <==> Bits(code)[b]
  {
    hide Bits, HasBit, Num;
    BitIsNumberBit(code, b);
  }

  lemma BelowHalf(x: byte)
    requires Num(x) < 128
    ensures x < 128
  {
  }

  lemma PowersInByte(n: nat)
    requires n < 8
    ensures Pow2(n) <= 128 && Pow2(n + 1) == 2 * Pow2(n)
  {
    assert Pow2(2) == 4;
    assert Pow2(4) == 16;
    assert Pow2(6) == 64;
    if n == 0 {} else if n == 1 {} else if n == 2 {} else if n == 3 {}
    else if n == 4 {} else if n == 5 {} else if n == 6 {}
  }

  function Times(a: nat, b: nat): nat {
    a * b
  }

  /** The number in bits [start, end) is the one before plus the amount, modulo two to their
      number. */
  ghost predicate NumberMoved(before: seq<byte>, after: seq<byte>, start: nat, end: nat, amount: nat) {
    && start <= end <= 8 * |before| && |after| == |before|
    && FieldNumber(after, start, end) == (FieldNumber(before, start, end) + amount) % Pow2(end - start)
  }

  /** A field moved by an amount is a number moved modulo two to the field's width. */
  lemma MovedIsNumber(before: seq<byte>, after: seq<byte>, start: nat, end: nat, amount: nat)
    requires FieldMoved(before, after, start, end, amount)
    ensures NumberMoved(before, after, start, end, amount)
  {
    hide Num, Bits, FieldValue, Low, FieldNumber, Pow2;
    FieldNumberIsValue(before, start, end);
    FieldNumberIsValue(after, start, end);
    LowIsMod(Num(FieldValue(Bits(before), start, end)) + amount, end - start);
  }

  // ---- what a text lists -----------------------------------------------------------------------------

  /** The text lists steps for byte i: pairs of position and step behind the count. */
  function ByteSteps(hex: seq<byte>, n: nat, i: nat): nat
    requires 2 * n < |hex|
  {
    if n == 0 then 0
    else ByteSteps(hex, n - 1, i) + (if Num(hex[2 * n - 1]) == i then Num(hex[2 * n]) else 0)
  }

  lemma {:induction false} StepsAreByteSteps(hex: seq<byte>, n: nat, i: nat)
    requires hex != [] && n <= |Steps(hex)|
    ensures StepAt(Steps(hex)[..n], i) == ByteSteps(hex, n, i)
  {
    hide Num;
    if n > 0 {
      StepsAreByteSteps(hex, n - 1, i);
      assert Steps(hex)[..n][..n - 1] == Steps(hex)[..n - 1];
    }
  }

  /** The fields of a text, triples of start, end and step behind the count, do not overlap. */
  ghost predicate ListedApart(hex: seq<byte>) {
    forall i: nat, j: nat :: i < j && 3 * j + 3 < |hex| ==> PairApart(hex, i, j)
  }

  predicate PairApart(hex: seq<byte>, i: nat, j: nat)
    requires 3 * i + 3 < |hex| && 3 * j + 3 < |hex|
  {
    var a, b, x, y := Num(hex[3 * i + 1]), Num(hex[3 * i + 2]), Num(hex[3 * j + 1]), Num(hex[3 * j + 2]);
    b <= x || y <= a || b <= a || y <= x
  }

  lemma ListedApartIsApart(hex: seq<byte>, t: nat)
    requires |hex| % 3 == 1 && ListedApart(hex)
    ensures AllApart(Fields(Level2(hex, t)))
  {
    hide Num, Trunc, Level2, Fields, FieldSteps;
    var fs := Fields(Level2(hex, t));
    assert |fs| == (|hex| - 1) / 3 by { FieldCount(hex, t); }
    forall i, j | 0 <= i < j < |fs|
      ensures Apart(fs[i], fs[j])
    {
      Level2Field(hex, t, i);
      Level2Field(hex, t, j);
      assert PairApart(hex, i, j);
    }
  }

  lemma FieldCount(hex: seq<byte>, t: nat)
    requires hex != []
    ensures |Fields(Level2(hex, t))| == (|hex| - 1) / 3
  {
    hide Num, Level2;
  }

  // ---- on the call ------------------------------------------------------------------------------------

  /** The whole status sends the temperature, and nothing else covers bit b. */
  ghost predicate TemperatureAlone(p: Protocol, w: Wind, c: Call, b: nat)
    requires ValidCall(c)
  {
    && NotSummed(p, b)
    && (SoloFunction(p, 1) || Spares(p.power1, Table(0, []), 0, b))
    && ModeSpares(p, c, b) && SpeedSpares(p, c, b) && SwingSpares(p, w, c, b) && FunctionSpares(p, c, b)
  }

  ghost predicate StatusSendsTemperature(p: Protocol, w: Wind, c: Call)
    requires ValidCall(c)
  {
    SendsStatus(p, w, c) && !SoloFunction(p, 3) && !SoloFunction(p, 4) && !TempBanned(p, c.status)
  }

  lemma StatusSendsIsSends(p: Protocol, w: Wind, c: Call)
    requires ValidCall(c) && StatusSendsTemperature(p, w, c)
    ensures SendsTemperature(p, c) && TempStage(p, c) == 4
  {
    hide Solo, SoloFunction, Sends;
    SoloAreBits(p);
  }

  lemma AloneIsOnly(p: Protocol, w: Wind, c: Call, b: nat)
    requires ValidCall(c) && StatusSendsTemperature(p, w, c) && TemperatureAlone(p, w, c, b)
    ensures OnlyTemperature(p, w, c, b)
  {
    hide Stages, Touches, NotSummed, Unsummed, SoloFunction, SendsStatus, Spares, TempStage, SendsTemperature;
    hide ModeSpares, SpeedSpares, SwingSpares, FunctionSpares;
    NotSummedIsUnsummed(p, b);
    PowerStageSpares(p, w, c, b);
    StatusSpares(p, w, c, b);
    StatusSendsIsSends(p, w, c);
  }

  /** Field k of a dynamic field table, in the code sent, is the default code's number plus the
      field's step times the level, modulo two to its width; plus nothing when the data are a
      multiple of 256 bytes. */
  lemma FieldDegreesAreSent(p: Protocol, w: Wind, c: Call, text: string, hex: seq<byte>, k: nat, start: nat, end: nat)
    requires ValidCall(c) && StatusSendsTemperature(p, w, c)
    requires |text| >= 2 && IsTemp2(p.temp2, true, text) && p.temp2Dynamic && p.temp1.len == 0
    requires hex == ReadHex(text) && |hex| % 3 == 1 && 3 * k + 3 < |hex| && ListedApart(hex)
    requires start == Num(hex[3 * k + 1]) < end == Num(hex[3 * k + 2])
    requires end <= start + 8 && end <= 8 * |p.defaultCode|
    requires forall b: nat :: start <= b < end ==> TemperatureAlone(p, w, c, b)
    ensures var added := if |hex| % 256 == 0 then 0 else Times(Num(hex[3 * k + 3]), c.status.temp);
      NumberMoved(p.defaultCode, SentCode(p, w, c), start, end, added)
  {
    hide ReadHex, Num, IsTemp2, SentCode, FieldNumber, FieldMoved, TemperatureAlone, OnlyTemperature, AllApart;
    hide ListedApart, StatusSendsTemperature, SendsTemperature, Pow2;
    StatusSendsIsSends(p, w, c);
    ListedApartIsApart(hex, c.status.temp);
    forall b: nat | start <= b < end
      ensures OnlyTemperature(p, w, c, b)
    {
      AloneIsOnly(p, w, c, b);
    }
    SentFieldIsDefaultPlusSteps(p, w, c, text, k);
    MovedIsNumber(p.defaultCode, SentCode(p, w, c), start, end, FieldDegrees(hex, k, c.status.temp));
  }

  /** Byte i, in the code sent, is the default code's plus the steps a dynamic byte table lists
      for it times the level, modulo 256. */
  lemma ByteDegreesAreSent(p: Protocol, w: Wind, c: Call, text: string, i: nat)
    requires ValidCall(c) && StatusSendsTemperature(p, w, c) && i < |p.defaultCode|
    requires |text| >= 2 && IsTemp1(p.temp1, true, text) && p.temp1Dynamic && |ReadHex(text)| % 2 == 1
    requires forall b: nat :: 8 * i <= b < 8 * i + 8 ==> TemperatureAlone(p, w, c, b)
    ensures var hex := ReadHex(text);
      Num(SentCode(p, w, c)[i])
      == (Num(p.defaultCode[i]) + Times(ByteSteps(hex, (|hex| - 1) / 2, i), c.status.temp)) % 256
  {
    hide ReadHex, Num, IsTemp1, SentCode, TemperatureAlone, OnlyTemperature, StatusSendsTemperature, SendsTemperature;
    var hex := ReadHex(text);
    StatusSendsIsSends(p, w, c);
    forall b: nat | 8 * i <= b < 8 * i + 8
      ensures OnlyTemperature(p, w, c, b)
    {
      AloneIsOnly(p, w, c, b);
    }
    SentByteIsDefaultPlusSteps(p, w, c, text, i);
    StepsAreByteSteps(hex, (|hex| - 1) / 2, i);
    assert Steps(hex)[..(|hex| - 1) / 2] == Steps(hex);
  }
}

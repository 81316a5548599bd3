/** The dynamic temperature tables, from their text to the patched code: one step a listed
    byte or field, multiplied by the level when the table is parsed and added when it is
    applied. */
module AcTemperature {
  import opened Halving
  import opened AcBits
  import opened AcFields
  import opened AcApply
  import opened AcTables
  import opened AcParse
  import opened AcProtocol
  import opened AcTable

  /** The first byte of a dynamic table counts all the others. */
  predicate Dynamic(hex: seq<byte>)
    requires hex != []
  {
    Num(hex[0]) == |hex| - 1
  }

  /** The patches of level t: positions as listed, steps times t, cut to a byte. */
  function Level1(hex: seq<byte>, t: nat): (seg: seq<byte>)
    requires hex != []
    ensures |seg| == |hex| - 1
  {
    seq(|hex| - 1, j requires 0 <= j < |hex| - 1 =>
      if j % 2 == 0 then hex[j + 1] else Trunc(Num(hex[j + 1]) * t))
  }

  function Level2(hex: seq<byte>, t: nat): (seg: seq<byte>)
    requires hex != []
    ensures |seg| == |hex| - 1
  {
    seq(|hex| - 1, j requires 0 <= j < |hex| - 1 =>
      if j % 3 < 2 then hex[j + 1] else Trunc(Num(hex[j + 1]) * t))
  }

  // ---- parsing -----------------------------------------------------------------------------------

  lemma Level1Entry(hex: seq<byte>, t: nat, k: nat)
    requires 2 * k + 2 < |hex|
    ensures var seg := Level1(hex, t);
      seg[2 * k] == hex[2 * k + 1] && seg[2 * k + 1] == Trunc(Num(hex[2 * k + 2]) * t)
  {
    hide Num, Trunc;
  }

  lemma Level2Entry(hex: seq<byte>, t: nat, k: nat)
    requires 3 * k + 3 < |hex|
    ensures var seg := Level2(hex, t);
      seg[3 * k] == hex[3 * k + 1] && seg[3 * k + 1] == hex[3 * k + 2]
        && seg[3 * k + 2] == Trunc(Num(hex[3 * k + 3]) * t)
  {
    hide Num, Trunc;
  }

  /** One level of a type 1 table.  With an odd count the last byte stays as allocated. */
  method BuildLevel1(hex: seq<byte>, t: nat) returns (seg: array<byte>)
    requires hex != [] && Dynamic(hex)
    ensures fresh(seg) && seg.Length == |hex| - 1
    ensures seg.Length % 2 == 0 ==> seg[..] == Level1(hex, t)
  {
    hide Num, Trunc, Level1;
    var segLen := Num(hex[0]);
    seg := new byte[segLen];
    var i := 1;
    ghost var k := 0;
    while i < segLen
      invariant i == 2 * k + 1 <= segLen + 1
      invariant forall j :: 0 <= j < 2 * k && j < segLen ==> seg[j] == Level1(hex, t)[j]
    {
      Level1Entry(hex, t, k);
      k := k + 1;
      seg[i - 1] := hex[i];
      seg[i] := Trunc(Num(hex[i + 1]) * t);
      i := i + 2;
    }
  }

  /** One level of a type 2 table.  When the count is no multiple of three, the entries left
      over stay as allocated. */
  method BuildLevel2(hex: seq<byte>, t: nat) returns (seg: array<byte>)
    requires hex != [] && Dynamic(hex)
    ensures fresh(seg) && seg.Length == |hex| - 1
    ensures seg.Length % 3 == 0 ==> seg[..] == Level2(hex, t)
  {
    hide Num, Trunc, Level2;
    var segLen := Num(hex[0]);
    seg := new byte[segLen];
    var i := 2;
    ghost var k := 0;
    while i < segLen
      invariant i == 3 * k + 2 <= segLen + 2
      invariant forall j :: 0 <= j < 3 * k && j < segLen ==> seg[j] == Level2(hex, t)[j]
    {
      Level2Entry(hex, t, k);
      k := k + 1;
      seg[i - 2] := hex[i - 1];
      seg[i - 1] := hex[i];
      seg[i] := Trunc(Num(hex[i + 1]) * t);
      i := i + 3;
    }
  }

  predicate TempComplete(text: string) {
    text != [] ==> |text| >= 2 && (Dynamic(ReadHex(text)) || WellFormed(ReadHex(text), 0, TEMP_MAX))
  }

  /** What is read from the text of a type 1 temperature table: its length, as a byte, and
      its levels, scaled or one segment each.  With an odd count the levels' last byte
      is as allocated. */
  predicate IsTemp1(t: Table, dynamic: bool, text: string) {
    if |text| < 2 then t == ABSENT && !dynamic else
      var hex := ReadHex(text);
      && dynamic == Dynamic(hex) && t.len == |hex| % 256 && |t.comps| == TEMP_MAX
      && if dynamic then
           && (forall k :: 0 <= k < TEMP_MAX ==> |t.comps[k]| == |hex| - 1)
           && (|hex| % 2 == 1 ==> forall k :: 0 <= k < TEMP_MAX ==> t.comps[k] == Level1(hex, k))
         else WellFormed(hex, 0, TEMP_MAX) && t.comps == Padded(Segments(hex, 0, TEMP_MAX), TEMP_MAX)
  }

  /** All levels of a dynamic table. */
  method BuildLevels1(hex: seq<byte>) returns (comps: seq<seq<byte>>)
    requires hex != [] && Dynamic(hex)
    ensures |comps| == TEMP_MAX && forall k :: 0 <= k < TEMP_MAX ==> |comps[k]| == |hex| - 1
    ensures |hex| % 2 == 1 ==> forall k :: 0 <= k < TEMP_MAX ==> comps[k] == Level1(hex, k)
  {
    hide Dynamic, Level1;
    comps := [];
    while |comps| < TEMP_MAX
      invariant |comps| <= TEMP_MAX && forall k :: 0 <= k < |comps| ==> |comps[k]| == |hex| - 1
      invariant |hex| % 2 == 1 ==> forall k :: 0 <= k < |comps| ==> comps[k] == Level1(hex, k)
    {
      var seg := BuildLevel1(hex, |comps|);
      comps := comps + [seg[..]];
    }
  }

  method ParseTemp1(text: string) returns (t: Table, dynamic: bool)
    requires TempComplete(text)
    ensures IsTemp1(t, dynamic, text)
  {
    hide Num, ReadHex, Segments, WellFormed, Level1, Padded;
    if text == [] {
      return ABSENT, false;
    }
    var hex := ReadHex(text);
    dynamic := Num(hex[0]) == |hex| - 1;
    var comps;
    if dynamic {
      comps := BuildLevels1(hex);
    } else {
      comps := ReadLevels(hex, TEMP_MAX);
    }
    t := Table(|hex| % 256, comps);
  }

  /** What is read from the text of a type 2 temperature table: its length, as a byte, and
      its levels, scaled or one segment each.  When the count is no multiple of three,
      the bytes left over are as allocated. */
  predicate IsTemp2(t: Table, dynamic: bool, text: string) {
    if |text| < 2 then t == ABSENT && !dynamic else
      var hex := ReadHex(text);
      && dynamic == Dynamic(hex) && t.len == |hex| % 256 && |t.comps| == TEMP_MAX
      && if dynamic then
           && (forall k :: 0 <= k < TEMP_MAX ==> |t.comps[k]| == |hex| - 1)
           && (|hex| % 3 == 1 ==> forall k :: 0 <= k < TEMP_MAX ==> t.comps[k] == Level2(hex, k))
         else WellFormed(hex, 0, TEMP_MAX) && t.comps == Padded(Segments(hex, 0, TEMP_MAX), TEMP_MAX)
  }

  /** All levels of a dynamic table. */
  method BuildLevels2(hex: seq<byte>) returns (comps: seq<seq<byte>>)
    requires hex != [] && Dynamic(hex)
    ensures |comps| == TEMP_MAX && forall k :: 0 <= k < TEMP_MAX ==> |comps[k]| == |hex| - 1
    ensures |hex| % 3 == 1 ==> forall k :: 0 <= k < TEMP_MAX ==> comps[k] == Level2(hex, k)
  {
    hide Dynamic, Level2;
    comps := [];
    while |comps| < TEMP_MAX
      invariant |comps| <= TEMP_MAX && forall k :: 0 <= k < |comps| ==> |comps[k]| == |hex| - 1
      invariant |hex| % 3 == 1 ==> forall k :: 0 <= k < |comps| ==> comps[k] == Level2(hex, k)
    {
      var seg := BuildLevel2(hex, |comps|);
      comps := comps + [seg[..]];
    }
  }

  method ParseTemp2(text: string) returns (t: Table, dynamic: bool)
    requires TempComplete(text)
    ensures IsTemp2(t, dynamic, text)
  {
    hide Num, ReadHex, Segments, WellFormed, Level2, Padded;
    if text == [] {
      return ABSENT, false;
    }
    var hex := ReadHex(text);
    dynamic := Num(hex[0]) == |hex| - 1;
    var comps;
    if dynamic {
      comps := BuildLevels2(hex);
    } else {
      comps := ReadLevels(hex, TEMP_MAX);
    }
    t := Table(|hex| % 256, comps);
  }

  // ---- applying a level of bytes -----------------------------------------------------------------

  datatype Step = Step(pos: nat, size: nat)

  function Steps(hex: seq<byte>): seq<Step>
    requires hex != []
  {
    seq((|hex| - 1) / 2, k requires 0 <= k < (|hex| - 1) / 2 => Step(Num(hex[2 * k + 1]), Num(hex[2 * k + 2])))
  }

  function Scaled(steps: seq<Step>, t: nat): seq<Put> {
    seq(|steps|, k requires 0 <= k < |steps| => Put(steps[k].pos, Trunc(steps[k].size * t)))
  }

  /** The steps listed for byte i, added up. */
  function StepAt(steps: seq<Step>, i: nat): nat {
    if steps == [] then 0
    else StepAt(steps[..|steps| - 1], i) + (if steps[|steps| - 1].pos == i then steps[|steps| - 1].size else 0)
  }

  lemma Level1IsScaled(hex: seq<byte>, t: nat)
    requires |hex| % 2 == 1
    ensures Puts(Level1(hex, t)) == Scaled(Steps(hex), t)
  {
    hide Num, Trunc;
  }

  lemma ModSum(a: nat, b: nat)
    ensures (a % 256 + b % 256) % 256 == (a + b) % 256
  {
    ModInner(a % 256, b);
    ModInner(b, a);
  }

  lemma {:induction false} ListedIsScaledStep(steps: seq<Step>, t: nat, i: nat)
    ensures Num(Listed(Scaled(steps, t), i)) == (StepAt(steps, i) * t) % 256
  {
    hide Num, Trunc, Plus;
    if steps == [] {
      NoSteps();
    } else {
      var n := |steps| - 1;
      var last := steps[n];
      ListedIsScaledStep(steps[..n], t, i);
      assert Scaled(steps, t)[..n] == Scaled(steps[..n], t);
      var x, y := if last.pos == i then last.size else 0, if last.pos == i then Trunc(last.size * t) else 0;
      NumOfTrunc(last.size * t);
      NoSteps();
      AddScaled(Listed(Scaled(steps[..n], t), i), y, StepAt(steps[..n], i), x, t);
    }
  }

  lemma AddScaled(p: byte, q: byte, a: nat, b: nat, t: nat)
    requires Num(p) == (a * t) % 256 && Num(q) == (b * t) % 256
    ensures Num(Plus(p, q)) == ((a + b) * t) % 256
  {
    hide Num, Plus;
    AddIsModular(p, q);
    ModSum(a * t, b * t);
    Distribute(a, b, t);
  }

  lemma NoSteps()
    ensures Num(0) == 0
  {
  }

  lemma Distribute(a: nat, b: nat, t: nat)
    ensures (a + b) * t == a * t + b * t
  {
  }

  /** At level t of a dynamic type 1 table, every byte ends at what it held plus t times its
      listed steps, modulo 256, although each product is cut to a byte when parsed. */
  lemma DynamicBytes(hex: seq<byte>, buf: seq<byte>, t: nat, i: nat)
    requires |hex| % 2 == 1 && Table1Fits(Level1(hex, t), |buf|) && i < |buf|
    ensures Num(Table1(buf, Level1(hex, t), true)[i]) == (Num(buf[i]) + StepAt(Steps(hex), i) * t) % 256
  {
    hide Num, PutAll, Level1, Listed, Plus;
    var puts := Puts(Level1(hex, t));
    Level1IsScaled(hex, t);
    BytesAdded(buf, puts, i);
    ListedIsScaledStep(Steps(hex), t, i);
    AddIsModular(buf[i], Listed(puts, i));
    ModInner(Num(buf[i]), StepAt(Steps(hex), i) * t);
  }

  // ---- applying a level of fields ----------------------------------------------------------------

  /** The k-th field of a dynamic type 2 table, with its step. */
  function FieldStart(hex: seq<byte>, k: nat): nat
    requires 3 * k + 3 < |hex|
  {
    Num(hex[3 * k + 1])
  }

  function FieldEnd(hex: seq<byte>, k: nat): nat
    requires 3 * k + 3 < |hex|
  {
    Num(hex[3 * k + 2])
  }

  /** The field's step, t times. */
  function FieldSteps(hex: seq<byte>, k: nat, t: nat): nat
    requires 3 * k + 3 < |hex|
  {
    Num(hex[3 * k + 3]) * t
  }

  lemma Level2Field(hex: seq<byte>, t: nat, k: nat)
    requires |hex| % 3 == 1 && 3 * k + 3 < |hex|
    ensures k < |Fields(Level2(hex, t))|
    ensures Fields(Level2(hex, t))[k] == Field(FieldStart(hex, k), FieldEnd(hex, k), Trunc(FieldSteps(hex, k, t)))
  {
    hide Num, Trunc;
  }

  /** The field [s, e) of `after` is that of `before` plus an amount, modulo two to its width. */
  predicate FieldMoved(before: seq<byte>, after: seq<byte>, s: nat, e: nat, amount: nat) {
    && |before| == |after| && s <= e <= 8 * |before| && e - s <= 8
    && Num(FieldValue(Bits(after), s, e)) == Low(Num(FieldValue(Bits(before), s, e)) + amount, e - s)
  }

  lemma MovedValue(v: byte, step: nat, w: nat)
    requires w <= 8
    ensures Num(LowBits(Plus(v, Trunc(step)), w)) == Low(Num(v) + step, w)
  {
    hide Num, Trunc, Plus, LowBits, Low;
    NumOfLowBits(Plus(v, Trunc(step)), w);
    AddIsModular(v, Trunc(step));
    NumOfTrunc(step);
    LowThroughByte(Num(v), step, w);
  }

  lemma FieldMovedBy(buf: seq<byte>, fs: seq<Field>, k: nat, step: nat)
    requires FieldsFit(fs, |buf|) && AllApart(fs) && k < |fs| && fs[k].raw == Trunc(step) && !Refused(fs[k])
    ensures FieldMoved(buf, SetAll(buf, fs, true), fs[k].start, fs[k].end, step)
  {
    hide Num, Trunc, SetAll, Bits, FieldValue, Plus, LowBits, Low, AllApart, Refused, FieldsFit;
    FieldsAdded(buf, fs, k);
    MovedValue(FieldValue(Bits(buf), fs[k].start, fs[k].end), step, fs[k].end - fs[k].start);
  }

  /** At level t of a dynamic type 2 table whose fields do not overlap, every listed field of
      w bits ends at what it held plus t times its step, modulo two to the w; a field that
      starts in a later byte than it ends is refused. */
  lemma DynamicFields(hex: seq<byte>, buf: seq<byte>, t: nat, k: nat)
    requires |hex| % 3 == 1 && 3 * k + 3 < |hex|
    requires Table2Fits(Level2(hex, t), |buf|) && AllApart(Fields(Level2(hex, t)))
    requires !Backwards(FieldStart(hex, k), FieldEnd(hex, k))
    ensures var after := Table2(buf, Level2(hex, t), true);
      FieldMoved(buf, after, FieldStart(hex, k), FieldEnd(hex, k), FieldSteps(hex, k, t))
  {
    hide Num, Trunc, SetAll, Level2, Fields, FieldMoved, FieldSteps, FieldStart, FieldEnd;
    Level2Field(hex, t, k);
    FieldMovedBy(buf, Fields(Level2(hex, t)), k, FieldSteps(hex, k, t));
  }
}

/** The crystal capacitor trim of the CC26xx: row (four bits) and column (sixteen bits) are
    thermometer codes, and the customer's signed delta steps the pair up or down. */
module TrimLoops {
  import opened Halving

  const COL_MAX: nat := 0xFFFF
  const ROW_MAX: nat := 0xF

  datatype Trim = Trim(row: nat, col: nat)

  predicate InFields(t: Trim) {
    t.row <= ROW_MAX && t.col <= COL_MAX
  }

  // ---- the steps ---------------------------------------------------------------------------------

  function Down(t: Trim): (r: Trim)
    ensures InFields(t) ==> InFields(r)
  {
    if t.col / 2 != 0 then t.(col := t.col / 2)
    else if t.row / 2 != 0 then Trim(t.row / 2, COL_MAX)
    else Trim(1, 1)
  }

  function Up(t: Trim): (r: Trim)
    ensures InFields(t) ==> InFields(r)
  {
    if 2 * t.col + 1 <= COL_MAX then t.(col := 2 * t.col + 1)
    else if 2 * t.row + 1 <= ROW_MAX then Trim(2 * t.row + 1, 1)
    else Trim(ROW_MAX, COL_MAX)
  }

  function Steps(t: Trim, delta: int): Trim
    decreases if delta < 0 then -delta else delta
  {
    if delta < 0 then Steps(Down(t), delta + 1)
    else if delta > 0 then Steps(Up(t), delta - 1)
    else t
  }

  // ---- the position a trim stands for ----------------------------------------------------------

  /** The k lowest bits set. */
  function Thermometer(k: nat): nat {
    if k == 0 then 0 else 2 * Thermometer(k - 1) + 1
  }

  const POSITIONS: nat := 64

  /** Position p: 16 columns to a row. */
  function At(p: nat): Trim {
    Trim(Thermometer(p / 16 + 1), Thermometer(p % 16 + 1))
  }

  function Clamp(p: int): nat {
    if p < 0 then 0 else if p >= POSITIONS then POSITIONS - 1 else p
  }

  lemma {:induction false} ThermometerGrows(a: nat, b: nat)
    requires a < b
    ensures Thermometer(a) < Thermometer(b)
  {
    if a > 0 {
      ThermometerGrows(a - 1, b - 1);
    }
  }

  lemma ThermometerMaxima()
    ensures Thermometer(4) == ROW_MAX && Thermometer(16) == COL_MAX
  {
    assert Thermometer(8) == 0xFF;
    assert Thermometer(12) == 0xFFF;
  }

  lemma UpWithinRow(p: nat)
    requires p < POSITIONS && p % 16 < 15
    ensures Up(At(p)) == At(p + 1)
  {
    var row, col := p / 16, p % 16;
    assert (p + 1) / 16 == row && (p + 1) % 16 == col + 1;
    assert Thermometer(col + 2) == 2 * Thermometer(col + 1) + 1;
    hide Thermometer;
    ThermometerMaxima();
    if col + 2 < 16 {
      ThermometerGrows(col + 2, 16);
    }
  }

  lemma LastInRow(row: nat)
    ensures At(16 * row + 15) == Trim(Thermometer(row + 1), COL_MAX)
    ensures At(16 * row + 16) == Trim(Thermometer(row + 2), 1)
  {
    assert (16 * row + 15) / 16 == row && (16 * row + 16) / 16 == row + 1;
    assert Thermometer(1) == 1;
    hide Thermometer;
    ThermometerMaxima();
  }

  lemma UpToNextRow(row: nat)
    requires row < 4
    ensures Up(At(16 * row + 15)) == At(Clamp(16 * row + 16))
  {
    assert Thermometer(row + 2) == 2 * Thermometer(row + 1) + 1;
    hide Thermometer, At;
    LastInRow(row);
    ThermometerMaxima();
    if row + 2 < 4 {
      ThermometerGrows(row + 2, 4);
    }
  }

  lemma UpFrom(p: nat)
    requires p < POSITIONS
    ensures Up(At(p)) == At(Clamp(p + 1))
  {
    hide Up, At;
    if p % 16 < 15 {
      UpWithinRow(p);
    } else {
      UpToNextRow(p / 16);
      assert p == 16 * (p / 16) + 15;
    }
  }

  lemma DownFrom(p: nat)
    requires p < POSITIONS
    ensures Down(At(p)) == At(Clamp(p - 1))
  {
    var row, col := p / 16, p % 16;
    HalfThermometer(row);
    HalfThermometer(col);
    assert Thermometer(1) == 1;
    hide Thermometer;
    ThermometerMaxima();
    if col > 0 {
      assert (p - 1) / 16 == row && (p - 1) % 16 == col - 1;
    } else if row > 0 {
      assert (p - 1) / 16 == row - 1 && (p - 1) % 16 == 15;
    }
  }

  lemma HalfThermometer(k: nat)
    ensures Thermometer(k + 1) / 2 == Thermometer(k) && (Thermometer(k) == 0 <==> k == 0)
  {
    if k > 0 {
      ThermometerGrows(0, k);
    }
  }

  /** The stepping is a saturating addition on positions. */
  lemma {:induction false} StepsSaturate(p: nat, delta: int)
    requires p < POSITIONS
    ensures Steps(At(p), delta) == At(Clamp(p + delta))
    decreases if delta < 0 then -delta else delta
  {
    hide At, Up, Down;
    if delta < 0 {
      DownFrom(p);
      StepsSaturate(Clamp(p - 1), delta + 1);
    } else if delta > 0 {
      UpFrom(p);
      StepsSaturate(Clamp(p + 1), delta - 1);
    }
  }

  lemma {:induction false} ThermometerIsPower(k: nat)
    ensures Thermometer(k) == Pow2(k) - 1
  {
    if k > 0 {
      ThermometerIsPower(k - 1);
    }
  }

  /** With the lowest `row` bits of the row and the lowest `col` bits of the column set, position
      16 * (row - 1) + col - 1, the delta leads to the position it adds up to, between 0 and 63. */
  lemma TrimIsPosition(row: nat, col: nat, delta: int)
    requires 1 <= row <= 4 && 1 <= col <= 16
    ensures var sum := 16 * (row - 1) + (col - 1) + delta;
      var q := if sum < 0 then 0 else if sum > 63 then 63 else sum;
      Steps(Trim(Pow2(row) - 1, Pow2(col) - 1), delta) == Trim(Pow2(q / 16 + 1) - 1, Pow2(q % 16 + 1) - 1)
  {
    hide Steps, Thermometer, Pow2;
    var p := 16 * (row - 1) + (col - 1);
    assert p / 16 + 1 == row && p % 16 + 1 == col;
    StepsSaturate(p, delta);
    ThermometerIsPower(row);
    ThermometerIsPower(col);
    ThermometerIsPower(Clamp(p + delta) / 16 + 1);
    ThermometerIsPower(Clamp(p + delta) % 16 + 1);
  }

  lemma PositionsApart(p: nat, q: nat)
    requires p < POSITIONS && q < POSITIONS && p != q
    ensures At(p) != At(q)
  {
    if p / 16 != q / 16 {
      var a, b := p / 16 + 1, q / 16 + 1;
      ThermometerGrows(if a < b then a else b, if a < b then b else a);
    } else {
      ThermometerGrows(if p < q then p % 16 + 1 else q % 16 + 1, if p < q then q % 16 + 1 else p % 16 + 1);
    }
  }

  /** Stepping back undoes a delta exactly when the delta did not saturate, or led from one
      end of the range beyond the other. */
  lemma SteppingBackUndoesIff(p: nat, delta: int)
    requires p < POSITIONS
    ensures Steps(Steps(At(p), delta), -delta) == At(p) <==>
      0 <= p + delta < POSITIONS || (p == 0 && delta > 0) || (p == POSITIONS - 1 && delta < 0)
  {
    hide At, Steps;
    StepsSaturate(p, delta);
    StepsSaturate(Clamp(p + delta), -delta);
    if Clamp(Clamp(p + delta) - delta) != p {
      PositionsApart(Clamp(Clamp(p + delta) - delta), p);
    }
  }

  // ---- the delta -----------------------------------------------------------------------------------

  const WORD32: nat := 0x1_0000_0000

  /** A 32-bit word read as a signed number. */
  function Signed(w: nat): int {
    if w < WORD32 / 2 then w else w - WORD32
  }

  /** The word moved up sixteen bits, and back down twenty-four with its sign. */
  function Delta(conf: nat): int {
    Signed(conf * 0x1_0000 % WORD32) / 0x100_0000
  }

  /** The shifts take bits 8 to 15 as a signed byte. */
  lemma DeltaIsSignedByte(conf: nat)
    requires conf < WORD32
    ensures -128 <= Delta(conf) < 128
    ensures Delta(conf) % 0x100 == conf / 0x100 % 0x100
  {
    var low := conf % 0x1_0000;
    LowHalf(conf);
    SignedLow(low);
    hide Signed;
  }

  lemma LowHalf(conf: nat)
    ensures conf * 0x1_0000 % WORD32 == conf % 0x1_0000 * 0x1_0000
    ensures conf / 0x100 % 0x100 == conf % 0x1_0000 / 0x100
  {
    Shifted(conf / 0x1_0000, conf % 0x1_0000);
    assert conf == 0x1_0000 * (conf / 0x1_0000) + conf % 0x1_0000;
  }

  lemma Shifted(q: nat, r: nat)
    requires r < 0x1_0000
    ensures (0x1_0000 * q + r) * 0x1_0000 % WORD32 == r * 0x1_0000
    ensures (0x1_0000 * q + r) / 0x100 % 0x100 == r / 0x100
  {
    assert (0x1_0000 * q + r) * 0x1_0000 == WORD32 * q + r * 0x1_0000;
    assert (0x1_0000 * q + r) / 0x100 == 0x100 * q + r / 0x100;
  }

  lemma SignedLow(low: nat)
    requires low < 0x1_0000
    ensures var d := Signed(low * 0x1_0000) / 0x100_0000;
      d == if low / 0x100 < 0x80 then low / 0x100 else low / 0x100 - 0x100
  {
    var q, r := low / 0x100, low % 0x100;
    assert low * 0x1_0000 == q * 0x100_0000 + r * 0x1_0000;
    assert low * 0x1_0000 - WORD32 == (q - 0x100) * 0x100_0000 + r * 0x1_0000;
  }

  // ---- the register word -----------------------------------------------------------------------------

  function Or(a: nat, b: nat): nat
    decreases a + b
  {
    if a == 0 && b == 0 then 0 else (if a % 2 == 1 || b % 2 == 1 then 1 else 0) + 2 * Or(a / 2, b / 2)
  }

  lemma {:induction false} OrCommutes(a: nat, b: nat)
    ensures Or(a, b) == Or(b, a)
    decreases a + b
  {
    if a != 0 || b != 0 {
      OrCommutes(a / 2, b / 2);
    }
  }

  lemma {:induction false} OrNothing(a: nat)
    ensures Or(a, 0) == a
  {
    if a != 0 {
      OrNothing(a / 2);
    }
  }

  lemma {:induction false} ShrOr(a: nat, b: nat, k: nat)
    ensures Shr(Or(a, b), k) == Or(Shr(a, k), Shr(b, k))
    decreases k
  {
    if k > 0 {
      ShrOr(a / 2, b / 2, k - 1);
    }
  }

  lemma {:induction false} LowOr(a: nat, b: nat, k: nat)
    requires Low(b, k) == 0
    ensures Low(Or(a, b), k) == Low(a, k)
    decreases k
  {
    if k > 0 {
      LowOr(a / 2, b / 2, k - 1);
    }
  }

  lemma {:induction false} ShlMovesBack(v: nat, k: nat, m: nat)
    requires k <= m
    ensures Shr(Shl(v, m), k) == Shl(v, m - k)
    decreases k
  {
    if k > 0 {
      ShlMovesBack(v, k - 1, m - 1);
    }
  }

  lemma {:induction false} LowOfShl(v: nat, m: nat, k: nat)
    requires k <= m
    ensures Low(Shl(v, m), k) == 0
    decreases k
  {
    if k > 0 {
      LowOfShl(v, m - 1, k - 1);
    }
  }

  lemma {:induction false} ShlStaysBelow(v: nat, w: nat, m: nat, k: nat)
    requires v < Shl(1, w) && m + w <= k
    ensures Shr(Shl(v, m), k) == 0
    decreases m
  {
    if m > 0 {
      ShlStaysBelow(v, w, m - 1, k - 1);
    } else {
      LowBelow(v, w);
      ShrAdd(v, w, k - w);
      LowBelow(0, k - w);
      LowShrSplit(0, k - w);
      ShrNothing(k - w);
    }
  }

  lemma {:induction false} ShrNothing(k: nat)
    ensures Shr(0, k) == 0
  {
    if k > 0 {
      ShrNothing(k - 1);
    }
  }

  /** Two fields, one above the other, both read back from their place in the word. */
  lemma StackedFields(hi: nat, hs: nat, hw: nat, lo: nat, ls: nat, lw: nat)
    requires hi < Shl(1, hw) && lo < Shl(1, lw) && ls + lw <= hs
    ensures var word := Or(Shl(hi, hs), Shl(lo, ls));
      Low(Shr(word, hs), hw) == hi && Low(Shr(word, ls), lw) == lo
  {
    hide Or, Shl, Shr, Low;
    var a, b := Shl(hi, hs), Shl(lo, ls);
    ShrOr(a, b, hs);
    ShlMovesBack(hi, hs, hs);
    ShlNone(hi);
    ShlStaysBelow(lo, lw, ls, hs);
    OrNothing(hi);
    LowBelow(hi, hw);
    ShrOr(a, b, ls);
    ShlMovesBack(hi, ls, hs);
    ShlMovesBack(lo, ls, ls);
    ShlNone(lo);
    LowOfShl(hi, hs - ls, lw);
    OrCommutes(Shl(hi, hs - ls), lo);
    LowOr(lo, Shl(hi, hs - ls), lw);
    LowBelow(lo, lw);
  }

  lemma ShlNone(v: nat)
    ensures Shl(v, 0) == v
  {
  }

  /** Where the register has its two fields. */
  datatype Places = Places(row: nat, col: nat)

  /** The fields lie inside the 32-bit word and apart. */
  predicate PlacesOk(at: Places) {
    at.row + 4 <= 32 && at.col + 16 <= 32 && (at.col + 16 <= at.row || at.row + 4 <= at.col)
  }

  function Word(t: Trim, at: Places): nat {
    Or(Shl(t.row, at.row), Shl(t.col, at.col))
  }

  /** The word holds both fields at their places. */
  lemma WordHoldsFields(t: Trim, at: Places)
    requires InFields(t) && PlacesOk(at)
    ensures Low(Shr(Word(t, at), at.row), 4) == t.row && Low(Shr(Word(t, at), at.col), 16) == t.col
  {
    FieldSizes();
    hide Or, Shl, Shr, Low;
    if at.col + 16 <= at.row {
      StackedFields(t.row, at.row, 4, t.col, at.col, 16);
    } else {
      StackedFields(t.col, at.col, 16, t.row, at.row, 4);
      OrCommutes(Shl(t.row, at.row), Shl(t.col, at.col));
    }
  }

  lemma FieldSizes()
    ensures Shl(1, 4) == ROW_MAX + 1 && Shl(1, 16) == COL_MAX + 1
  {
    assert Shl(1, 8) == 0x100;
    assert Shl(1, 12) == 0x1000;
  }

  // ---- the loops ------------------------------------------------------------------------------------

  /** The trim after the customer's delta, where it is in use. */
  function Adjusted(factory: Trim, conf: nat, deltaInUse: bool): Trim {
    if deltaInUse then Steps(factory, Delta(conf)) else factory
  }

  /** factory is what the factory area holds in the two fields, deltaInUse whether the
      configuration's delta bit is clear, at where the register has the fields. */
  method GetTrimForAnabypassValue1(revision: nat, factory: Trim, conf: nat, deltaInUse: bool, at: Places)
    returns (trim: nat)
    requires InFields(factory) && conf < WORD32 && PlacesOk(at)
    ensures trim == if revision == 0 then 0x000F0FFF else Word(Adjusted(factory, conf, deltaInUse), at)
    ensures revision != 0 ==>
      Trim(Low(Shr(trim, at.row), 4), Low(Shr(trim, at.col), 16)) == Adjusted(factory, conf, deltaInUse)
    ensures forall p: nat :: p < POSITIONS && factory == At(p) && revision != 0 ==>
      trim == Word(At(if deltaInUse then Clamp(p + Delta(conf)) else p), at)
  {
    hide Word, Low, Shr, Shl, Or, Delta, At;
    if revision == 0 {
      return 0x000F0FFF;
    }
    var row: nat, col: nat := factory.row, factory.col;
    if deltaInUse {
      row, col := StepAll(row, col, Delta(conf));
    }
    trim := Word(Trim(row, col), at);
    WordHoldsFields(Trim(row, col), at);
    forall p: nat | p < POSITIONS && factory == At(p)
      ensures Adjusted(factory, conf, deltaInUse) == At(if deltaInUse then Clamp(p + Delta(conf)) else p)
    {
      StepsSaturate(p, Delta(conf));
    }
  }

  /** The two loops: down for a negative delta, up for a positive one. */
  method StepAll(row0: nat, col0: nat, amount: int) returns (row: nat, col: nat)
    requires InFields(Trim(row0, col0))
    ensures Trim(row, col) == Steps(Trim(row0, col0), amount) && InFields(Trim(row, col))
  {
    row, col := row0, col0;
    var delta := amount;
    while delta < 0
      invariant delta <= 0 || delta == amount
      invariant Steps(Trim(row, col), delta) == Steps(Trim(row0, col0), amount)
      invariant InFields(Trim(row, col))
    {
      ghost var t := Trim(row, col);
      col := col / 2;
      if col == 0 {
        col := COL_MAX;
        row := row / 2;
        if row == 0 {
          row := 1;
          col := 1;
        }
      }
      assert Trim(row, col) == Down(t);
      delta := delta + 1;
    }
    while delta > 0
      invariant 0 <= delta
      invariant Steps(Trim(row, col), delta) == Steps(Trim(row0, col0), amount)
      invariant InFields(Trim(row, col))
    {
      ghost var t := Trim(row, col);
      col := 2 * col + 1;
      if col > COL_MAX {
        col := 1;
        row := 2 * row + 1;
        if row > ROW_MAX {
          row := ROW_MAX;
          col := COL_MAX;
        }
      }
      assert Trim(row, col) == Up(t);
      delta := delta - 1;
    }
  }
}

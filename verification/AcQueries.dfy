/** The capability queries, and how they compare with what a control call accepts. */
module AcQueries {
  import opened AcBits
  import opened AcProtocol

  /** A table that is present has no patches for the level. */
  predicate Missing(t: Table, level: nat)
    requires t.len != 0 ==> level < |t.comps|
  {
    t.len != 0 && t.comps[level] == []
  }

  predicate TempListed(p: Protocol, mode: nat, t: nat)
    requires mode < MODE_MAX && t < TEMP_MAX
  {
    && !p.rules[mode].allTemp && t !in p.rules[mode].temps
    && !Missing(p.temp1, t) && !Missing(p.temp2, t)
  }

  predicate SpeedListed(p: Protocol, mode: nat, v: nat)
    requires mode < MODE_MAX && v < SPEED_MAX
  {
    && !p.rules[mode].allSpeed && v !in p.rules[mode].speeds
    && !Missing(p.speed1, v) && !Missing(p.speed2, v)
  }

  predicate ModeListed(p: Protocol, m: nat)
    requires m < MODE_MAX
  {
    p.rules[m].enable && !Missing(p.mode1, m) && !Missing(p.mode2, m)
  }

  // ---- what is listed against what a call accepts --------------------------------------------------

  /** What is listed is accepted; what is accepted is listed unless both tables are present
      and the second, which a call never looks at then, has no patches for the level. */
  lemma ListedTempIsAccepted(p: Protocol, mode: nat, t: nat)
    requires mode < MODE_MAX && t < TEMP_MAX
    ensures TempListed(p, mode, t) <==>
      !TempChoice(p, mode, t).Refuse? && !(p.temp1.len != 0 && p.temp2.len != 0 && p.temp2.comps[t] == [])
  {
  }

  lemma ListedSpeedIsAccepted(p: Protocol, mode: nat, v: nat)
    requires mode < MODE_MAX && v < SPEED_MAX
    ensures SpeedListed(p, mode, v) <==>
      !SpeedChoice(p, mode, v).Refuse? && !(p.speed1.len != 0 && p.speed2.len != 0 && p.speed2.comps[v] == [])
  {
  }

  lemma ListedModeIsAccepted(p: Protocol, m: nat)
    requires m < MODE_MAX
    ensures ModeListed(p, m) <==>
      p.rules[m].enable && !ModeChoice(p, m).Refuse?
      && !(p.mode1.len != 0 && p.mode2.len != 0 && p.mode2.comps[m] == [])
  {
  }

  // ---- the queries ---------------------------------------------------------------------------------

  /** The lowest and highest temperature listed for a mode; -1 and -1 when there is none. */
  method GetTemperatureRange(p: Protocol, mode: nat) returns (ok: bool, tempMin: int, tempMax: int)
    ensures ok <==> mode < MODE_MAX
    ensures ok ==> -1 <= tempMin <= tempMax < TEMP_MAX && (tempMin == -1 <==> tempMax == -1)
    ensures ok && tempMin >= 0 ==> TempListed(p, mode, tempMin) && TempListed(p, mode, tempMax)
    ensures ok ==> forall t: nat :: t < TEMP_MAX && TempListed(p, mode, t) ==> tempMin >= 0 && tempMin <= t <= tempMax
    ensures ok && tempMin >= 0 ==> !TempChoice(p, mode, tempMin).Refuse? && !TempChoice(p, mode, tempMax).Refuse?
    ensures ok && (p.temp1.len == 0 || p.temp2.len == 0) ==>
      forall t: nat :: t < TEMP_MAX && !TempChoice(p, mode, t).Refuse? ==> tempMin >= 0 && tempMin <= t <= tempMax
  {
    hide TempChoice;
    if mode < MODE_MAX {
      forall t: nat | t < TEMP_MAX
        ensures TempListed(p, mode, t) ==> !TempChoice(p, mode, t).Refuse?
        ensures !TempChoice(p, mode, t).Refuse? && (p.temp1.len == 0 || p.temp2.len == 0) ==> TempListed(p, mode, t)
      {
        ListedTempIsAccepted(p, mode, t);
      }
    }
    if mode >= MODE_MAX {
      return false, -1, -1;
    }
    ok, tempMin, tempMax := true, -1, -1;
    if p.rules[mode].allTemp {
      return;
    }
    var i := 0;
    while i < TEMP_MAX
      invariant 0 <= i <= TEMP_MAX && -1 <= tempMin <= tempMax < i && (tempMin == -1 <==> tempMax == -1)
      invariant tempMin >= 0 ==> TempListed(p, mode, tempMin) && TempListed(p, mode, tempMax)
      invariant forall t: nat :: t < i && TempListed(p, mode, t) ==> tempMin >= 0 && tempMin <= t <= tempMax
    {
      var banned := IsIn(p.rules[mode].temps, i);
      if !(banned || (p.temp1.len != 0 && p.temp1.comps[i] == []) || (p.temp2.len != 0 && p.temp2.comps[i] == [])) {
        if tempMin == -1 {
          tempMin := i;
        }
        if tempMax == -1 || i > tempMax {
          tempMax := i;
        }
      }
      i := i + 1;
    }
  }

  function Clear(b: byte, i: nat): byte
    requires i < 8
  {
    b & !One(i)
  }

  function Mark(b: byte, i: nat): byte
    requires i < 8
  {
    b | One(i)
  }

  lemma ClearedBit(b: byte, i: nat, j: nat)
    requires i < 8 && j < 8
    ensures LowBit(Clear(b, i), j) == (j != i && LowBit(b, j))
  {
  }

  lemma MarkedBit(b: byte, i: nat, j: nat)
    requires i < 8 && j < 8
    ensures LowBit(Mark(b, i), j) == (j == i || LowBit(b, j))
  {
  }

  lemma LowOnes(n: nat)
    requires n <= 8
    ensures forall j :: 0 <= j < 8 ==> LowBit(Ones(n), j) == (j < n)
  {
    forall j | 0 <= j < 8
      ensures LowBit(Ones(n), j) == (j < n)
    {
      if n == 0 {} else if n == 1 {} else if n == 2 {} else if n == 3 {} else if n == 4 {}
      else if n == 5 {} else if n == 6 {} else if n == 7 {}
    }
  }

  /** One bit a mode. */
  method GetSupportedMode(p: Protocol) returns (supported: byte)
    ensures forall m :: 0 <= m < 8 ==> (LowBit(supported, m) <==> m < MODE_MAX && ModeListed(p, m))
    ensures forall m :: 0 <= m < MODE_MAX && LowBit(supported, m) ==> p.rules[m].enable && !ModeChoice(p, m).Refuse?
    ensures p.mode1.len == 0 || p.mode2.len == 0 ==>
      forall m :: 0 <= m < MODE_MAX && p.rules[m].enable && !ModeChoice(p, m).Refuse? ==> LowBit(supported, m)
  {
    hide LowBit, Clear, Mark, Ones;
    forall m: nat | m < MODE_MAX
      ensures ModeListed(p, m) ==> p.rules[m].enable && !ModeChoice(p, m).Refuse?
      ensures p.rules[m].enable && !ModeChoice(p, m).Refuse? && (p.mode1.len == 0 || p.mode2.len == 0)
        ==> ModeListed(p, m)
    {
      ListedModeIsAccepted(p, m);
    }
    supported := Ones(MODE_MAX);
    LowOnes(MODE_MAX);
    var i := 0;
    while i < MODE_MAX
      invariant 0 <= i <= MODE_MAX
      invariant forall m :: 0 <= m < 8 ==>
        (LowBit(supported, m) <==> m < MODE_MAX && (m < i ==> ModeListed(p, m)))
    {
      if !p.rules[i].enable || (p.mode1.len != 0 && p.mode1.comps[i] == [])
         || (p.mode2.len != 0 && p.mode2.comps[i] == []) {
        forall j | 0 <= j < 8 { ClearedBit(supported, i, j); }
        supported := Clear(supported, i);
      }
      i := i + 1;
    }
  }

  /** One bit a wind speed. */
  method GetSupportedWindSpeed(p: Protocol, mode: nat) returns (ok: bool, supported: byte)
    ensures ok <==> mode < MODE_MAX
    ensures ok ==> forall v :: 0 <= v < 8 ==> (LowBit(supported, v) <==> v < SPEED_MAX && SpeedListed(p, mode, v))
    ensures ok ==> forall v :: 0 <= v < SPEED_MAX && LowBit(supported, v) ==> !SpeedChoice(p, mode, v).Refuse?
    ensures ok && (p.speed1.len == 0 || p.speed2.len == 0) ==>
      forall v :: 0 <= v < SPEED_MAX && !SpeedChoice(p, mode, v).Refuse? ==> LowBit(supported, v)
  {
    hide LowBit, Clear, Mark, Ones;
    if mode < MODE_MAX {
      forall v: nat | v < SPEED_MAX
        ensures SpeedListed(p, mode, v) ==> !SpeedChoice(p, mode, v).Refuse?
        ensures !SpeedChoice(p, mode, v).Refuse? && (p.speed1.len == 0 || p.speed2.len == 0) ==> SpeedListed(p, mode, v)
      {
        ListedSpeedIsAccepted(p, mode, v);
      }
    }
    if mode >= MODE_MAX {
      return false, 0;
    }
    ok := true;
    if p.rules[mode].allSpeed {
      supported := Ones(0);
      LowOnes(0);
      return;
    }
    supported := Ones(SPEED_MAX);
    LowOnes(SPEED_MAX);
    var i := 0;
    while i < SPEED_MAX
      invariant 0 <= i <= SPEED_MAX
      invariant forall v :: 0 <= v < 8 ==>
        (LowBit(supported, v) <==> v < SPEED_MAX && (v < i ==> SpeedListed(p, mode, v)))
    {
      var banned := IsIn(p.rules[mode].speeds, i);
      if banned || (p.speed1.len != 0 && p.speed1.comps[i] == []) || (p.speed2.len != 0 && p.speed2.comps[i] == []) {
        forall j | 0 <= j < 8 { ClearedBit(supported, i, j); }
        supported := Clear(supported, i);
      }
      i := i + 1;
    }
  }

  /** The solo mark: bit f - 1 for every function f among the listed codes. */
  method SoloMark(codes: seq<nat>) returns (mark: byte)
    ensures forall j :: 0 <= j < 8 ==> (LowBit(mark, j) <==> j < WIND_FIX && j + 1 in codes)
  {
    hide LowBit, Clear, Mark, Ones;
    mark := Ones(0);
    LowOnes(0);
    var i := POWER;
    while i < FUNCTION_MAX
      invariant POWER <= i <= FUNCTION_MAX
      invariant forall j :: 0 <= j < 8 ==> (LowBit(mark, j) <==> j + 1 < i && j + 1 in codes)
    {
      var listed := IsIn(codes, i);
      ghost var was := mark;
      if listed {
        mark := Mark(mark, i - 1);
      }
      forall j | 0 <= j < 8
        ensures LowBit(mark, j) <==> j + 1 < i + 1 && j + 1 in codes
      {
        MarkedBit(was, i - 1, j);
        assert LowBit(was, j) <==> j + 1 < i && j + 1 in codes;
        assert j == i - 1 ==> j + 1 == i;
      }
      i := i + 1;
    }
  }
}

/** The status-type decoder as it runs: one code buffer, reloaded and patched in place on
    every call, and the wind direction kept between calls. */
module AcRemote {
  import opened Words
  import opened AcBits
  import opened AcApply
  import opened AcChecksum
  import opened AcFrame
  import opened AcProtocol

  predicate AllFitIn(cs: seq<Choice>, size: nat) {
    forall i :: 0 <= i < |cs| ==> ChoiceFits(cs[i], size)
  }

  lemma NoneFit(size: nat)
    ensures AllFitIn([], size)
  {
  }

  lemma NextStage(buf: seq<byte>, cs: seq<Choice>, c: Choice)
    requires AllFitIn(cs, |buf|) && ChoiceFits(c, |buf|)
    ensures AllFitIn(cs + [c], |buf|)
    ensures ApplyStages(buf, cs + [c]) == Patched(ApplyStages(buf, cs), c)
  {
    hide Patched, ChoiceFits;
    assert (cs + [c])[..|cs|] == cs;
  }

  class Remote {
    const p: Protocol
    const hexCode: array<byte>
    const builder: FrameBuilder
    var dirIndex: nat
    var swingStatus: nat
    var changeWindDirection: bool

    predicate Valid() {
      hexCode.Length == |p.defaultCode| && builder.layout == p.layout
    }

    function CurrentWind(): Wind
      reads this
    {
      Wind(dirIndex, swingStatus)
    }

    constructor (protocol: Protocol, output: array<u16>)
      ensures Valid() && p == protocol && CurrentWind() == Wind(0, 0)
      ensures fresh(hexCode) && fresh(builder)
    {
      p := protocol;
      hexCode := new byte[|protocol.defaultCode|];
      builder := new FrameBuilder(protocol.layout, output);
      dirIndex, swingStatus := 0, 0;
      changeWindDirection := false;
    }

    /** One parameter: the type 1 table if there is one, else the type 2 table. */
    method ApplyParameter(t1: Table, t2: Table, level: nat, add1: bool, add2: bool) returns (ok: bool)
      requires ChoiceFits(Choose(t1, t2, level, add1, add2), hexCode.Length)
      modifies hexCode
      ensures ok == !Choose(t1, t2, level, add1, add2).Refuse?
      ensures hexCode[..] == Patched(old(hexCode[..]), Choose(t1, t2, level, add1, add2))
    {
      hide Table1, Table2, Table1Fits, Table2Fits;
      if t1.len != 0 {
        if level >= |t1.comps| || t1.comps[level] == [] {
          return false;
        }
        ApplyTable1(hexCode, t1.comps[level], add1);
        return true;
      }
      if t2.len == 0 {
        return true;
      }
      if level >= |t2.comps| || t2.comps[level] == [] {
        return false;
      }
      ApplyTable2(hexCode, t2.comps[level], add2);
      return true;
    }

    method ApplyPower(s: Status)
      requires Valid()
      modifies hexCode
      ensures ChoiceFits(PowerChoice(p, s), hexCode.Length)
      ensures hexCode[..] == Patched(old(hexCode[..]), PowerChoice(p, s))
    {
      hide Patched, ChoiceFits, Choose;
      var level := if s.power.On? then 0 else 1;
      ChooseFits(p.power1, ABSENT, level, POWER_MAX, hexCode.Length, false, false);
      var ok := ApplyParameter(p.power1, ABSENT, level, false, false);
    }

    method ApplyMode(s: Status) returns (ok: bool)
      requires Valid() && ValidStatus(s)
      modifies hexCode
      ensures ChoiceFits(ModeChoice(p, s.mode), hexCode.Length)
      ensures ok == !ModeChoice(p, s.mode).Refuse?
      ensures hexCode[..] == Patched(old(hexCode[..]), ModeChoice(p, s.mode))
    {
      hide Patched, ChoiceFits, Choose;
      ChooseFits(p.mode1, p.mode2, s.mode, MODE_MAX, hexCode.Length, false, false);
      ok := ApplyParameter(p.mode1, p.mode2, s.mode, false, false);
    }

    method ApplyWindSpeed(s: Status, func: nat) returns (ok: bool)
      requires Valid() && ValidStatus(s)
      modifies hexCode
      ensures ChoiceFits(SpeedChoice(p, s.mode, s.speed), hexCode.Length)
      ensures ok == SpeedOk(p, s, func)
      ensures hexCode[..] == Patched(old(hexCode[..]), SpeedChoice(p, s.mode, s.speed))
    {
      hide ChoiceFits, Choose, Table1, Table2;
      ChooseFits(p.speed1, p.speed2, s.speed, SPEED_MAX, hexCode.Length, false, false);
      NoPatchFits(hexCode.Length);
      if !p.rules[s.mode].allSpeed {
        var banned := IsIn(p.rules[s.mode].speeds, s.speed);
        if !banned {
          var applied := ApplyParameter(p.speed1, p.speed2, s.speed, false, false);
          if !applied && func == WIND_SPEED {
            return false;
          }
        } else if func == WIND_SPEED {
          return false;
        }
      } else if func == WIND_SPEED {
        return false;
      }
      return true;
    }

    method ApplyTemperature(s: Status, func: nat) returns (ok: bool)
      requires Valid() && ValidStatus(s)
      modifies hexCode
      ensures ChoiceFits(TempChoice(p, s.mode, s.temp), hexCode.Length)
      ensures ok == TempOk(p, s, func)
      ensures hexCode[..] == Patched(old(hexCode[..]), TempChoice(p, s.mode, s.temp))
    {
      hide ChoiceFits, Choose, Table1, Table2;
      ChooseFits(p.temp1, p.temp2, s.temp, TEMP_MAX, hexCode.Length, p.temp1Dynamic, p.temp2Dynamic);
      NoPatchFits(hexCode.Length);
      if !p.rules[s.mode].allTemp {
        var banned := IsIn(p.rules[s.mode].temps, s.temp);
        if !banned {
          var applied := ApplyParameter(p.temp1, p.temp2, s.temp, p.temp1Dynamic, p.temp2Dynamic);
          if !applied {
            if func == TEMPERATURE_UP {
              return false;
            } else if func == TEMPERATURE_DOWN {
              return false;
            }
          }
        } else {
          if func == TEMPERATURE_UP {
            return false;
          } else if func == TEMPERATURE_DOWN {
            return false;
          }
        }
      } else {
        if func == TEMPERATURE_UP {
          return false;
        } else if func == TEMPERATURE_DOWN {
          return false;
        }
      }
      return true;
    }

    method MoveWind(func: nat)
      modifies this`dirIndex, this`swingStatus
      ensures CurrentWind() == NextWind(p.swingInfo, old(CurrentWind()), func, changeWindDirection)
    {
      if func == WIND_FIX {
        if p.swingInfo.kind.Normal? && p.swingInfo.modeCount > 1 {
          if changeWindDirection {
            dirIndex := (dirIndex + 1) % 256;
          }
          if dirIndex == p.swingInfo.modeCount {
            dirIndex := 1;
          }
          swingStatus := dirIndex;
        }
      } else if func == WIND_SWING {
        swingStatus := 0;
      }
    }

    method ApplySwing(func: nat) returns (ok: bool)
      requires Valid()
      modifies hexCode, this`dirIndex, this`swingStatus
      ensures CurrentWind() == NextWind(p.swingInfo, old(CurrentWind()), func, changeWindDirection)
      ensures ChoiceFits(SwingChoice(p, swingStatus), hexCode.Length)
      ensures ok == SwingOk(p, swingStatus, func)
      ensures hexCode[..] == Patched(old(hexCode[..]), SwingChoice(p, swingStatus))
    {
      hide Patched, ChoiceFits, Choose;
      MoveWind(func);
      ChooseFits(p.swing1, p.swing2, swingStatus, p.swingInfo.modeCount, hexCode.Length, false, false);
      var applied := ApplyParameter(p.swing1, p.swing2, swingStatus, false, false);
      if !applied {
        if func == WIND_SWING && !HasFunction(p, WIND_SWING) {
          return false;
        } else if func == WIND_FIX && !HasFunction(p, WIND_FIX) {
          return false;
        }
      }
      return true;
    }

    method ApplyFunction(func: nat)
      requires Valid() && ValidFunction(func)
      modifies hexCode
      ensures ChoiceFits(FunctionChoice(p, func), hexCode.Length)
      ensures hexCode[..] == Patched(old(hexCode[..]), FunctionChoice(p, func))
    {
      hide Patched, ChoiceFits, Choose;
      ChooseFits(p.function1, p.function2, func - 1, FUNCTION_MAX - 1, hexCode.Length, false, false);
      var ok := ApplyParameter(p.function1, p.function2, func - 1, false, false);
    }

    /** Skips a stage that is sent solo. */
    lemma Skip(buf: seq<byte>, cs: seq<Choice>)
      requires AllFitIn(cs, |buf|)
      ensures AllFitIn(cs + [Nothing], |buf|)
      ensures ApplyStages(buf, cs + [Nothing]) == ApplyStages(buf, cs)
    {
      hide ChoiceFits;
      NoPatchFits(|buf|);
      NextStage(buf, cs, Nothing);
    }

    /** A function sent on its own: its failure is ignored. */
    method ApplySolo(c: Call)
      requires Valid() && ValidCall(c) && changeWindDirection == c.change
      requires ReachesSwing(p, c) <==> c.func == WIND_SWING || c.func == WIND_FIX
      modifies hexCode, this`dirIndex, this`swingStatus
      ensures CurrentWind() == WindAfter(p, old(CurrentWind()), c)
      ensures ChoiceFits(SoloStage(p, old(CurrentWind()), c), hexCode.Length)
      ensures hexCode[..] == Patched(old(hexCode[..]), SoloStage(p, old(CurrentWind()), c))
    {
      hide ChoiceFits, Patched, ReachesSwing, SpeedOk, TempOk, SwingOk, PowerChoice, ModeChoice, SpeedChoice,
           SwingChoice, TempChoice;
      if c.func == POWER {
        ApplyPower(c.status);
      } else if c.func == MODE {
        var ok := ApplyMode(c.status);
      } else if c.func == WIND_SPEED {
        var ok := ApplyWindSpeed(c.status, c.func);
      } else if c.func == WIND_SWING || c.func == WIND_FIX {
        var ok := ApplySwing(c.func);
      } else {
        var ok := ApplyTemperature(c.status, c.func);
      }
    }

    /** Power, mode and wind speed, up to the first that fails. */
    method ApplyLevels(c: Call) returns (ok: bool)
      requires Valid() && ValidCall(c)
      modifies hexCode
      ensures ok == LevelsOk(p, c)
      ensures ok ==> AllFitIn(LevelStages(p, c), hexCode.Length)
      ensures ok ==> hexCode[..] == ApplyStages(old(hexCode[..]), LevelStages(p, c))
    {
      hide ChoiceFits, Patched, SpeedOk, PowerChoice, ModeChoice, SpeedChoice, Solo, ApplyStages;
      ghost var was, cs := hexCode[..], [];
      NoStages(was);
      NoneFit(|was|);
      if !Solo(p, POWER) {
        ApplyPower(c.status);
        NextStage(was, cs, PowerChoice(p, c.status));
        cs := cs + [PowerChoice(p, c.status)];
      } else {
        Skip(was, cs);
        cs := cs + [Nothing];
      }
      if !Solo(p, MODE) {
        var good := ApplyMode(c.status);
        if !good {
          return false;
        }
        NextStage(was, cs, ModeChoice(p, c.status.mode));
        cs := cs + [ModeChoice(p, c.status.mode)];
      } else {
        Skip(was, cs);
        cs := cs + [Nothing];
      }
      if !Solo(p, WIND_SPEED) {
        var good := ApplyWindSpeed(c.status, c.func);
        if !good {
          return false;
        }
        NextStage(was, cs, SpeedChoice(p, c.status.mode, c.status.speed));
        cs := cs + [SpeedChoice(p, c.status.mode, c.status.speed)];
      } else {
        Skip(was, cs);
        cs := cs + [Nothing];
      }
      assert cs == LevelStages(p, c);
      return true;
    }

    /** Swing and temperature, up to the first that fails. */
    method ApplyAir(c: Call) returns (ok: bool)
      requires Valid() && ValidCall(c) && changeWindDirection == c.change
      requires ReachesSwing(p, c) <==> !Solo(p, WIND_SWING) && !Solo(p, WIND_FIX)
      modifies hexCode, this`dirIndex, this`swingStatus
      ensures CurrentWind() == WindAfter(p, old(CurrentWind()), c)
      ensures LevelsOk(p, c) ==> ok == StagesOk(p, old(CurrentWind()), c)
      ensures ok ==> AllFitIn(AirStages(p, old(CurrentWind()), c), hexCode.Length)
      ensures ok ==> hexCode[..] == ApplyStages(old(hexCode[..]), AirStages(p, old(CurrentWind()), c))
    {
      hide ChoiceFits, Patched, TempOk, SwingOk, LevelsOk, SwingChoice, TempChoice, Solo, NextWind, ApplyStages,
           ReachesSwing;
      ghost var was, cs := hexCode[..], [];
      NoStages(was);
      NoneFit(|was|);
      if !Solo(p, WIND_SWING) && !Solo(p, WIND_FIX) {
        var good := ApplySwing(c.func);
        if !good {
          return false;
        }
        NextStage(was, cs, SwingChoice(p, swingStatus));
        cs := cs + [SwingChoice(p, swingStatus)];
      } else {
        Skip(was, cs);
        cs := cs + [Nothing];
      }
      if !Solo(p, TEMPERATURE_UP) && !Solo(p, TEMPERATURE_DOWN) {
        var good := ApplyTemperature(c.status, c.func);
        if !good {
          return false;
        }
        NextStage(was, cs, TempChoice(p, c.status.mode, c.status.temp));
        cs := cs + [TempChoice(p, c.status.mode, c.status.temp)];
      } else {
        Skip(was, cs);
        cs := cs + [Nothing];
      }
      assert cs == AirStages(p, old(CurrentWind()), c);
      return true;
    }

    /** A full status, up to the first stage that fails. */
    method ApplyStatus(c: Call) returns (ok: bool)
      requires Valid() && ValidCall(c) && changeWindDirection == c.change
      requires p.defaultCode != [] && c.status.power.On? && p.rules[c.status.mode].enable && !Solo(p, c.func)
      modifies hexCode, this`dirIndex, this`swingStatus
      ensures CurrentWind() == WindAfter(p, old(CurrentWind()), c)
      ensures ok == StagesOk(p, old(CurrentWind()), c)
      ensures ok ==> AllFitIn(LevelStages(p, c) + AirStages(p, old(CurrentWind()), c), hexCode.Length)
      ensures ok ==>
        hexCode[..] == ApplyStages(old(hexCode[..]), LevelStages(p, c) + AirStages(p, old(CurrentWind()), c))
    {
      hide LevelsOk, LevelStages, AirStages, ApplyStages, AllFitIn;
      ghost var was, w := hexCode[..], CurrentWind();
      ok := ApplyLevels(c);
      if !ok {
        return false;
      }
      ok := ApplyAir(c);
      if ok {
        StagesJoin(was, LevelStages(p, c), AirStages(p, w, c));
      }
    }

    /** The patches of a call on a fresh copy of the default code. */
    method ApplyStagesOf(c: Call) returns (ok: bool)
      requires Valid() && ValidCall(c) && changeWindDirection == c.change && p.defaultCode != []
      modifies hexCode, this`dirIndex, this`swingStatus
      ensures CurrentWind() == WindAfter(p, old(CurrentWind()), c)
      ensures ok == Sends(p, old(CurrentWind()), c)
      ensures ok ==> AllFitIn(Stages(p, old(CurrentWind()), c), hexCode.Length)
      ensures ok ==> hexCode[..] == ApplyStages(old(hexCode[..]), Stages(p, old(CurrentWind()), c))
    {
      hide LevelsOk, LevelStages, AirStages, ApplyStages, AllFitIn, SoloStage, PowerChoice, FunctionChoice,
           StagesOk, Solo, NextWind, ChoiceFits, Patched;
      ghost var was, w, cs := hexCode[..], CurrentWind(), [];
      NoStages(was);
      NoneFit(|was|);
      if c.status.power.Off? {
        ApplyPower(c.status);
        NextStage(was, cs, PowerChoice(p, c.status));
        cs := cs + [PowerChoice(p, c.status)];
      } else {
        if !p.rules[c.status.mode].enable {
          return false;
        }
        if Solo(p, c.func) {
          ApplySolo(c);
          NextStage(was, cs, SoloStage(p, w, c));
          cs := cs + [SoloStage(p, w, c)];
        } else {
          var good := ApplyStatus(c);
          if !good {
            return false;
          }
          cs := LevelStages(p, c) + AirStages(p, w, c);
        }
      }
      ApplyFunction(c.func);
      NextStage(was, cs, FunctionChoice(p, c.func));
      assert cs + [FunctionChoice(p, c.func)] == Stages(p, w, c);
      return true;
    }

    /** One control call.  The frame it sends is the one of `Output`: nothing of an earlier
        call's patches or output is left in it, only the wind direction carries over. */
    method LibControl(c: Call, userData: array<u16>) returns (n: nat)
      requires Valid() && ValidCall(c) && userData as object != hexCode as object
      requires |Output(p, CurrentWind(), c)| <= userData.Length && |Output(p, CurrentWind(), c)| < WORD
      modifies this, hexCode, builder, userData
      ensures Valid()
      ensures CurrentWind() == WindAfter(p, old(CurrentWind()), c)
      ensures n == |Output(p, old(CurrentWind()), c)| <= userData.Length
      ensures userData[..n] == Output(p, old(CurrentWind()), c)
    {
      hide Stages, ApplyStages, Sends, WindAfter, Waveform, ApplyBlocks;
      ghost var w := CurrentWind();
      if |p.defaultCode| == 0 {
        assert !Sends(p, w, c) && WindAfter(p, w, c) == w by { NoDefaultCode(p, w, c); }
        return 0;
      }
      changeWindDirection := c.change;
      builder.time := userData;
      forall i | 0 <= i < hexCode.Length {
        hexCode[i] := p.defaultCode[i];
      }
      assert hexCode[..] == p.defaultCode;
      var ok := ApplyStagesOf(c);
      if !ok {
        return 0;
      }
      StagesFit(p, w, c);
      ApplyChecksum(hexCode, p.checksums);
      n := builder.CreateIrFrame(hexCode);
    }
  }

  lemma {:induction false} StagesJoin(buf: seq<byte>, cs: seq<Choice>, ds: seq<Choice>)
    requires AllFitIn(cs, |buf|) && AllFitIn(ds, |buf|)
    ensures AllFitIn(cs + ds, |buf|)
    ensures ApplyStages(buf, cs + ds) == ApplyStages(ApplyStages(buf, cs), ds)
  {
    hide Patched, ChoiceFits;
    if ds == [] {
      assert cs + ds == cs;
    } else {
      var n := |ds| - 1;
      StagesJoin(buf, cs, ds[..n]);
      assert (cs + ds)[..|cs + ds| - 1] == cs + ds[..n];
    }
  }
}

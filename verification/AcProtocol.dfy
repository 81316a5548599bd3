/** A parsed status-type protocol, and what one control call makes of it: which levels it
    accepts, which bytes it patches, and how the wind direction moves. */
module AcProtocol {
  import opened Words
  import opened AcBits
  import opened AcApply
  import opened AcChecksum
  import opened AcFrame

  // function codes
  const POWER: nat := 1
  const MODE: nat := 2
  const TEMPERATURE_UP: nat := 3
  const TEMPERATURE_DOWN: nat := 4
  const WIND_SPEED: nat := 5
  const WIND_SWING: nat := 6
  const WIND_FIX: nat := 7
  const FUNCTION_MAX: nat := 8

  const POWER_MAX: nat := 2
  const TEMP_MAX: nat := 15
  const MODE_MAX: nat := 5
  const SPEED_MAX: nat := 4

  datatype PowerStatus = On | Off
  datatype SwingType = SwingOnly | Normal | NotSpecified

  /** A parameter table: its length in the binary (0: absent) and one list of patches a level. */
  datatype Table = Table(len: nat, comps: seq<seq<byte>>)

  /** What is forbidden in a mode. */
  datatype ModeRules = ModeRules(enable: bool, allSpeed: bool, allTemp: bool, temps: seq<nat>, speeds: seq<nat>)

  datatype SwingInfo = SwingInfo(kind: SwingType, modeCount: nat)

  datatype Status = Status(power: PowerStatus, temp: nat, mode: nat, speed: nat)

  datatype Tables = Tables(
    defaultCode: seq<byte>, layout: Layout,
    power1: Table,
    mode1: Table, mode2: Table,
    speed1: Table, speed2: Table,
    swing1: Table, swing2: Table,
    temp1: Table, temp1Dynamic: bool, temp2: Table, temp2Dynamic: bool,
    function1: Table, function2: Table,
    checksums: seq<Block>,
    swingInfo: SwingInfo, soloMark: byte, rules: seq<ModeRules>)

  predicate Sized1(t: Table, levels: nat, size: nat) {
    t.len != 0 ==> |t.comps| == levels && forall i :: 0 <= i < levels ==> Table1Fits(t.comps[i], size)
  }

  predicate Sized2(t: Table, levels: nat, size: nat) {
    t.len != 0 ==> |t.comps| == levels && forall i :: 0 <= i < levels ==> Table2Fits(t.comps[i], size)
  }

  /** What a binary must provide: every level of a table that is present, every patch inside
      the code.  Swing tables are read in normal swing mode only. */
  predicate Valid(p: Tables) {
    var n := |p.defaultCode|;
    && n < 256
    && Sized1(p.power1, POWER_MAX, n)
    && Sized1(p.mode1, MODE_MAX, n) && Sized2(p.mode2, MODE_MAX, n)
    && Sized1(p.speed1, SPEED_MAX, n) && Sized2(p.speed2, SPEED_MAX, n)
    && Sized1(p.swing1, p.swingInfo.modeCount, n) && Sized2(p.swing2, p.swingInfo.modeCount, n)
    && (if p.swingInfo.kind.Normal? then p.swingInfo.modeCount < 256 else p.swing1.len == 0 && p.swing2.len == 0)
    && Sized1(p.temp1, TEMP_MAX, n) && Sized2(p.temp2, TEMP_MAX, n)
    && Sized1(p.function1, FUNCTION_MAX - 1, n) && Sized2(p.function2, FUNCTION_MAX - 1, n)
    && AllFit(p.checksums, n)
    && |p.rules| == MODE_MAX
  }

  const ABSENT := Table(0, [])
  const NO_RULES := ModeRules(true, false, false, [], [])
  const EMPTY := Tables([], Layout(0, [], Level(0, 0), Level(0, 0), [], [], 0, 1), ABSENT, ABSENT, ABSENT, ABSENT,
                        ABSENT,
                        ABSENT, ABSENT, ABSENT, false, ABSENT, false, ABSENT, ABSENT, [], SwingInfo(NotSpecified, 0), 0,
                        [NO_RULES, NO_RULES, NO_RULES, NO_RULES, NO_RULES])

  type Protocol = p: Tables | Valid(p) witness EMPTY

  predicate ValidStatus(s: Status) {
    s.temp < TEMP_MAX && s.mode < MODE_MAX && s.speed < SPEED_MAX
  }

  predicate ValidFunction(func: nat) {
    POWER <= func <= WIND_FIX
  }

  // ---- picking the patches for a level --------------------------------------------------------

  datatype Choice = Nothing | Refuse | ByBytes(table1: seq<byte>, add1: bool) | ByBits(table2: seq<byte>, add2: bool)

  /** The type 1 table goes first; the type 2 table is tried only when there is none.  A level
      outside the table, or with no patches, is refused. */
  function Choose(t1: Table, t2: Table, level: nat, add1: bool := false, add2: bool := false): Choice {
    if t1.len != 0 then
      if level >= |t1.comps| || t1.comps[level] == [] then Refuse else ByBytes(t1.comps[level], add1)
    else if t2.len == 0 then Nothing
    else if level >= |t2.comps| || t2.comps[level] == [] then Refuse else ByBits(t2.comps[level], add2)
  }

  predicate ChoiceFits(c: Choice, size: nat) {
    (c.ByBytes? ==> Table1Fits(c.table1, size)) && (c.ByBits? ==> Table2Fits(c.table2, size))
  }

  function Patched(buf: seq<byte>, c: Choice): (r: seq<byte>)
    requires ChoiceFits(c, |buf|)
    ensures |r| == |buf|
  {
    match c
    case ByBytes(t, add) => Table1(buf, t, add)
    case ByBits(t, add) => Table2(buf, t, add)
    case _ => buf
  }

  lemma ChooseFits(t1: Table, t2: Table, level: nat, levels: nat, size: nat, add1: bool, add2: bool)
    requires Sized1(t1, levels, size) && Sized2(t2, levels, size)
    ensures ChoiceFits(Choose(t1, t2, level, add1, add2), size)
  {
    hide Table1Fits, Table2Fits;
  }

  /** Whether a list of levels or codes names a value. */
  method IsIn(list: seq<nat>, value: nat) returns (found: bool)
    ensures found <==> value in list
  {
    var i := 0;
    while i < |list|
      invariant 0 <= i <= |list| && value !in list[..i]
    {
      if list[i] == value {
        return true;
      }
      i := i + 1;
    }
    return false;
  }

  // ---- which levels a call accepts -------------------------------------------------------------

  function PowerChoice(p: Protocol, s: Status): Choice {
    Choose(p.power1, ABSENT, if s.power.On? then 0 else 1)
  }

  function ModeChoice(p: Protocol, mode: nat): Choice {
    Choose(p.mode1, p.mode2, mode)
  }

  function SpeedChoice(p: Protocol, mode: nat, speed: nat): Choice
    requires mode < MODE_MAX
  {
    if p.rules[mode].allSpeed || speed in p.rules[mode].speeds then Refuse else Choose(p.speed1, p.speed2, speed)
  }

  function TempChoice(p: Protocol, mode: nat, temp: nat): Choice
    requires mode < MODE_MAX
  {
    if p.rules[mode].allTemp || temp in p.rules[mode].temps then Refuse
    else Choose(p.temp1, p.temp2, temp, p.temp1Dynamic, p.temp2Dynamic)
  }

  function SwingChoice(p: Protocol, swing: nat): Choice {
    Choose(p.swing1, p.swing2, swing)
  }

  function FunctionChoice(p: Protocol, func: nat): Choice
    requires ValidFunction(func)
  {
    Choose(p.function1, p.function2, func - 1)
  }

  predicate HasFunction(p: Protocol, func: nat)
    requires ValidFunction(func)
  {
    || (p.function1.len != 0 && p.function1.comps[func - 1] != [])
    || (p.function2.len != 0 && p.function2.comps[func - 1] != [])
  }

  /** A refused level matters only when it is what the key press is about. */
  predicate SpeedOk(p: Protocol, s: Status, func: nat)
    requires ValidStatus(s)
  {
    func == WIND_SPEED ==> !SpeedChoice(p, s.mode, s.speed).Refuse?
  }

  predicate TempOk(p: Protocol, s: Status, func: nat)
    requires ValidStatus(s)
  {
    func == TEMPERATURE_UP || func == TEMPERATURE_DOWN ==> !TempChoice(p, s.mode, s.temp).Refuse?
  }

  predicate SwingOk(p: Protocol, swing: nat, func: nat) {
    (func == WIND_SWING || func == WIND_FIX) && SwingChoice(p, swing).Refuse? ==> HasFunction(p, func)
  }

  predicate Solo(p: Protocol, func: nat)
    requires ValidFunction(func)
  {
    LowBit(p.soloMark, func - 1)
  }

  // ---- the wind direction ------------------------------------------------------------------------

  datatype Wind = Wind(dir: nat, swing: nat)

  /** What applying the swing does to the direction index and the swing status. */
  function NextWind(si: SwingInfo, w: Wind, func: nat, change: bool): Wind {
    if func == WIND_FIX then
      if si.kind.Normal? && si.modeCount > 1 then
        var d := if change then (w.dir + 1) % 256 else w.dir;
        var e := if d == si.modeCount then 1 else d;
        Wind(e, e)
      else w
    else if func == WIND_SWING then Wind(w.dir, 0)
    else w
  }

  // ---- one control call ----------------------------------------------------------------------------

  datatype Call = Call(status: Status, func: nat, change: bool)

  predicate ValidCall(c: Call) {
    ValidStatus(c.status) && ValidFunction(c.func)
  }

  /** Mode and wind speed were not refused, or do not matter to the key press. */
  predicate LevelsOk(p: Protocol, c: Call)
    requires ValidCall(c)
  {
    && (Solo(p, MODE) || !ModeChoice(p, c.status.mode).Refuse?)
    && (Solo(p, WIND_SPEED) || SpeedOk(p, c.status, c.func))
  }

  /** The call's swing stage is reached: the remote is on, the mode is allowed, and either the
      function is sent solo and is a swing function, or nothing before it failed and swing is
      not a solo matter. */
  predicate ReachesSwing(p: Protocol, c: Call)
    requires ValidCall(c)
  {
    && p.defaultCode != [] && c.status.power.On? && p.rules[c.status.mode].enable
    && if Solo(p, c.func) then c.func == WIND_SWING || c.func == WIND_FIX
       else LevelsOk(p, c) && !Solo(p, WIND_SWING) && !Solo(p, WIND_FIX)
  }

  function WindAfter(p: Protocol, w: Wind, c: Call): Wind
    requires ValidCall(c)
  {
    if ReachesSwing(p, c) then NextWind(p.swingInfo, w, c.func, c.change) else w
  }

  /** Nothing that matters to the key press was refused. */
  predicate StagesOk(p: Protocol, w: Wind, c: Call)
    requires ValidCall(c)
  {
    && LevelsOk(p, c)
    && (Solo(p, WIND_SWING) || Solo(p, WIND_FIX) || SwingOk(p, WindAfter(p, w, c).swing, c.func))
    && (Solo(p, TEMPERATURE_UP) || Solo(p, TEMPERATURE_DOWN) || TempOk(p, c.status, c.func))
  }

  /** The call sends a frame. */
  predicate Sends(p: Protocol, w: Wind, c: Call)
    requires ValidCall(c)
  {
    && p.defaultCode != []
    && (c.status.power.On? ==> p.rules[c.status.mode].enable && (Solo(p, c.func) || StagesOk(p, w, c)))
  }

  /** The patches of a function sent on its own. */
  function SoloStage(p: Protocol, w: Wind, c: Call): Choice
    requires ValidCall(c)
  {
    if c.func == POWER then PowerChoice(p, c.status)
    else if c.func == MODE then ModeChoice(p, c.status.mode)
    else if c.func == WIND_SPEED then SpeedChoice(p, c.status.mode, c.status.speed)
    else if c.func == WIND_SWING || c.func == WIND_FIX then SwingChoice(p, WindAfter(p, w, c).swing)
    else TempChoice(p, c.status.mode, c.status.temp)
  }

  /** The patches of a full status, in order, without what is sent solo. */
  function LevelStages(p: Protocol, c: Call): seq<Choice>
    requires ValidCall(c)
  {
    [ if Solo(p, POWER) then Nothing else PowerChoice(p, c.status),
      if Solo(p, MODE) then Nothing else ModeChoice(p, c.status.mode),
      if Solo(p, WIND_SPEED) then Nothing else SpeedChoice(p, c.status.mode, c.status.speed) ]
  }

  function AirStages(p: Protocol, w: Wind, c: Call): seq<Choice>
    requires ValidCall(c)
  {
    [ if Solo(p, WIND_SWING) || Solo(p, WIND_FIX) then Nothing else SwingChoice(p, WindAfter(p, w, c).swing),
      if Solo(p, TEMPERATURE_UP) || Solo(p, TEMPERATURE_DOWN) then Nothing
      else TempChoice(p, c.status.mode, c.status.temp) ]
  }

  /** All patches a call applies to the default code; the function's own patches come last. */
  function Stages(p: Protocol, w: Wind, c: Call): seq<Choice>
    requires ValidCall(c)
  {
    (if c.status.power.Off? then [PowerChoice(p, c.status)]
     else if Solo(p, c.func) then [SoloStage(p, w, c)]
     else LevelStages(p, c) + AirStages(p, w, c))
    + [FunctionChoice(p, c.func)]
  }

  function ApplyStages(buf: seq<byte>, cs: seq<Choice>): (r: seq<byte>)
    requires forall i :: 0 <= i < |cs| ==> ChoiceFits(cs[i], |buf|)
    ensures |r| == |buf|
  {
    if cs == [] then buf else Patched(ApplyStages(buf, cs[..|cs| - 1]), cs[|cs| - 1])
  }

  lemma NoStages(buf: seq<byte>)
    ensures ApplyStages(buf, []) == buf
  {
  }

  lemma StagesFit(p: Protocol, w: Wind, c: Call)
    requires ValidCall(c)
    ensures forall i :: 0 <= i < |Stages(p, w, c)| ==> ChoiceFits(Stages(p, w, c)[i], |p.defaultCode|)
  {
    hide Choose, ReachesSwing, Solo, ChoiceFits, NextWind;
    var n, s := |p.defaultCode|, c.status;
    ChooseFits(p.power1, ABSENT, if s.power.On? then 0 else 1, POWER_MAX, n, false, false);
    ChooseFits(p.mode1, p.mode2, s.mode, MODE_MAX, n, false, false);
    ChooseFits(p.speed1, p.speed2, s.speed, SPEED_MAX, n, false, false);
    ChooseFits(p.swing1, p.swing2, WindAfter(p, w, c).swing, p.swingInfo.modeCount, n, false, false);
    ChooseFits(p.temp1, p.temp2, s.temp, TEMP_MAX, n, p.temp1Dynamic, p.temp2Dynamic);
    ChooseFits(p.function1, p.function2, c.func - 1, FUNCTION_MAX - 1, n, false, false);
    NoPatchFits(n);
  }

  lemma NoPatchFits(size: nat)
    ensures ChoiceFits(Nothing, size) && ChoiceFits(Refuse, size)
  {
  }

  /** The code a call sends: the default code, patched stage by stage, then the checksums. */
  function SentCode(p: Protocol, w: Wind, c: Call): (r: seq<byte>)
    requires ValidCall(c)
    ensures |r| == |p.defaultCode|
  {
    StagesFit(p, w, c);
    ApplyBlocks(ApplyStages(p.defaultCode, Stages(p, w, c)), p.checksums)
  }

  /** What a call leaves in the output buffer; nothing when it fails. */
  function Output(p: Protocol, w: Wind, c: Call): seq<u16>
    requires ValidCall(c)
  {
    if Sends(p, w, c) then Waveform(p.layout, SentCode(p, w, c)) else []
  }

  lemma NoDefaultCode(p: Protocol, w: Wind, c: Call)
    requires ValidCall(c) && p.defaultCode == []
    ensures !Sends(p, w, c) && WindAfter(p, w, c) == w
  {
  }
}

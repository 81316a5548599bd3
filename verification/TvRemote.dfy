/** The command-type decoder as it runs: one time index, one level and one toggle bit,
    updated in place while pulses are written or merged into the caller's buffer. */
module TvRemote {
  import opened Words
  import opened Sequences
  import opened TvSignal
  import opened Halving
  import opened TvDigits
  import opened TvProtocol

  datatype Level = Low | High

  class Remote {
    const proto: Protocol
    var timeIndex: nat
    var level: Level
    var toggle: bool

    /** The level is high exactly when the last entry written is a mark. */
    predicate InStep()
      reads this
    {
      level.High? <==> timeIndex % 2 == 1
    }

    function Written(buf: array<u16>): seq<u16>
      requires timeIndex <= buf.Length
      reads this, buf
    {
      buf[..timeIndex]
    }

    constructor (p: Protocol)
      ensures proto == p && timeIndex == 0 && InStep() && !toggle
    {
      proto := p;
      timeIndex := 0;
      level := Level.Low;
      toggle := false;
    }

    /** Extends the last mark when the level is high, or starts a new one. */
    method HoldMark(ticks: u16, buf: array<u16>)
      requires InStep() && timeIndex <= buf.Length
      requires |PushW(Written(buf), Mark(ticks))| <= buf.Length
      modifies this`timeIndex, buf
      ensures old(timeIndex) <= timeIndex <= buf.Length && timeIndex % 2 == 1
      ensures Written(buf) == PushW(old(Written(buf)), Mark(ticks))
      ensures forall k :: timeIndex <= k < buf.Length ==> buf[k] == old(buf[k])
    {
      if level.High? && timeIndex != 0 {
        timeIndex := timeIndex - 1;
        buf[timeIndex] := (buf[timeIndex] + ticks) % WORD;
        timeIndex := timeIndex + 1;
      } else if level.Low? {
        buf[timeIndex] := ticks;
        timeIndex := timeIndex + 1;
      }
    }

    /** Extends the last space when the level is low, or starts a new one after a mark. */
    method HoldSpace(ticks: u16, buf: array<u16>)
      requires InStep() && timeIndex <= buf.Length
      requires |PushW(Written(buf), Space(ticks))| <= buf.Length
      modifies this`timeIndex, buf
      ensures old(timeIndex) <= timeIndex <= buf.Length && timeIndex % 2 == 0
      ensures Written(buf) == PushW(old(Written(buf)), Space(ticks))
      ensures forall k :: timeIndex <= k < buf.Length ==> buf[k] == old(buf[k])
    {
      if level.Low? && timeIndex != 0 {
        timeIndex := timeIndex - 1;
        buf[timeIndex] := (buf[timeIndex] + ticks) % WORD;
        timeIndex := timeIndex + 1;
      } else if level.High? {
        buf[timeIndex] := ticks;
        timeIndex := timeIndex + 1;
      }
    }

    method Append(ticks: u16, buf: array<u16>)
      requires timeIndex < buf.Length
      modifies this`timeIndex, buf
      ensures timeIndex == old(timeIndex) + 1
      ensures Written(buf) == old(Written(buf)) + [ticks]
      ensures forall k :: timeIndex <= k < buf.Length ==> buf[k] == old(buf[k])
    {
      buf[timeIndex] := ticks;
      timeIndex := timeIndex + 1;
    }

    method SendNormal(c: Cycle, buf: array<u16>)
      requires InStep() && timeIndex <= buf.Length
      requires |PushAllW(Written(buf), [Mark(c.mask), Space(c.space)])| <= buf.Length
      modifies this`timeIndex, this`level, buf
      ensures InStep() && old(timeIndex) <= timeIndex <= buf.Length
      ensures Written(buf) == PushAllW(old(Written(buf)), [Mark(c.mask), Space(c.space)])
      ensures forall k :: timeIndex <= k < buf.Length ==> buf[k] == old(buf[k])
    {
      PushAllTwo(Written(buf), Mark(c.mask), Space(c.space));
      HoldMark(c.mask, buf);
      Append(c.space, buf);
      level := Level.Low;
    }

    method SendInverse(c: Cycle, buf: array<u16>)
      requires InStep() && timeIndex <= buf.Length
      requires |PushAllW(Written(buf), [Space(c.space), Mark(c.mask)])| <= buf.Length
      modifies this`timeIndex, this`level, buf
      ensures InStep() && old(timeIndex) <= timeIndex <= buf.Length
      ensures Written(buf) == PushAllW(old(Written(buf)), [Space(c.space), Mark(c.mask)])
      ensures forall k :: timeIndex <= k < buf.Length ==> buf[k] == old(buf[k])
    {
      PushAllTwo(Written(buf), Space(c.space), Mark(c.mask));
      HoldSpace(c.space, buf);
      Append(c.mask, buf);
      level := Level.High;
    }

    /** Emits the cycle of a digit: the copy of the emitter that tests the flag alone. */
    method ReplaceWith(c: Cycle, buf: array<u16>)
      requires InStep() && timeIndex <= buf.Length
      requires |PushAllW(Written(buf), SymbolPulses(c))| <= buf.Length
      modifies this`timeIndex, this`level, buf
      ensures InStep() && old(timeIndex) <= timeIndex <= buf.Length
      ensures Written(buf) == PushAllW(old(Written(buf)), SymbolPulses(c))
      ensures forall k :: timeIndex <= k < buf.Length ==> buf[k] == old(buf[k])
    {
      if c.flag == FLAG_NORMAL {
        SendNormal(c, buf);
      } else if c.flag == FLAG_INVERSE {
        SendInverse(c, buf);
      }
    }

    /** Emits the cycle of a boot, stop, separator or flip item: the copy of the emitter
        that also accepts cycles with a mark or a space only, whatever their flag. */
    method EmitCycle(c: Cycle, buf: array<u16>)
      requires InStep() && timeIndex <= buf.Length
      requires |PushAllW(Written(buf), CyclePulses(c))| <= buf.Length
      modifies this`timeIndex, this`level, buf
      ensures InStep() && old(timeIndex) <= timeIndex <= buf.Length
      ensures Written(buf) == PushAllW(old(Written(buf)), CyclePulses(c))
      ensures forall k :: timeIndex <= k < buf.Length ==> buf[k] == old(buf[k])
    {
      if c.mask != 0 && c.space != 0 {
        if c.flag == FLAG_NORMAL {
          SendNormal(c, buf);
        } else if c.flag == FLAG_INVERSE {
          SendInverse(c, buf);
        }
      } else if c.mask == 0 && c.space != 0 {
        PushAllOne(Written(buf), Space(c.space));
        HoldSpace(c.space, buf);
        level := Level.Low;
      } else if c.space == 0 && c.mask != 0 {
        PushAllOne(Written(buf), Mark(c.mask));
        HoldMark(c.mask, buf);
        level := Level.High;
      }
    }

    method ConvertToIrTime(value: nat, buf: array<u16>)
      requires InStep() && timeIndex <= buf.Length
      requires |PushAllW(Written(buf), DigitPulses(proto, value))| <= buf.Length
      modifies this`timeIndex, this`level, buf
      ensures InStep() && old(timeIndex) <= timeIndex <= buf.Length
      ensures Written(buf) == PushAllW(old(Written(buf)), DigitPulses(proto, value))
      ensures forall k :: timeIndex <= k < buf.Length ==> buf[k] == old(buf[k])
    {
      if value < 16 {
        var k := SymbolIndex(value);
        if k < |proto.cycles| && proto.cycles[k] != [] {
          ReplaceWith(proto.cycles[k][0], buf);
        }
      }
    }

    /** Sends a field least significant digit first. */
    method SendLsbFirst(code: u8, bits: u8, buf: array<u16>)
      requires InStep() && timeIndex <= buf.Length
      requires |PushAllW(Written(buf), Flatten(DigitGroups(proto, LsbStream(code, bits, proto.width))))| <= buf.Length
      modifies this`timeIndex, this`level, buf
      ensures InStep() && old(timeIndex) <= timeIndex <= buf.Length
      ensures Written(buf)
        == PushAllW(old(Written(buf)), Flatten(DigitGroups(proto, LsbStream(code, bits, proto.width))))
      ensures forall k :: timeIndex <= k < buf.Length ==> buf[k] == old(buf[k])
    {
      var w := proto.width;
      var bitNum := bits / w;
      ghost var was, groups := Written(buf), DigitGroups(proto, LsbStream(code, bits, w));
      var i := 0;
      while i < bitNum
        invariant 0 <= i <= bitNum && InStep() && old(timeIndex) <= timeIndex <= buf.Length
        invariant Written(buf) == PushAllW(was, Flatten(groups[..i]))
        invariant forall k :: timeIndex <= k < buf.Length ==> buf[k] == old(buf[k])
      {
        LsbDigitAt(code, bits, w, i);
        NextGroup(was, groups, i);
        ConvertToIrTime(Halving.Low(Shr(code, w * i), w), buf);
        i := i + 1;
      }
      assert groups[..i] == groups;
    }

    /** Sends a field most significant digit first. */
    method SendMsbFirst(code: u8, bits: u8, buf: array<u16>)
      requires InStep() && timeIndex <= buf.Length
      requires |PushAllW(Written(buf), Flatten(DigitGroups(proto, MsbStream(code, bits, proto.width))))| <= buf.Length
      modifies this`timeIndex, this`level, buf
      ensures InStep() && old(timeIndex) <= timeIndex <= buf.Length
      ensures Written(buf)
        == PushAllW(old(Written(buf)), Flatten(DigitGroups(proto, MsbStream(code, bits, proto.width))))
      ensures forall k :: timeIndex <= k < buf.Length ==> buf[k] == old(buf[k])
    {
      var w := proto.width;
      var bitNum := bits / w;
      ghost var was, groups := Written(buf), DigitGroups(proto, MsbStream(code, bits, w));
      var i := 0;
      while i < bitNum
        invariant 0 <= i <= bitNum && InStep() && old(timeIndex) <= timeIndex <= buf.Length
        invariant Written(buf) == PushAllW(was, Flatten(groups[..i]))
        invariant forall k :: timeIndex <= k < buf.Length ==> buf[k] == old(buf[k])
      {
        MsbDigitAt(code, bits, w, i);
        NextGroup(was, groups, i);
        ConvertToIrTime(Halving.Low(Shr(code, bits - w * (i + 1)), w), buf);
        i := i + 1;
      }
      assert groups[..i] == groups;
    }

    method ProcessDecodeNumber(code: u8, item: Item, buf: array<u16>)
      requires InStep() && timeIndex <= buf.Length
      requires |PushAllW(Written(buf), Flatten(DigitGroups(proto, FieldStream(proto, item, code))))| <= buf.Length
      modifies this`timeIndex, this`level, buf
      ensures InStep() && old(timeIndex) <= timeIndex <= buf.Length
      ensures Written(buf) == PushAllW(old(Written(buf)), Flatten(DigitGroups(proto, FieldStream(proto, item, code))))
      ensures forall k :: timeIndex <= k < buf.Length ==> buf[k] == old(buf[k])
    {
      if item.lsb == LSB_FIRST {
        SendLsbFirst(code, item.bits, buf);
      } else if item.lsb == MSB_FIRST {
        SendMsbFirst(code, item.bits, buf);
      }
    }

    /** One item of the protocol: skipped once the buffer is used up. */
    method PrintIrTime(item: Item, key: nat, buf: array<u16>)
      requires item in proto.items && proto.keys[0] * key + item.index < |proto.keys|
      requires InStep() && timeIndex <= buf.Length
      requires timeIndex < USER_DATA_SIZE ==>
        |PushAllW(Written(buf), ItemPulses(proto, item, key, toggle))| <= buf.Length
      modifies this`timeIndex, this`level, buf
      ensures InStep() && old(timeIndex) <= timeIndex <= buf.Length
      ensures Written(buf) == if old(timeIndex) >= USER_DATA_SIZE then old(Written(buf))
                              else PushAllW(old(Written(buf)), ItemPulses(proto, item, key, toggle))
      ensures forall k :: timeIndex <= k < buf.Length ==> buf[k] == old(buf[k])
    {
      hide PushAllW, Flatten, DigitGroups, FieldStream, CycleItemPulses;
      var cs := proto.cycles[item.index];
      var keyCode := KeyCode(proto, key, item);
      if |proto.cycles[ONE]| != 1 || |proto.cycles[ZERO]| != 1 {
        PushNone(Written(buf));
        return;
      }
      if timeIndex >= USER_DATA_SIZE {
        return;
      }
      if item.bits == 1 {
        if cs == [] {
          NoCycles(Written(buf), item, toggle);
          return;
        }
        PrintCycles(item, cs, buf);
      } else {
        if item.mode == 1 {
          keyCode := 0xFF - keyCode;
        }
        ProcessDecodeNumber(keyCode, item, buf);
      }
    }

    lemma NoGroups(t: seq<u16>, groups: seq<seq<Pulse>>)
      ensures groups[..0] == [] && PushAllW(t, Flatten(groups[..0])) == t
    {
    }

    method PrintCycles(item: Item, cs: seq<Cycle>, buf: array<u16>)
      requires InStep() && timeIndex <= buf.Length
      requires |PushAllW(Written(buf), CycleItemPulses(item, cs, toggle))| <= buf.Length
      modifies this`timeIndex, this`level, buf
      ensures InStep() && old(timeIndex) <= timeIndex <= buf.Length
      ensures Written(buf) == PushAllW(old(Written(buf)), CycleItemPulses(item, cs, toggle))
      ensures forall k :: timeIndex <= k < buf.Length ==> buf[k] == old(buf[k])
    {
      hide PushAllW, Flatten, CyclePulses;
      var n := |cs|;
      if n > 5 {
        PushNone(Written(buf));
        return;
      }
      ghost var was, groups := Written(buf), CycleGroups(cs);
      NoGroups(was, groups);
      var at, i := 0, n;
      while i > 0
        invariant 0 <= i <= n && at == n - i && InStep() && old(timeIndex) <= timeIndex <= buf.Length
        invariant n == 2 && item.index == FLIP ==> i == n
        invariant Written(buf) == PushAllW(was, Flatten(groups[..at]))
        invariant forall k :: timeIndex <= k < buf.Length ==> buf[k] == old(buf[k])
      {
        if n == 2 && item.index == FLIP {
          if toggle {
            at := at + 1;
          }
          EmitCycle(cs[at], buf);
          return;
        }
        NextGroup(was, groups, at);
        EmitCycle(cs[at], buf);
        at := at + 1;
        i := i - 1;
      }
      assert groups[..at] == groups;
    }

    /** One key press.  The buffer it leaves depends on the key and the toggle bit alone:
        nothing written by an earlier call is merged or read. */
    method TvLibControl(key: nat, userData: array<u16>) returns (n: nat)
      requires HasKey(proto, key) && |KeyTrain(proto, key, toggle)| <= userData.Length
      modifies this, userData
      ensures InStep() && n == timeIndex <= userData.Length
      ensures userData[..n] == KeyTrain(proto, key, old(toggle))
      ensures forall k :: n <= k < userData.Length ==> userData[k] == old(userData[k])
      ensures toggle == NextToggle(proto, old(toggle))
    {
      hide SendAll, PushAllW, ItemPulses;
      timeIndex := 0;
      level := Level.Low;
      ghost var groups := KeyItems(proto, key, toggle);
      assert groups[..0] == [];
      SendNone();
      var i := 0;
      while i < |proto.items|
        invariant 0 <= i <= |proto.items| && InStep() && timeIndex <= userData.Length
        invariant toggle == old(toggle)
        invariant Written(userData) == SendAll(groups[..i])
        invariant forall k :: timeIndex <= k < userData.Length ==> userData[k] == old(userData[k])
      {
        NextSend(groups, i);
        PrintIrTime(proto.items[i], key, userData);
        i := i + 1;
      }
      assert groups[..i] == groups;
      if |proto.cycles[FLIP]| == 2 {
        toggle := !toggle;
      }
      n := timeIndex;
    }
  }

  lemma ToggleStep(p: Protocol, toggle: bool, n: nat)
    ensures ToggleAfter(p, toggle, n + 1) == NextToggle(p, ToggleAfter(p, toggle, n))
  {
    ToggleIsParity(p, toggle, n);
    ToggleIsParity(p, toggle, n + 1);
  }

  /** A sequence of key presses on one remote, each with a buffer of its own or a used one:
      whatever the buffers held, the outputs are the session's. */
  method PressAll(remote: Remote, keys: seq<nat>, buffers: seq<array<u16>>) returns (outs: seq<seq<u16>>)
    requires HasKeys(remote.proto, keys) && |buffers| == |keys|
    requires forall i :: 0 <= i < |keys| ==> |Session(remote.proto, keys, remote.toggle)[i]| <= buffers[i].Length
    modifies remote, set i | 0 <= i < |buffers| :: buffers[i]
    ensures outs == Session(remote.proto, keys, old(remote.toggle))
    ensures remote.toggle == ToggleAfter(remote.proto, old(remote.toggle), |keys|)
  {
    hide KeyTrain, NextToggle;
    ghost var p, toggle := remote.proto, remote.toggle;
    outs := [];
    var n := 0;
    while n < |keys|
      invariant 0 <= n <= |keys| && remote.toggle == ToggleAfter(p, toggle, n)
      invariant outs == Session(p, keys, toggle)[..n]
    {
      SessionAt(p, keys, toggle, n);
      ToggleStep(p, toggle, n);
      var len := remote.TvLibControl(keys[n], buffers[n]);
      outs := outs + [buffers[n][..len]];
      n := n + 1;
    }
  }
}

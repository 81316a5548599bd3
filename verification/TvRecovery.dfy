/** Key codes can be read back from the buffer: when the digit cycles are told apart by
    their durations, two keys that leave the same buffer carry the same code bits. */
module TvRecovery {
  import opened Words
  import opened Sequences
  import opened TvSignal
  import opened Halving
  import opened TvDigits
  import opened TvProtocol

  // ---- pulse lists that differ only in digit durations ------------------------------

  predicate Twin(ps: seq<Pulse>, qs: seq<Pulse>)
    decreases |ps|
  {
    && |ps| == |qs|
    && (ps == [] || (ps[0] == qs[0] && Twin(ps[1..], qs[1..])) || TwinDigit(ps, qs))
  }

  /** Both lists go on with a mark and a space, of any durations. */
  predicate TwinDigit(ps: seq<Pulse>, qs: seq<Pulse>)
    requires |ps| == |qs|
    decreases |ps|, 0
  {
    && |ps| >= 2 && ps[0].Mark? && ps[1].Space? && qs[0].Mark? && qs[1].Space?
    && Twin(ps[2..], qs[2..])
  }

  lemma {:induction false} TwinSelf(ps: seq<Pulse>)
    ensures Twin(ps, ps)
  {
    if ps != [] {
      TwinSelf(ps[1..]);
    }
  }

  lemma {:induction false} TwinJoin(ps: seq<Pulse>, qs: seq<Pulse>, rs: seq<Pulse>, ss: seq<Pulse>)
    requires Twin(ps, qs) && Twin(rs, ss)
    ensures Twin(ps + rs, qs + ss)
    decreases |ps|
  {
    if ps == [] {
      assert ps + rs == rs && qs + ss == ss;
    } else if ps[0] == qs[0] && Twin(ps[1..], qs[1..]) {
      TwinJoin(ps[1..], qs[1..], rs, ss);
      assert (ps + rs)[1..] == ps[1..] + rs && (qs + ss)[1..] == qs[1..] + ss;
    } else {
      TwinJoin(ps[2..], qs[2..], rs, ss);
      assert (ps + rs)[2..] == ps[2..] + rs && (qs + ss)[2..] == qs[2..] + ss;
    }
  }

  // ---- pushing from the front -------------------------------------------------------

  lemma PushFirst(t: seq<u16>, ps: seq<Pulse>)
    requires ps != []
    ensures PushAllW(t, ps) == PushAllW(PushW(t, ps[0]), ps[1..])
  {
    assert ps == [ps[0]] + ps[1..];
    PushAllAppend(t, [ps[0]], ps[1..]);
    PushAllOne(t, ps[0]);
  }

  /** Ticks added to a space before the next mark starts. */
  function LeadingSpace(ps: seq<Pulse>): nat {
    if ps == [] || ps[0].Mark? then 0 else ps[0].ticks + LeadingSpace(ps[1..])
  }

  lemma {:induction false} EarlierEntriesKept(t: seq<u16>, ps: seq<Pulse>)
    ensures |PushAllW(t, ps)| >= |t|
    ensures forall i :: 0 <= i < |t| - 1 ==> PushAllW(t, ps)[i] == t[i]
  {
    if ps != [] {
      EarlierEntriesKept(t, ps[..|ps| - 1]);
    }
  }

  /** The space a train ends in only grows by the spaces that follow at once. */
  lemma {:induction false} LastSpaceGrows(t: seq<u16>, ps: seq<Pulse>)
    requires |t| > 0 && |t| % 2 == 0
    ensures |PushAllW(t, ps)| >= |t|
    ensures PushAllW(t, ps)[|t| - 1] == (t[|t| - 1] + LeadingSpace(ps)) % WORD
    decreases |ps|
  {
    hide PushAllW;
    if ps == [] {
      PushNone(t);
    } else {
      PushFirst(t, ps);
      var u := PushW(t, ps[0]);
      if ps[0].Mark? {
        EarlierEntriesKept(u, ps[1..]);
      } else {
        assert u == t[|t| - 1 := (t[|t| - 1] + ps[0].ticks) % WORD];
        LastSpaceGrows(u, ps[1..]);
        WrapAdd(t[|t| - 1], ps[0].ticks, LeadingSpace(ps[1..]));
      }
    }
  }

  lemma WrapAdd(a: nat, b: nat, c: nat)
    ensures ((a + b) % WORD + c) % WORD == (a + (b + c)) % WORD
  {
  }

  lemma WrapCancel(a: u16, b: u16, c: nat)
    requires (a + c) % WORD == (b + c) % WORD
    ensures a == b
  {
  }

  lemma {:induction false} TwinLeadingSpace(ps: seq<Pulse>, qs: seq<Pulse>)
    requires Twin(ps, qs)
    ensures LeadingSpace(ps) == LeadingSpace(qs)
    decreases |ps|
  {
    if ps != [] && ps[0] == qs[0] && Twin(ps[1..], qs[1..]) {
      TwinLeadingSpace(ps[1..], qs[1..]);
    }
  }

  // ---- the buffer tells twins apart -------------------------------------------------

  /** After a mark and a space, both durations can be read off the final buffer. */
  lemma DigitReadBack(t: seq<u16>, ps: seq<Pulse>, qs: seq<Pulse>)
    requires |ps| == |qs| && TwinDigit(ps, qs)
    requires PushAllW(t, ps) == PushAllW(t, qs)
    ensures ps[0] == qs[0] && ps[1] == qs[1]
    ensures PushAllW(PushW(PushW(t, ps[0]), ps[1]), ps[2..]) == PushAllW(PushW(PushW(t, qs[0]), qs[1]), qs[2..])
  {
    hide PushAllW, PushW, Twin, LeadingSpace, MarkEntry;
    DigitEntries(t, ps);
    DigitEntries(t, qs);
    TwinLeadingSpace(ps[2..], qs[2..]);
    SameEntries(t, ps[0].ticks, qs[0].ticks);
    WrapCancel(ps[1].ticks, qs[1].ticks, LeadingSpace(ps[2..]));
  }

  /** Where a digit's mark ends up, and with which duration. */
  function MarkAt(t: seq<u16>): nat {
    if |t| % 2 == 1 then |t| - 1 else |t|
  }

  function MarkEntry(t: seq<u16>, ticks: u16): u16 {
    if |t| % 2 == 1 then (t[|t| - 1] + ticks) % WORD else ticks
  }

  lemma SameEntries(t: seq<u16>, a: u16, b: u16)
    requires MarkEntry(t, a) == MarkEntry(t, b)
    ensures a == b
  {
    if |t| % 2 == 1 {
      WrapCancel(a, b, t[|t| - 1]);
    }
  }

  lemma PushDigit(t: seq<u16>, m: u16, s: u16)
    ensures PushW(PushW(t, Mark(m)), Space(s)) == t[..MarkAt(t)] + [MarkEntry(t, m), s]
  {
    var u := PushW(t, Mark(m));
    assert u == t[..MarkAt(t)] + [MarkEntry(t, m)];
    assert |u| % 2 == 1;
  }

  lemma DigitEntries(t: seq<u16>, ps: seq<Pulse>)
    requires |ps| >= 2 && ps[0].Mark? && ps[1].Space?
    ensures var k, f := MarkAt(t), PushAllW(t, ps);
      && f == PushAllW(PushW(PushW(t, ps[0]), ps[1]), ps[2..])
      && |f| >= k + 2
      && f[k] == MarkEntry(t, ps[0].ticks)
      && f[k + 1] == (ps[1].ticks + LeadingSpace(ps[2..])) % WORD
  {
    hide PushAllW, LeadingSpace;
    PushFirst(t, ps);
    PushFirst(PushW(t, ps[0]), ps[1..]);
    assert ps[1..][1..] == ps[2..];
    PushDigit(t, ps[0].ticks, ps[1].ticks);
    var u := t[..MarkAt(t)] + [MarkEntry(t, ps[0].ticks), ps[1].ticks];
    assert |u| % 2 == 0;
    EarlierEntriesKept(u, ps[2..]);
    LastSpaceGrows(u, ps[2..]);
  }

  /** Twins that leave the same buffer are equal. */
  lemma {:induction false} BufferTellsTwinsApart(t: seq<u16>, ps: seq<Pulse>, qs: seq<Pulse>)
    requires Twin(ps, qs)
    requires PushAllW(t, ps) == PushAllW(t, qs)
    ensures ps == qs
    decreases |ps|
  {
    if ps != [] {
      if TwinDigit(ps, qs) {
        DigitReadBack(t, ps, qs);
        BufferTellsTwinsApart(PushW(PushW(t, ps[0]), ps[1]), ps[2..], qs[2..]);
        assert ps == [ps[0], ps[1]] + ps[2..] && qs == [qs[0], qs[1]] + qs[2..];
      } else {
        PushFirst(t, ps);
        PushFirst(t, qs);
        BufferTellsTwinsApart(PushW(t, ps[0]), ps[1..], qs[1..]);
        assert ps == [ps[0]] + ps[1..] && qs == [qs[0]] + qs[1..];
      }
    }
  }

  /** Twins fill the buffer to the same length. */
  lemma {:induction false} TwinsFillAlike(t: seq<u16>, u: seq<u16>, ps: seq<Pulse>, qs: seq<Pulse>)
    requires |t| == |u| && Twin(ps, qs)
    ensures |PushAllW(t, ps)| == |PushAllW(u, qs)|
    decreases |ps|
  {
    hide PushAllW;
    if ps == [] {
      PushNone(t);
      PushNone(u);
    } else {
      PushFirst(t, ps);
      PushFirst(u, qs);
      if TwinDigit(ps, qs) {
        PushFirst(PushW(t, ps[0]), ps[1..]);
        PushFirst(PushW(u, qs[0]), qs[1..]);
        assert ps[1..][1..] == ps[2..] && qs[1..][1..] == qs[2..];
        TwinsFillAlike(PushW(PushW(t, ps[0]), ps[1]), PushW(PushW(u, qs[0]), qs[1]), ps[2..], qs[2..]);
      } else {
        TwinsFillAlike(PushW(t, ps[0]), PushW(u, qs[0]), ps[1..], qs[1..]);
      }
    }
  }

  // ---- groups -----------------------------------------------------------------------

  predicate TwinGroups(g: seq<seq<Pulse>>, h: seq<seq<Pulse>>) {
    |g| == |h| && forall i :: 0 <= i < |g| ==> Twin(g[i], h[i])
  }

  lemma {:induction false} TwinFlatten(g: seq<seq<Pulse>>, h: seq<seq<Pulse>>)
    requires TwinGroups(g, h)
    ensures Twin(Flatten(g), Flatten(h))
  {
    if g != [] {
      var n := |g| - 1;
      TwinFlatten(g[..n], h[..n]);
      TwinJoin(Flatten(g[..n]), Flatten(h[..n]), g[n], h[n]);
    }
  }

  lemma {:induction false} EqualFlattenEqualGroups(g: seq<seq<Pulse>>, h: seq<seq<Pulse>>)
    requires TwinGroups(g, h) && Flatten(g) == Flatten(h)
    ensures g == h
  {
    if g != [] {
      var n := |g| - 1;
      var a, b := Flatten(g[..n]), Flatten(h[..n]);
      assert a + g[n] == b + h[n] && |g[n]| == |h[n]|;
      assert a == (a + g[n])[..|a|] && b == (b + h[n])[..|b|];
      assert g[n] == (a + g[n])[|a|..] && h[n] == (b + h[n])[|b|..];
      EqualFlattenEqualGroups(g[..n], h[..n]);
      assert g == g[..n] + [g[n]] && h == h[..n] + [h[n]];
    }
  }

  lemma {:induction false} TwinsSentAlike(g: seq<seq<Pulse>>, h: seq<seq<Pulse>>)
    requires TwinGroups(g, h)
    ensures |SendAll(g)| == |SendAll(h)| && SentCount(g) == SentCount(h)
  {
    if g != [] {
      var n := |g| - 1;
      TwinsSentAlike(g[..n], h[..n]);
      TwinsFillAlike(SendAll(g[..n]), SendAll(h[..n]), g[n], h[n]);
    }
  }

  /** Equal buffers come from equal pulses, group by group, as far as they were sent. */
  lemma SentGroupsReadBack(g: seq<seq<Pulse>>, h: seq<seq<Pulse>>)
    requires TwinGroups(g, h) && SendAll(g) == SendAll(h)
    ensures SentCount(g) == SentCount(h) && g[..SentCount(g)] == h[..SentCount(g)]
  {
    TwinsSentAlike(g, h);
    var m := SentCount(g);
    SentGroups(g);
    SentGroups(h);
    TwinFlatten(g[..m], h[..m]);
    BufferTellsTwinsApart([], Flatten(g[..m]), Flatten(h[..m]));
    EqualFlattenEqualGroups(g[..m], h[..m]);
  }

  // ---- digits -----------------------------------------------------------------------

  /** Every digit has a cycle, mark first, and no two digits share both durations. */
  predicate Separable(p: Protocol) {
    && LogicLevelsDefined(p)
    && (forall d :: 0 <= d < Shl(1, p.width) ==> HasMarkFirst(p, d))
    && (forall d, e :: 0 <= d < e < Shl(1, p.width) ==> DigitPulses(p, d) != DigitPulses(p, e))
  }

  predicate HasMarkFirst(p: Protocol, d: nat) {
    var ps := DigitPulses(p, d);
    |ps| == 2 && ps[0].Mark? && ps[1].Space?
  }

  predicate AllDigits(p: Protocol, ds: seq<nat>) {
    forall i :: 0 <= i < |ds| ==> ds[i] < Shl(1, p.width)
  }

  lemma DigitGroupsTwin(p: Protocol, ds: seq<nat>, es: seq<nat>)
    requires Separable(p) && |ds| == |es| && AllDigits(p, ds) && AllDigits(p, es)
    ensures TwinGroups(DigitGroups(p, ds), DigitGroups(p, es))
  {
    forall i | 0 <= i < |ds|
      ensures Twin(DigitGroups(p, ds)[i], DigitGroups(p, es)[i])
    {
      assert HasMarkFirst(p, ds[i]) && HasMarkFirst(p, es[i]);
    }
  }

  lemma EqualPulsesEqualDigits(p: Protocol, ds: seq<nat>, es: seq<nat>)
    requires Separable(p) && |ds| == |es| && AllDigits(p, ds) && AllDigits(p, es)
    requires Flatten(DigitGroups(p, ds)) == Flatten(DigitGroups(p, es))
    ensures ds == es
  {
    DigitGroupsTwin(p, ds, es);
    EqualFlattenEqualGroups(DigitGroups(p, ds), DigitGroups(p, es));
    forall i | 0 <= i < |ds|
      ensures ds[i] == es[i]
    {
      assert DigitGroups(p, ds)[i] == DigitPulses(p, ds[i]);
      assert DigitGroups(p, es)[i] == DigitPulses(p, es[i]);
    }
  }

  lemma StreamDigits(p: Protocol, item: Item, code: u8)
    ensures AllDigits(p, FieldStream(p, item, code))
    ensures item.lsb <= 1 ==> |FieldStream(p, item, code)| == item.bits / p.width
  {
    forall v: nat
      ensures AllDigits(p, LsbStream(v, item.bits, p.width))
      ensures AllDigits(p, MsbStream(v, item.bits, p.width))
    {
      forall u: nat {
        LowBelow(u, p.width);
      }
    }
  }

  // ---- key codes --------------------------------------------------------------------

  /** The digits an item sends for a key. */
  function KeyStream(p: Protocol, item: Item, key: nat): seq<nat>
    requires item.index < |p.cycles| && p.keys[0] * key + item.index < |p.keys|
  {
    FieldStream(p, item, SentCode(item, KeyCode(p, key, item)))
  }

  lemma ItemsTwin(p: Protocol, a: nat, b: nat, toggle: bool, i: nat)
    requires Separable(p) && HasKey(p, a) && HasKey(p, b) && i < |p.items|
    ensures Twin(KeyItems(p, a, toggle)[i], KeyItems(p, b, toggle)[i])
  {
    hide Flatten, DigitGroups, FieldStream, Twin;
    var item := p.items[i];
    if item.bits == 1 {
      TwinSelf(CycleItemPulses(item, p.cycles[item.index], toggle));
    } else {
      var ds, es := KeyStream(p, item, a), KeyStream(p, item, b);
      StreamDigits(p, item, SentCode(item, KeyCode(p, a, item)));
      StreamDigits(p, item, SentCode(item, KeyCode(p, b, item)));
      SameLength(p, item, SentCode(item, KeyCode(p, a, item)), SentCode(item, KeyCode(p, b, item)));
      DigitGroupsTwin(p, ds, es);
      TwinFlatten(DigitGroups(p, ds), DigitGroups(p, es));
    }
  }

  lemma SameLength(p: Protocol, item: Item, c: u8, d: u8)
    ensures |FieldStream(p, item, c)| == |FieldStream(p, item, d)|
  {
  }

  /** Two keys that leave the same buffer send the same digits in every item sent. */
  lemma EqualBuffersEqualDigits(p: Protocol, a: nat, b: nat, toggle: bool, i: nat)
    requires Separable(p) && HasKey(p, a) && HasKey(p, b)
    requires KeyTrain(p, a, toggle) == KeyTrain(p, b, toggle)
    requires i < SentCount(KeyItems(p, a, toggle)) && p.items[i].bits != 1
    ensures KeyStream(p, p.items[i], a) == KeyStream(p, p.items[i], b)
  {
    hide Flatten, DigitGroups, FieldStream, Twin, SendAll, SentCount;
    var g, h, item := KeyItems(p, a, toggle), KeyItems(p, b, toggle), p.items[i];
    forall k | 0 <= k < |g|
      ensures Twin(g[k], h[k])
    {
      ItemsTwin(p, a, b, toggle, k);
    }
    SentGroupsReadBack(g, h);
    assert g[i] == g[..SentCount(g)][i] && h[i] == h[..SentCount(g)][i];
    StreamDigits(p, item, SentCode(item, KeyCode(p, a, item)));
    StreamDigits(p, item, SentCode(item, KeyCode(p, b, item)));
    SameLength(p, item, SentCode(item, KeyCode(p, a, item)), SentCode(item, KeyCode(p, b, item)));
    EqualPulsesEqualDigits(p, KeyStream(p, item, a), KeyStream(p, item, b));
  }

  lemma StreamHoldsField(p: Protocol, item: Item, c: u8)
    requires item.lsb <= 1 && item.bits % p.width == 0
    ensures var ds := FieldStream(p, item, c);
      FromDigits(if item.lsb == LSB_FIRST then ds else Reverse(ds), p.width) == Low(c, item.bits)
  {
    StreamsReassemble(c, item.bits, p.width);
  }

  /** The key's code bits can be recovered: equal buffers, equal low `bits` bits. */
  lemma KeyCodeRecoverable(p: Protocol, a: nat, b: nat, toggle: bool, i: nat)
    requires Separable(p) && HasKey(p, a) && HasKey(p, b)
    requires KeyTrain(p, a, toggle) == KeyTrain(p, b, toggle)
    requires i < SentCount(KeyItems(p, a, toggle))
    requires p.items[i].bits != 1 && p.items[i].bits <= 8
    requires p.items[i].lsb <= 1 && p.items[i].bits % p.width == 0
    ensures var n := p.items[i].bits;
      KeyCode(p, a, p.items[i]) % Pow2(n) == KeyCode(p, b, p.items[i]) % Pow2(n)
  {
    hide FieldStream, SentCount, KeyTrain, KeyItems, FromDigits, Pow2, Separable;
    EqualBuffersEqualDigits(p, a, b, toggle, i);
    assert p.items[i].index < |p.cycles|;
    SameStreamSameBits(p, p.items[i], KeyCode(p, a, p.items[i]), KeyCode(p, b, p.items[i]));
  }

  /** Codes sent with the same digits have the same low bits, in either order and mode. */
  lemma SameStreamSameBits(p: Protocol, item: Item, c: u8, d: u8)
    requires item.bits <= 8 && item.lsb <= 1 && item.bits % p.width == 0
    requires FieldStream(p, item, SentCode(item, c)) == FieldStream(p, item, SentCode(item, d))
    ensures c % Pow2(item.bits) == d % Pow2(item.bits)
  {
    hide FieldStream, FromDigits, Pow2;
    StreamHoldsField(p, item, SentCode(item, c));
    StreamHoldsField(p, item, SentCode(item, d));
    if item.mode == 1 {
      ByteComplement(c, item.bits);
      ByteComplement(d, item.bits);
    }
    LowIsMod(c, item.bits);
    LowIsMod(d, item.bits);
  }

  lemma ByteComplement(c: u8, n: nat)
    requires n <= 8
    ensures Low(c, n) + Low(0xFF - c, n) == Shl(1, n) - 1
  {
    assert Shl(1, 8) == 256 by {
      assert Shl(1, 4) == 16 && Shl(1, 6) == 64;
    }
    Complement(c, 0xFF - c, n, 8);
  }
}

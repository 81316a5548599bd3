/** The command-type remote: protocol tables, the pulses each table item asks for, and
    what a whole key press asks for. */
module TvProtocol {
  import opened Words
  import opened Sequences
  import opened TvSignal
  import opened Halving
  import opened TvDigits

  const USER_DATA_SIZE: nat := 1636

  // positions in the cycle table
  const ONE: nat := 3
  const ZERO: nat := 4
  const FLIP: nat := 5
  const TWO: nat := 6
  const THREE: nat := 7

  const FLAG_NORMAL: nat := 0
  const FLAG_INVERSE: nat := 1
  const LSB_FIRST: nat := 0
  const MSB_FIRST: nat := 1

  datatype Cycle = Cycle(flag: u8, mask: u16, space: u16)
  datatype Item = Item(bits: u8, lsb: u8, mode: u8, index: u8)

  /** cycles[k] are the cycles stored for table position k; digits carry `width` bits;
      keys[0] is the number of code bytes a key takes, the key codes follow it. */
  datatype Tables = Tables(cycles: seq<seq<Cycle>>, width: nat, items: seq<Item>, keys: seq<u8>) {

    predicate Valid() {
      && |cycles| == (if width == 4 then 20 else 8)
      && (width == 1 || width == 2 || width == 4)
      && (width < 4 ==> (width == 1 <==> cycles[TWO] == [] && cycles[THREE] == []))
      && keys != []
      && forall i :: 0 <= i < |items| ==> items[i].index < |cycles| && items[i].bits <= 32
    }
  }

  type Protocol = t: Tables | t.Valid() witness Tables([[], [], [], [], [], [], [], []], 1, [], [0])

  /** The key's code bytes are in the table for every item. */
  predicate HasKey(p: Protocol, key: nat) {
    forall i :: 0 <= i < |p.items| ==> p.keys[0] * key + p.items[i].index < |p.keys|
  }

  function KeyCode(p: Protocol, key: nat, item: Item): u8
    requires p.keys[0] * key + item.index < |p.keys|
  {
    p.keys[p.keys[0] * key + item.index]
  }

  predicate LogicLevelsDefined(p: Protocol) {
    |p.cycles[ONE]| == 1 && |p.cycles[ZERO]| == 1
  }

  predicate Flips(p: Protocol) {
    |p.cycles[FLIP]| == 2
  }

  // ---- the pulses of one cycle ----------------------------------------------------

  /** A cycle of a boot, stop, separator or flip item. */
  function CyclePulses(c: Cycle): seq<Pulse> {
    if c.mask > 0 && c.space > 0 then SymbolPulses(c)
    else if c.space > 0 then [Space(c.space)]
    else if c.mask > 0 then [Mark(c.mask)]
    else []
  }

  /** A cycle that stands for a digit. */
  function SymbolPulses(c: Cycle): seq<Pulse> {
    if c.flag == FLAG_NORMAL then [Mark(c.mask), Space(c.space)]
    else if c.flag == FLAG_INVERSE then [Space(c.space), Mark(c.mask)]
    else []
  }

  function CycleGroups(cs: seq<Cycle>): seq<seq<Pulse>> {
    seq(|cs|, i requires 0 <= i < |cs| => CyclePulses(cs[i]))
  }

  /** An item of cycles sends them all, but a two-cycle flip item sends one of its two. */
  function CycleItemPulses(item: Item, cs: seq<Cycle>, toggle: bool): seq<Pulse> {
    if |cs| > 5 then []
    else if |cs| == 2 && item.index == FLIP then CyclePulses(cs[if toggle then 1 else 0])
    else Flatten(CycleGroups(cs))
  }

  lemma NoCycles(t: seq<u16>, item: Item, toggle: bool)
    ensures PushAllW(t, CycleItemPulses(item, [], toggle)) == t
  {
  }

  // ---- the pulses of a digit ------------------------------------------------------

  /** Table position of a digit's cycle. */
  function SymbolIndex(d: nat): nat {
    if d == 0 then ZERO else if d == 1 then ONE else d + 4
  }

  function DigitPulses(p: Protocol, d: nat): seq<Pulse> {
    var k := SymbolIndex(d);
    if d < 16 && k < |p.cycles| && p.cycles[k] != [] then SymbolPulses(p.cycles[k][0]) else []
  }

  function DigitGroups(p: Protocol, ds: seq<nat>): seq<seq<Pulse>> {
    seq(|ds|, i requires 0 <= i < |ds| => DigitPulses(p, ds[i]))
  }

  /** The digits an item sends for a code, in sending order. */
  function FieldStream(p: Protocol, item: Item, code: u8): seq<nat> {
    if item.lsb == LSB_FIRST then LsbStream(code, item.bits, p.width)
    else if item.lsb == MSB_FIRST then MsbStream(code, item.bits, p.width)
    else []
  }

  /** The code sent for a key code: an item in inverse mode sends the complement. */
  function SentCode(item: Item, code: u8): u8 {
    if item.mode == 1 then 0xFF - code else code
  }

  /** The place of the i-th digit sent, from the lowest bit of the code. */
  function DigitPlace(p: Protocol, item: Item, i: nat): int {
    if item.lsb == LSB_FIRST then p.width * i else item.bits - p.width * (i + 1)
  }

  lemma DigitAtPlace(p: Protocol, item: Item, code: u8, i: nat)
    requires item.lsb <= 1 && i < item.bits / p.width
    ensures DigitPlace(p, item, i) >= 0 && i < |FieldStream(p, item, code)|
    ensures FieldStream(p, item, code)[i] == Low(Shr(code, DigitPlace(p, item, i)), p.width)
  {
    hide Low, Shr;
    LsbDigitAt(code, item.bits, p.width, i);
    MsbDigitAt(code, item.bits, p.width, i);
  }

  /** Inverse mode complements every digit of the stream, in either order and for every code,
      exactly when the digits sent lie inside the byte; beyond it both modes send zeros. */
  lemma InverseComplementsIff(p: Protocol, item: Item, code: u8)
    requires item.lsb <= 1
    ensures var n := item.bits / p.width;
      var ds := FieldStream(p, item, SentCode(item.(mode := 0), code));
      var es := FieldStream(p, item, SentCode(item.(mode := 1), code));
      && |ds| == |es| == n
      && ((forall i :: 0 <= i < n ==> ds[i] + es[i] == Shl(1, p.width) - 1)
          <==> (if item.lsb == LSB_FIRST then item.bits - item.bits % p.width <= 8 else item.bits <= 8))
  {
    hide Low, Shr, FieldStream;
    var n, w := item.bits / p.width, p.width;
    ByteIsEightBits();
    StreamLengths(p, item, code);
    StreamLengths(p, item, 0xFF - code);
    forall i: nat | i < n
      ensures DigitPlace(p, item, i) >= 0
      ensures FieldStream(p, item, code)[i] + FieldStream(p, item, 0xFF - code)[i] == Shl(1, w) - 1
        <==> DigitPlace(p, item, i) + w <= 8
    {
      DigitAtPlace(p, item, code, i);
      DigitAtPlace(p, item, 0xFF - code, i);
      DigitComplementIff(code, 0xFF - code, DigitPlace(p, item, i), w);
    }
    if n > 0 {
      PlacesBelowTop(p, item);
    }
  }

  lemma ByteIsEightBits()
    ensures Shl(1, 8) == 0x100
  {
    assert Shl(1, 4) == 0x10;
  }

  lemma StreamLengths(p: Protocol, item: Item, code: u8)
    requires item.lsb <= 1
    ensures |FieldStream(p, item, code)| == item.bits / p.width
  {
  }

  /** The topmost digit sent: the last one, or the first. */
  lemma PlacesBelowTop(p: Protocol, item: Item)
    requires item.bits / p.width > 0
    ensures var n := item.bits / p.width;
      var top := if item.lsb == LSB_FIRST then n - 1 else 0;
      && DigitPlace(p, item, top) + p.width
         == (if item.lsb == LSB_FIRST then item.bits - item.bits % p.width else item.bits)
      && forall i :: 0 <= i < n ==> DigitPlace(p, item, i) <= DigitPlace(p, item, top)
  {
  }

  // ---- the pulses of an item and of a key -----------------------------------------

  function ItemPulses(p: Protocol, item: Item, key: nat, toggle: bool): seq<Pulse>
    requires item.index < |p.cycles| && p.keys[0] * key + item.index < |p.keys|
  {
    var cs := p.cycles[item.index];
    if !LogicLevelsDefined(p) then []
    else if item.bits == 1 then CycleItemPulses(item, cs, toggle)
    else Flatten(DigitGroups(p, FieldStream(p, item, SentCode(item, KeyCode(p, key, item)))))
  }

  function KeyItems(p: Protocol, key: nat, toggle: bool): (groups: seq<seq<Pulse>>)
    requires HasKey(p, key)
    ensures |groups| == |p.items|
  {
    seq(|p.items|, i requires 0 <= i < |p.items| => ItemPulses(p, p.items[i], key, toggle))
  }

  // ---- sending item after item ----------------------------------------------------

  /** The buffer after sending groups of pulses: a group is skipped once the buffer is used up. */
  function SendAll(groups: seq<seq<Pulse>>): seq<u16> {
    if groups == [] then [] else
      var t := SendAll(groups[..|groups| - 1]);
      if |t| >= USER_DATA_SIZE then t else PushAllW(t, groups[|groups| - 1])
  }

  lemma SendNone()
    ensures SendAll([]) == []
  {
  }

  lemma {:induction false} SendAllGrows(groups: seq<seq<Pulse>>, i: nat)
    requires i <= |groups|
    ensures |SendAll(groups[..i])| <= |SendAll(groups)|
    decreases |groups| - i
  {
    if i < |groups| {
      assert groups[..i + 1][..i] == groups[..i];
      PushAllGrows(SendAll(groups[..i]), groups[i]);
      SendAllGrows(groups, i + 1);
    } else {
      assert groups[..i] == groups;
    }
  }

  lemma NextSend(groups: seq<seq<Pulse>>, i: nat)
    requires i < |groups|
    ensures var t := SendAll(groups[..i]);
      && SendAll(groups[..i + 1]) == (if |t| >= USER_DATA_SIZE then t else PushAllW(t, groups[i]))
      && |SendAll(groups[..i + 1])| <= |SendAll(groups)|
  {
    assert groups[..i + 1][..i] == groups[..i];
    SendAllGrows(groups, i + 1);
  }

  /** How many groups are sent before the buffer is used up. */
  function SentCount(groups: seq<seq<Pulse>>): (m: nat)
    ensures m <= |groups|
  {
    if groups == [] then 0
    else if |SendAll(groups[..|groups| - 1])| >= USER_DATA_SIZE then SentCount(groups[..|groups| - 1])
    else |groups|
  }

  lemma {:induction false} SentGroups(groups: seq<seq<Pulse>>)
    ensures SendAll(groups) == PushAllW([], Flatten(groups[..SentCount(groups)]))
    ensures SentCount(groups) < |groups| ==> |SendAll(groups)| >= USER_DATA_SIZE
  {
    if groups != [] {
      var n := |groups| - 1;
      var init := groups[..n];
      SentGroups(init);
      if |SendAll(init)| < USER_DATA_SIZE {
        assert init[..SentCount(init)] == init;
        PushAllAppend([], Flatten(init), groups[n]);
        assert groups[..SentCount(groups)] == groups;
      } else {
        assert groups[..SentCount(groups)] == init[..SentCount(init)];
      }
    }
  }

  /** What one key press puts in the buffer. */
  function KeyTrain(p: Protocol, key: nat, toggle: bool): seq<u16>
    requires HasKey(p, key)
  {
    SendAll(KeyItems(p, key, toggle))
  }

  /** The pulses sent for a key. */
  function KeyPulses(p: Protocol, key: nat, toggle: bool): seq<Pulse>
    requires HasKey(p, key)
  {
    var groups := KeyItems(p, key, toggle);
    Flatten(groups[..SentCount(groups)])
  }

  /** The waveform of a key press is the concatenation of its items' level signals, less
      the leading silence, exactly when no run of one level overflows its entry. */
  lemma KeyWaveformIsConcatenation(p: Protocol, key: nat, toggle: bool)
    requires HasKey(p, key)
    ensures var ps := KeyPulses(p, key, toggle);
      && (Expand(KeyTrain(p, key, toggle)) == Signal(Heard(ps)) <==> Fits(PushAll([], ps)))
      && KeyTrain(p, key, toggle) == Wrap(PushAll([], ps))
  {
    SentGroups(KeyItems(p, key, toggle));
    BufferIsFaithfulIffRunsFit(KeyPulses(p, key, toggle));
    BufferIsExactTrainModuloWord(KeyPulses(p, key, toggle));
  }

  // ---- runs of key presses --------------------------------------------------------

  function NextToggle(p: Protocol, toggle: bool): bool {
    if Flips(p) then !toggle else toggle
  }

  /** The toggle bit after n presses. */
  function ToggleAfter(p: Protocol, toggle: bool, n: nat): bool
    decreases n
  {
    if n == 0 then toggle else ToggleAfter(p, NextToggle(p, toggle), n - 1)
  }

  lemma {:induction false} ToggleIsParity(p: Protocol, toggle: bool, n: nat)
    ensures ToggleAfter(p, toggle, n) == (toggle != (Flips(p) && n % 2 == 1))
    decreases n
  {
    if n > 0 {
      ToggleIsParity(p, NextToggle(p, toggle), n - 1);
    }
  }

  predicate HasKeys(p: Protocol, keys: seq<nat>) {
    forall i :: 0 <= i < |keys| ==> HasKey(p, keys[i])
  }

  /** The buffers of a sequence of key presses, the toggle bit carried along. */
  function Session(p: Protocol, keys: seq<nat>, toggle: bool): (outs: seq<seq<u16>>)
    requires HasKeys(p, keys)
    ensures |outs| == |keys|
  {
    if keys == [] then []
    else [KeyTrain(p, keys[0], toggle)] + Session(p, keys[1..], NextToggle(p, toggle))
  }

  lemma {:induction false} SessionAt(p: Protocol, keys: seq<nat>, toggle: bool, n: nat)
    requires HasKeys(p, keys) && n < |keys|
    ensures Session(p, keys, toggle)[n] == KeyTrain(p, keys[n], ToggleAfter(p, toggle, n))
  {
    hide KeyTrain, HasKey, Flips;
    if n > 0 {
      SessionAt(p, keys[1..], NextToggle(p, toggle), n - 1);
      assert keys[1..][n - 1] == keys[n];
    }
  }

  /** After a parse (toggle clear), the n-th press sends a buffer that depends on its key
      and the parity of n alone. */
  lemma PressDependsOnKeyAndParity(p: Protocol, keys: seq<nat>, n: nat)
    requires HasKeys(p, keys) && n < |keys|
    ensures Session(p, keys, false)[n] == KeyTrain(p, keys[n], Flips(p) && n % 2 == 1)
  {
    SessionAt(p, keys, false, n);
    ToggleIsParity(p, false, n);
  }

  /** A two-cycle flip item sends its two cycles strictly in turn. */
  lemma FlipItemAlternates(p: Protocol, keys: seq<nat>, n: nat, i: nat)
    requires HasKeys(p, keys) && n < |keys| && i < |p.items|
    requires p.items[i].index == FLIP && p.items[i].bits == 1 && LogicLevelsDefined(p) && Flips(p)
    ensures HasKey(p, keys[n])
    ensures Session(p, keys, false)[n] == SendAll(KeyItems(p, keys[n], n % 2 == 1))
    ensures KeyItems(p, keys[n], n % 2 == 1)[i] == CyclePulses(p.cycles[FLIP][n % 2])
  {
    hide Session, SendAll, DigitGroups, FieldStream, CyclePulses, SentCode;
    PressDependsOnKeyAndParity(p, keys, n);
    FlipItem(p, keys[n], n % 2 == 1, i);
  }

  lemma FlipItem(p: Protocol, key: nat, toggle: bool, i: nat)
    requires HasKey(p, key) && i < |p.items|
    requires p.items[i].index == FLIP && p.items[i].bits == 1 && LogicLevelsDefined(p) && Flips(p)
    ensures KeyItems(p, key, toggle)[i] == CyclePulses(p.cycles[FLIP][if toggle then 1 else 0])
  {
    hide DigitGroups, FieldStream, CyclePulses, SentCode, Flatten;
  }
}

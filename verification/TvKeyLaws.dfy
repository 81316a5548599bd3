/** What a key press sends, said of the tables and key codes alone: table positions, bits of
    the key code and key bytes by their numbers. */
module TvKeyLaws {
  import opened Words
  import opened Sequences
  import opened Halving
  import opened TvSignal
  import opened TvProtocol
  import opened TvParse

  // ---- cycles ------------------------------------------------------------------------------------

  /** Flag 0: mark, then space; flag 1: space, then mark. */
  function PulsesByFlag(c: Cycle): seq<Pulse> {
    if c.flag == 0 then [Mark(c.mask), Space(c.space)]
    else if c.flag == 1 then [Space(c.space), Mark(c.mask)]
    else []
  }

  /** A cycle that may lack its mark or its space. */
  function PulsesOfCycle(c: Cycle): seq<Pulse> {
    if c.mask == 0 && c.space == 0 then []
    else if c.mask == 0 then [Space(c.space)]
    else if c.space == 0 then [Mark(c.mask)]
    else PulsesByFlag(c)
  }

  /** The first cycle of position k, if the table has one. */
  function FirstCycle(p: Protocol, k: nat): seq<Pulse> {
    if k < |p.cycles| && p.cycles[k] != [] then PulsesByFlag(p.cycles[k][0]) else []
  }

  /** Digit 0 is sent as position 4, digit 1 as position 3, and a digit d of 2 to 15 as
      position d + 4. */
  lemma DigitSendsItsPosition(p: Protocol, d: nat)
    requires d < 16
    ensures DigitPulses(p, d) == FirstCycle(p, if d == 0 then 4 else if d == 1 then 3 else d + 4)
  {
  }

  /** Entries with even numbers are marks, those with odd numbers spaces: a pulse of the level of
      the last entry lengthens it, in sixteen bits, and a space before any mark is dropped. */
  lemma PulseIsWritten(t: seq<u16>, n: u16)
    ensures var last := |t| - 1;
      && PushW(t, Mark(n)) == (if |t| % 2 == 0 then t + [n] else t[..last] + [(t[last] + n) % 0x1_0000])
      && PushW(t, Space(n))
         == (if t == [] then [] else if |t| % 2 == 1 then t + [n] else t[..last] + [(t[last] + n) % 0x1_0000])
  {
    if t != [] {
      var last := |t| - 1;
      assert t[last := (t[last] + n) % 0x1_0000] == t[..last] + [(t[last] + n) % 0x1_0000];
    }
  }

  // ---- fields ------------------------------------------------------------------------------------

  /** The byte an item sends for a key: behind the byte that gives the number of bytes a key
      has; complemented in mode 1. */
  function SentByte(p: Protocol, key: nat, item: Item): u8
    requires p.keys[0] * key + item.index < |p.keys|
  {
    var code := p.keys[p.keys[0] * key + item.index];
    if item.mode == 1 then 255 - code else code
  }

  /** Digit j of a field of the code: from the lowest bit up in order 0, from the top bit down
      in order 1. */
  function DigitSent(code: nat, item: Item, w: nat, j: nat): nat {
    var place := if item.lsb == 0 then w * j else item.bits - w * (j + 1);
    if place < 0 then 0 else code / Pow2(place) % Pow2(w)
  }

  function FieldCycles(p: Protocol, item: Item, code: nat, n: nat): (groups: seq<seq<Pulse>>)
    ensures |groups| == n
  {
    seq(n, j requires 0 <= j < n =>
      var d := DigitSent(code, item, p.width, j);
      FirstCycle(p, if d == 0 then 4 else if d == 1 then 3 else d + 4))
  }

  lemma DigitIsQuotient(v: nat, s: nat, w: nat)
    ensures Low(Shr(v, s), w) == v / Pow2(s) % Pow2(w)
  {
    ShrIsDiv(v, s);
    LowIsMod(Shr(v, s), w);
  }

  lemma DigitsBelow16(p: Protocol, v: nat)
    ensures v % Pow2(p.width) < 16
  {
    assert Pow2(1) == 2 && Pow2(2) == 4;
    assert Pow2(4) == 4 * Pow2(2);
  }

  lemma FieldDigit(p: Protocol, item: Item, code: u8, j: nat)
    requires item.lsb <= 1 && j < item.bits / p.width
    ensures j < |FieldStream(p, item, code)|
    ensures FieldStream(p, item, code)[j] == DigitSent(code, item, p.width, j) < 16
  {
    hide Low, Shr, FieldStream, Pow2;
    DigitAtPlace(p, item, code, j);
    DigitIsQuotient(code, DigitPlace(p, item, j), p.width);
    DigitsBelow16(p, code / Pow2(DigitPlace(p, item, j)));
  }

  lemma GroupsAreCycles(p: Protocol, item: Item, code: u8)
    requires item.lsb <= 1
    ensures DigitGroups(p, FieldStream(p, item, code)) == FieldCycles(p, item, code, item.bits / p.width)
  {
    hide FieldStream, DigitSent, DigitPulses, FirstCycle;
    var n := item.bits / p.width;
    StreamLengths(p, item, code);
    forall j: nat | j < n
      ensures DigitGroups(p, FieldStream(p, item, code))[j] == FieldCycles(p, item, code, n)[j]
    {
      FieldDigit(p, item, code, j);
      DigitSendsItsPosition(p, DigitSent(code, item, p.width, j));
    }
  }

  /** A field item sends, digit by digit, the cycles of the digits' positions, for every width
      and order; the digits are those of the key's byte. */
  lemma FieldItemSends(p: Protocol, key: nat, toggle: bool, i: nat)
    requires HasKey(p, key) && i < |p.items| && p.items[i].bits != 1 && p.items[i].lsb <= 1
    requires |p.cycles[3]| == 1 && |p.cycles[4]| == 1
    ensures var item := p.items[i];
      && p.keys[0] * key + item.index < |p.keys|
      && KeyItems(p, key, toggle)[i]
         == Flatten(FieldCycles(p, item, SentByte(p, key, item), item.bits / p.width))
  {
    hide FieldStream, FieldCycles, DigitGroups, Flatten, Pow2;
    var item := p.items[i];
    assert p.keys[0] * key + item.index < |p.keys|;
    GroupsAreCycles(p, item, SentByte(p, key, item));
  }

  /** One bit a digit: a set bit is sent as position 3, a clear one as position 4, from bit 0
      up in order 0, from the top bit down in order 1. */
  lemma FieldItemSendsBits(p: Protocol, item: Item, code: nat, j: nat)
    requires p.width == 1 && item.lsb <= 1 && j < item.bits
    ensures FieldCycles(p, item, code, item.bits)[j]
      == FirstCycle(p, if HasBit(code, if item.lsb == 0 then j else item.bits - 1 - j) then 3 else 4)
  {
    hide FirstCycle;
    assert Pow2(1) == 2;
    hide Pow2;
  }

  // ---- the other items -----------------------------------------------------------------------------

  function AllCycles(cs: seq<Cycle>): (groups: seq<seq<Pulse>>)
    ensures |groups| == |cs|
  {
    seq(|cs|, k requires 0 <= k < |cs| => PulsesOfCycle(cs[k]))
  }

  /** An item of one bit sends the cycles of its position, at most five; with two at position 5
      the one the toggle bit picks. */
  lemma CycleItemSends(p: Protocol, key: nat, toggle: bool, i: nat)
    requires HasKey(p, key) && i < |p.items| && p.items[i].bits == 1
    requires |p.cycles[3]| == 1 && |p.cycles[4]| == 1
    ensures var k := p.items[i].index;
      && k < |p.cycles|
      && KeyItems(p, key, toggle)[i]
         == if |p.cycles[k]| > 5 then []
            else if k == 5 && |p.cycles[k]| == 2 then PulsesOfCycle(p.cycles[k][if toggle then 1 else 0])
            else Flatten(AllCycles(p.cycles[k]))
  {
    assert p.items[i].index < |p.cycles| && p.keys[0] * key + p.items[i].index < |p.keys|;
    hide Flatten;
    var cs := p.cycles[p.items[i].index];
    assert CycleGroups(cs) == AllCycles(cs);
  }

  /** Without exactly one cycle at positions 3 and 4 nothing is sent. */
  lemma NothingWithoutLogicLevels(p: Protocol, key: nat, toggle: bool, i: nat)
    requires HasKey(p, key) && i < |p.items| && !(|p.cycles[3]| == 1 && |p.cycles[4]| == 1)
    ensures KeyItems(p, key, toggle)[i] == []
  {
    assert p.items[i].index < |p.cycles| && p.keys[0] * key + p.items[i].index < |p.keys|;
  }

  /** Once 1636 entries are written the remaining items are skipped. */
  lemma ItemsStopAtLimit(groups: seq<seq<Pulse>>, g: seq<Pulse>)
    ensures var t := SendAll(groups);
      SendAll(groups + [g]) == if |t| >= 1636 then t else PushAllW(t, g)
  {
    hide PushAllW;
    assert (groups + [g])[..|groups|] == groups;
  }

  /** The toggle bit turns with every press exactly when position 5 has two cycles. */
  lemma TogglesIff(p: Protocol, toggle: bool)
    ensures NextToggle(p, toggle) != toggle <==> |p.cycles[5]| == 2
  {
  }

  // ---- the tables ------------------------------------------------------------------------------------

  /** Digits have four bits with twenty positions; with eight, one bit exactly when positions 6
      and 7 are empty, and else two. */
  lemma WidthByPositions(p: Protocol)
    ensures p.width == if |p.cycles| == 20 then 4 else if p.cycles[6] == [] && p.cycles[7] == [] then 1 else 2
  {
  }

  /** Cycles before position k, by the counts behind the name. */
  function CyclesBefore(data: seq<u8>, k: nat): nat
    requires 20 + k <= |data|
  {
    if k == 0 then 0 else CyclesBefore(data, k - 1) + data[20 + k - 1]
  }

  lemma {:induction false} SumOfCounts(data: seq<u8>, encoding: nat, k: nat)
    requires CyclesStart(encoding) <= |data| && k <= Positions(encoding)
    ensures Sum(CountsOf(data, encoding)[..k]) == CyclesBefore(data, k)
  {
    var counts := CountsOf(data, encoding);
    if k > 0 {
      SumOfCounts(data, encoding, k - 1);
      assert counts[..k][..k - 1] == counts[..k - 1];
    }
  }

  lemma {:induction false} CutPiece(flat: seq<Cycle>, counts: seq<u8>, k: nat)
    requires Sum(counts) <= |flat| && k < |counts|
    ensures Sum(counts[..k]) + counts[k] <= Sum(counts)
    ensures Cut(flat, counts)[k] == flat[Sum(counts[..k])..Sum(counts[..k]) + counts[k]]
    decreases |counts|
  {
    var m := |counts| - 1;
    CutStep(flat, counts);
    hide Sum, Cut;
    if k < m {
      CutPiece(flat, counts[..m], k);
      assert counts[..m][..k] == counts[..k];
    }
  }

  /** Where the i-th cycle of position k stands in the binary. */
  function CyclePlace(data: seq<u8>, encoding: nat, k: nat, i: nat): nat
    requires 20 + k <= |data|
  {
    20 + (if encoding == 0 then 8 else 20) + 5 * (CyclesBefore(data, k) + i)
  }

  /** The cycles read: as many for position k as byte 20 + k says, five bytes each, flag first,
      then mark and space, low byte first. */
  lemma CyclesReadAre(data: seq<u8>, encoding: nat, k: nat, i: nat)
    requires Readable(data, encoding) && k < (if encoding == 0 then 8 else 20) && i < data[20 + k]
    ensures var cs := ReadTables(data, encoding).cycles[k];
      var at := CyclePlace(data, encoding, k, i);
      && |cs| == data[20 + k] && at + 4 < |data|
      && cs[i].flag == data[at]
      && cs[i].mask == data[at + 1] + 0x100 * data[at + 2] as int
      && cs[i].space == data[at + 3] + 0x100 * data[at + 4] as int
  {
    hide Sum, Cut;
    var counts := CountsOf(data, encoding);
    var flat := CyclesAt(data, CyclesStart(encoding), Sum(counts));
    SumOfCounts(data, encoding, k);
    CutPiece(flat, counts, k);
    var n := CyclesBefore(data, k) + i;
    assert Cut(flat, counts)[k][i] == flat[n] == CycleAt(data, CyclesStart(encoding) + CYCLE_SIZE * n);
  }

  /** The items follow the cycles and their own count, four bytes each: bits, order, mode and
      position; the word "irda" and the keys' bytes follow them. */
  lemma ItemsReadAre(data: seq<u8>, encoding: nat, i: nat)
    requires Readable(data, encoding) && 20 + Positions(encoding) <= |data|
    ensures var n := if encoding == 0 then 8 else 20;
      var t := ReadTables(data, encoding);
      var at := 20 + n + 5 * CyclesBefore(data, n);
      && at < |data| && |t.items| == data[at]
      && at + 1 + 4 * |t.items| + 4 < |data|
      && (i < |t.items| ==>
           var b := at + 1 + 4 * i;
           t.items[i] == Item(data[b], data[b + 1], data[b + 2], data[b + 3]))
      && t.keys == data[at + 1 + 4 * |t.items| + 4..]
      && (HasMagic(data, encoding) <==>
           var m := at + 1 + 4 * |t.items|;
           data[m] == 0x69 && data[m + 1] == 0x72 && data[m + 2] == 0x64 && data[m + 3] == 0x61)
  {
    hide Sum, Cut;
    SumOfCounts(data, encoding, Positions(encoding));
    assert CountsOf(data, encoding)[..Positions(encoding)] == CountsOf(data, encoding);
    var m := MagicStart(data, encoding);
    assert data[m..m + 4] == [data[m], data[m + 1], data[m + 2], data[m + 3]];
  }
}

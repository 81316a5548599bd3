/** The layout of a command-type binary: a name, the number of cycles of each table position,
    the cycles, the items, a magic word, and the key codes behind it. */
module TvParse {
  import opened Words
  import opened Sequences
  import opened TvProtocol

  const NAME_SIZE: nat := 20
  const CYCLE_SIZE: nat := 5
  const ITEM_SIZE: nat := 4
  const MAGIC: seq<u8> := [0x69, 0x72, 0x64, 0x61] // "irda"

  // ---- records --------------------------------------------------------------------------------

  function CycleBytes(c: Cycle): seq<u8> {
    [c.flag, c.mask % 0x100, c.mask / 0x100, c.space % 0x100, c.space / 0x100]
  }

  function ItemBytes(i: Item): seq<u8> {
    [i.bits, i.lsb, i.mode, i.index]
  }

  function CycleAt(data: seq<u8>, at: nat): Cycle
    requires at + CYCLE_SIZE <= |data|
  {
    Cycle(data[at], Word(data, at + 1), Word(data, at + 3))
  }

  function ItemAt(data: seq<u8>, at: nat): Item
    requires at + ITEM_SIZE <= |data|
  {
    Item(data[at], data[at + 1], data[at + 2], data[at + 3])
  }

  function PrintCycles(cs: seq<Cycle>): (bytes: seq<u8>)
    ensures |bytes| == CYCLE_SIZE * |cs|
  {
    if cs == [] then [] else PrintCycles(cs[..|cs| - 1]) + CycleBytes(cs[|cs| - 1])
  }

  function PrintItems(items: seq<Item>): (bytes: seq<u8>)
    ensures |bytes| == ITEM_SIZE * |items|
  {
    if items == [] then [] else PrintItems(items[..|items| - 1]) + ItemBytes(items[|items| - 1])
  }

  function CyclesAt(data: seq<u8>, at: nat, n: nat): (cs: seq<Cycle>)
    requires at + CYCLE_SIZE * n <= |data|
    ensures |cs| == n
  {
    seq(n, i requires 0 <= i < n => CycleAt(data, at + CYCLE_SIZE * i))
  }

  function ItemsAt(data: seq<u8>, at: nat, n: nat): (items: seq<Item>)
    requires at + ITEM_SIZE * n <= |data|
    ensures |items| == n
  {
    seq(n, i requires 0 <= i < n => ItemAt(data, at + ITEM_SIZE * i))
  }

  lemma CycleBytesReadBack(data: seq<u8>, at: nat, c: Cycle)
    requires at + CYCLE_SIZE <= |data|
    ensures CycleAt(data, at) == c <==> data[at..at + CYCLE_SIZE] == CycleBytes(c)
  {
    assert data[at..at + CYCLE_SIZE] == [data[at], data[at + 1], data[at + 2], data[at + 3], data[at + 4]];
  }

  /** The records at a place are cs exactly when the bytes there are the ones of cs. */
  lemma {:induction false} CyclesReadBack(data: seq<u8>, at: nat, cs: seq<Cycle>)
    requires at + CYCLE_SIZE * |cs| <= |data|
    ensures CyclesAt(data, at, |cs|) == cs <==> data[at..at + CYCLE_SIZE * |cs|] == PrintCycles(cs)
  {
    hide CycleAt, CycleBytes;
    if cs != [] {
      var k := |cs| - 1;
      var init, mid := cs[..k], at + CYCLE_SIZE * k;
      CyclesReadBack(data, at, init);
      CycleBytesReadBack(data, mid, cs[k]);
      assert CyclesAt(data, at, |cs|) == CyclesAt(data, at, k) + [CycleAt(data, mid)];
      assert data[at..mid + CYCLE_SIZE] == data[at..mid] + data[mid..mid + CYCLE_SIZE];
      hide CyclesAt;
      LastApart(CyclesAt(data, at, k), CycleAt(data, mid), init, cs[k]);
      HalvesApart(data[at..mid], data[mid..mid + CYCLE_SIZE], PrintCycles(init), CycleBytes(cs[k]));
      assert cs == init + [cs[k]];
    }
  }

  lemma {:induction false} ItemsReadBack(data: seq<u8>, at: nat, items: seq<Item>)
    requires at + ITEM_SIZE * |items| <= |data|
    ensures ItemsAt(data, at, |items|) == items <==> data[at..at + ITEM_SIZE * |items|] == PrintItems(items)
  {
    if items != [] {
      var k := |items| - 1;
      var init, mid := items[..k], at + ITEM_SIZE * k;
      ItemsReadBack(data, at, init);
      assert ItemAt(data, mid) == items[k] <==> data[mid..mid + ITEM_SIZE] == ItemBytes(items[k]) by {
        assert data[mid..mid + ITEM_SIZE] == [data[mid], data[mid + 1], data[mid + 2], data[mid + 3]];
      }
      assert ItemsAt(data, at, |items|) == ItemsAt(data, at, k) + [ItemAt(data, mid)];
      assert data[at..mid + ITEM_SIZE] == data[at..mid] + data[mid..mid + ITEM_SIZE];
      hide ItemsAt, ItemAt, ItemBytes;
      LastApart(ItemsAt(data, at, k), ItemAt(data, mid), init, items[k]);
      HalvesApart(data[at..mid], data[mid..mid + ITEM_SIZE], PrintItems(init), ItemBytes(items[k]));
      assert items == init + [items[k]];
    }
  }

  lemma LastApart<T>(a: seq<T>, x: T, b: seq<T>, y: T)
    ensures a + [x] == b + [y] <==> a == b && x == y
  {
    if a + [x] == b + [y] {
      assert (a + [x])[|a|] == x && (b + [y])[|b|] == y;
      assert (a + [x])[..|a|] == a && (b + [y])[..|b|] == b;
    }
  }

  lemma HalvesApart<T>(a: seq<T>, b: seq<T>, c: seq<T>, d: seq<T>)
    requires |a| == |c|
    ensures a + b == c + d <==> a == c && b == d
  {
    if a + b == c + d {
      assert (a + b)[..|a|] == a && (c + d)[..|c|] == c;
      assert (a + b)[|a|..] == b && (c + d)[|c|..] == d;
    }
  }

  // ---- the cycles of each table position ---------------------------------------------------------

  function Sum(counts: seq<u8>): nat {
    if counts == [] then 0 else Sum(counts[..|counts| - 1]) + counts[|counts| - 1]
  }

  /** A run of cycles cut into one piece for each position. */
  function Cut(flat: seq<Cycle>, counts: seq<u8>): (table: seq<seq<Cycle>>)
    requires Sum(counts) <= |flat|
    ensures |table| == |counts|
  {
    if counts == [] then [] else
      var init := counts[..|counts| - 1];
      Cut(flat, init) + [flat[Sum(init)..Sum(counts)]]
  }

  predicate Countable(table: seq<seq<Cycle>>) {
    forall i :: 0 <= i < |table| ==> |table[i]| < 0x100
  }

  function Counts(table: seq<seq<Cycle>>): (counts: seq<u8>)
    requires Countable(table)
    ensures |counts| == |table|
  {
    seq(|table|, i requires 0 <= i < |table| => |table[i]|)
  }

  /** Cutting by the counts undoes joining, also when more follows. */
  lemma {:induction false} FlattenedCuts(table: seq<seq<Cycle>>, more: seq<Cycle>)
    requires Countable(table)
    ensures Sum(Counts(table)) == |Flatten(table)|
    ensures Cut(Flatten(table) + more, Counts(table)) == table
  {
    if table != [] {
      var k := |table| - 1;
      var init, last, counts := table[..k], table[k], Counts(table);
      FlattenedCuts(init, last + more);
      assert counts[..k] == Counts(init) && counts[k] == |last|;
      var front := Flatten(init);
      assert Flatten(table) == front + last;
      assert (front + last) + more == front + (last + more);
      hide Sum, Cut, Flatten, Counts;
      SumStep(counts);
      CutStep(front + (last + more), counts);
      Middle(front, last, more);
      assert table == init + [last];
    }
  }

  lemma CutStep(flat: seq<Cycle>, counts: seq<u8>)
    requires counts != [] && Sum(counts) <= |flat|
    ensures var init := counts[..|counts| - 1];
      && Sum(counts) == Sum(init) + counts[|counts| - 1]
      && Cut(flat, counts) == Cut(flat, init) + [flat[Sum(init)..Sum(counts)]]
  {
  }

  lemma SumStep(counts: seq<u8>)
    requires counts != []
    ensures Sum(counts) == Sum(counts[..|counts| - 1]) + counts[|counts| - 1]
  {
  }

  lemma Middle<T>(a: seq<T>, b: seq<T>, c: seq<T>)
    ensures (a + (b + c))[|a|..|a| + |b|] == b
  {
  }

  lemma {:induction false} CutCounts(flat: seq<Cycle>, counts: seq<u8>)
    requires Sum(counts) <= |flat|
    ensures Countable(Cut(flat, counts)) && Counts(Cut(flat, counts)) == counts
  {
    if counts != [] {
      var k := |counts| - 1;
      CutCounts(flat, counts[..k]);
      hide Sum;
      forall i | 0 <= i < k ensures |Cut(flat, counts)[i]| == counts[i] {
        assert Cut(flat, counts)[i] == Cut(flat, counts[..k])[i];
        assert Counts(Cut(flat, counts[..k]))[i] == counts[..k][i];
      }
      assert |Cut(flat, counts)[k]| == counts[k];
    }
  }

  /** Joining undoes cutting: no cycle is lost, repeated or moved. */
  lemma {:induction false} CutJoins(flat: seq<Cycle>, counts: seq<u8>)
    requires Sum(counts) <= |flat|
    ensures Flatten(Cut(flat, counts)) == flat[..Sum(counts)]
  {
    if counts != [] {
      var k := |counts| - 1;
      var init := counts[..k];
      CutJoins(flat, init);
      assert Cut(flat, counts)[..k] == Cut(flat, init);
      assert flat[..Sum(counts)] == flat[..Sum(init)] + flat[Sum(init)..Sum(counts)];
    }
  }

  // ---- the layout --------------------------------------------------------------------------------

  /** Encodings 0 and 1 differ in the number of table positions; there are no others. */
  function Positions(encoding: nat): nat {
    if encoding == 0 then 8 else 20
  }

  /** Bits a digit carries. */
  function DigitWidth(encoding: nat, counts: seq<u8>): nat
    requires |counts| == Positions(encoding)
  {
    if encoding != 0 then 4 else if counts[TWO] == 0 && counts[THREE] == 0 then 1 else 2
  }

  function CyclesStart(encoding: nat): nat {
    NAME_SIZE + Positions(encoding)
  }

  function CountsOf(data: seq<u8>, encoding: nat): (counts: seq<u8>)
    requires CyclesStart(encoding) <= |data|
    ensures |counts| == Positions(encoding)
  {
    data[NAME_SIZE..CyclesStart(encoding)]
  }

  function ItemsStart(data: seq<u8>, encoding: nat): nat
    requires CyclesStart(encoding) <= |data|
  {
    CyclesStart(encoding) + CYCLE_SIZE * Sum(CountsOf(data, encoding)) + 1
  }

  function MagicStart(data: seq<u8>, encoding: nat): nat
    requires CyclesStart(encoding) <= |data| && ItemsStart(data, encoding) <= |data|
  {
    ItemsStart(data, encoding) + ITEM_SIZE * data[ItemsStart(data, encoding) - 1] as int
  }

  /** All that the tables announce is there, and the number of cycles fits its byte. */
  predicate Readable(data: seq<u8>, encoding: nat) {
    && CyclesStart(encoding) <= |data| && Sum(CountsOf(data, encoding)) < 0x100
    && ItemsStart(data, encoding) <= |data| && MagicStart(data, encoding) + |MAGIC| < |data|
  }

  predicate HasMagic(data: seq<u8>, encoding: nat)
    requires Readable(data, encoding)
  {
    var at := MagicStart(data, encoding);
    data[at..at + |MAGIC|] == MAGIC
  }

  function ReadTables(data: seq<u8>, encoding: nat): Tables
    requires Readable(data, encoding)
  {
    var counts, from := CountsOf(data, encoding), ItemsStart(data, encoding);
    Tables(Cut(CyclesAt(data, CyclesStart(encoding), Sum(counts)), counts),
           DigitWidth(encoding, counts),
           ItemsAt(data, from, data[from - 1]),
           data[MagicStart(data, encoding) + |MAGIC|..])
  }

  // ---- printing ----------------------------------------------------------------------------------

  predicate Printable(t: Tables, encoding: nat) {
    && Countable(t.cycles) && |t.cycles| == Positions(encoding) && Sum(Counts(t.cycles)) < 0x100
    && t.width == DigitWidth(encoding, Counts(t.cycles))
    && |t.items| < 0x100 && t.keys != []
  }

  function Print(t: Tables, encoding: nat): seq<u8>
    requires Printable(t, encoding)
  {
    Counts(t.cycles) + (PrintCycles(Flatten(t.cycles)) + ([|t.items| as u8] + (PrintItems(t.items) + (MAGIC + t.keys))))
  }

  predicate Holds(data: seq<u8>, at: nat, part: seq<u8>) {
    at + |part| <= |data| && data[at..at + |part|] == part
  }

  lemma Chop(data: seq<u8>, at: nat, part: seq<u8>, rest: seq<u8>)
    requires at <= |data|
    ensures data[at..] == part + rest <==> Holds(data, at, part) && data[at + |part|..] == rest
  {
    if data[at..] == part + rest {
      assert data[at..][..|part|] == part && data[at..][|part|..] == rest;
    } else if at + |part| <= |data| {
      assert data[at..] == data[at..at + |part|] + data[at + |part|..];
    }
  }

  /** The parts of a printed layout, each where the ones before it end. */
  lemma PrintedParts(data: seq<u8>, t: Tables, encoding: nat)
    requires Printable(t, encoding) && NAME_SIZE <= |data|
    ensures var cycles := PrintCycles(Flatten(t.cycles));
      var a := CyclesStart(encoding);
      var b := a + |cycles| + 1;
      var c := b + |PrintItems(t.items)|;
      data[NAME_SIZE..] == Print(t, encoding) <==>
        Holds(data, NAME_SIZE, Counts(t.cycles)) && Holds(data, a, cycles) && Holds(data, b - 1, [|t.items| as u8])
        && Holds(data, b, PrintItems(t.items)) && Holds(data, c, MAGIC) && data[c + |MAGIC|..] == t.keys
  {
    hide Holds, PrintCycles, PrintItems, Flatten, Sum, DigitWidth;
    FiveParts(data, NAME_SIZE, Counts(t.cycles), PrintCycles(Flatten(t.cycles)), [|t.items| as u8],
      PrintItems(t.items), t.keys);
  }

  lemma FiveParts(data: seq<u8>, at: nat, counts: seq<u8>, cycles: seq<u8>, n: seq<u8>, items: seq<u8>, keys: seq<u8>)
    requires at <= |data|
    ensures var a := at + |counts|;
      var b := a + |cycles| + |n|;
      var c := b + |items|;
      data[at..] == counts + (cycles + (n + (items + (MAGIC + keys)))) <==>
        Holds(data, at, counts) && Holds(data, a, cycles) && Holds(data, b - |n|, n)
        && Holds(data, b, items) && Holds(data, c, MAGIC) && data[c + |MAGIC|..] == keys
  {
    var a := at + |counts|;
    var b := a + |cycles| + |n|;
    var c := b + |items|;
    hide Holds;
    Chop(data, at, counts, cycles + (n + (items + (MAGIC + keys))));
    if Holds(data, at, counts) {
      HoldsFits(data, at, counts);
      Chop(data, a, cycles, n + (items + (MAGIC + keys)));
      if Holds(data, a, cycles) {
        HoldsFits(data, a, cycles);
        Chop(data, b - |n|, n, items + (MAGIC + keys));
        if Holds(data, b - |n|, n) {
          HoldsFits(data, b - |n|, n);
          Chop(data, b, items, MAGIC + keys);
          if Holds(data, b, items) {
            HoldsFits(data, b, items);
            Chop(data, c, MAGIC, keys);
          }
        }
      }
    }
  }

  lemma HoldsFits(data: seq<u8>, at: nat, part: seq<u8>)
    requires Holds(data, at, part)
    ensures at + |part| <= |data|
  {
  }

  /** The counts read are the ones of the tables, so the tables begin where they say. */
  lemma CyclesAgree(data: seq<u8>, t: Tables, encoding: nat)
    requires CyclesStart(encoding) <= |data| && Countable(t.cycles)
    requires CountsOf(data, encoding) == Counts(t.cycles)
    requires CyclesStart(encoding) + CYCLE_SIZE * Sum(CountsOf(data, encoding)) <= |data|
    ensures Sum(Counts(t.cycles)) == |Flatten(t.cycles)|
    ensures Cut(CyclesAt(data, CyclesStart(encoding), |Flatten(t.cycles)|), Counts(t.cycles)) == t.cycles
      <==> Holds(data, CyclesStart(encoding), PrintCycles(Flatten(t.cycles)))
  {
    var flat := Flatten(t.cycles);
    FlattenedCuts(t.cycles, []);
    assert flat + [] == flat;
    hide Sum, Cut, Counts, Flatten, CyclesAt, PrintCycles;
    var read := CyclesAt(data, CyclesStart(encoding), |flat|);
    CutJoins(read, Counts(t.cycles));
    assert read[..|flat|] == read;
    CyclesReadBack(data, CyclesStart(encoding), flat);
  }

  lemma SingleByte(data: seq<u8>, at: nat, b: u8)
    ensures Holds(data, at, [b]) <==> at < |data| && data[at] == b
  {
    if at < |data| {
      assert data[at..at + 1] == [data[at]];
    }
  }

  lemma PrintedReads(data: seq<u8>, t: Tables, encoding: nat)
    requires NAME_SIZE <= |data| && Printable(t, encoding) && data[NAME_SIZE..] == Print(t, encoding)
    ensures Readable(data, encoding) && HasMagic(data, encoding) && ReadTables(data, encoding) == t
  {
    hide Print, PrintCycles, PrintItems, Flatten, Sum, Cut, Counts, CyclesAt, ItemsAt, DigitWidth;
    PrintedParts(data, t, encoding);
    assert CountsOf(data, encoding) == Counts(t.cycles);
    FlattenedCuts(t.cycles, []);
    CyclesAgree(data, t, encoding);
    SingleByte(data, ItemsStart(data, encoding) - 1, |t.items|);
    ItemsReadBack(data, ItemsStart(data, encoding), t.items);
  }

  lemma ReadPrints(data: seq<u8>, t: Tables, encoding: nat)
    requires NAME_SIZE <= |data| && Printable(t, encoding)
    requires Readable(data, encoding) && HasMagic(data, encoding) && ReadTables(data, encoding) == t
    ensures data[NAME_SIZE..] == Print(t, encoding)
  {
    hide Print, PrintCycles, PrintItems, Flatten, Sum, Cut, Counts, CyclesAt, ItemsAt, DigitWidth;
    PrintedParts(data, t, encoding);
    ReadIsPrintable(data, encoding);
    CyclesAgree(data, t, encoding);
    SingleByte(data, ItemsStart(data, encoding) - 1, |t.items|);
    ItemsReadBack(data, ItemsStart(data, encoding), t.items);
  }

  /** Printing and reading are inverse: a binary, past its name, is the printed form of
      tables exactly when it reads, with its magic word, as those tables. */
  lemma PrintedIffRead(data: seq<u8>, t: Tables, encoding: nat)
    requires NAME_SIZE <= |data| && Printable(t, encoding)
    ensures data[NAME_SIZE..] == Print(t, encoding) <==>
      Readable(data, encoding) && HasMagic(data, encoding) && ReadTables(data, encoding) == t
  {
    hide Print, Printable, Readable, HasMagic, ReadTables;
    if data[NAME_SIZE..] == Print(t, encoding) {
      PrintedReads(data, t, encoding);
    } else if Readable(data, encoding) && HasMagic(data, encoding) && ReadTables(data, encoding) == t {
      ReadPrints(data, t, encoding);
    }
  }

  /** What reads can be printed. */
  lemma ReadIsPrintable(data: seq<u8>, encoding: nat)
    requires Readable(data, encoding)
    ensures Printable(ReadTables(data, encoding), encoding)
    ensures Counts(ReadTables(data, encoding).cycles) == CountsOf(data, encoding)
  {
    hide CyclesAt, ItemsAt, Counts, Sum, Cut;
    CutCounts(CyclesAt(data, CyclesStart(encoding), Sum(CountsOf(data, encoding))), CountsOf(data, encoding));
  }

  /** The tables read are ones the decoder can play, if their items name positions that exist. */
  lemma ReadIsProtocol(data: seq<u8>, encoding: nat)
    requires Readable(data, encoding)
    ensures var t := ReadTables(data, encoding);
      t.Valid() <==> forall i :: 0 <= i < |t.items| ==> t.items[i].index < |t.cycles| && t.items[i].bits <= 32
  {
    hide CyclesAt, ItemsAt, Sum, Cut;
    ReadIsPrintable(data, encoding);
    var t := ReadTables(data, encoding);
    assert |t.cycles[TWO]| == CountsOf(data, encoding)[TWO] && |t.cycles[THREE]| == CountsOf(data, encoding)[THREE] by {
      assert Counts(t.cycles) == CountsOf(data, encoding);
    }
  }

  // ---- the reader ----------------------------------------------------------------------------------

  /** The file buffer and the tables last read from it. */
  class Reader {
    var data: seq<u8>
    var offset: nat
    var cyclesNum: seq<u8>
    var cyclesData: seq<seq<Cycle>>
    var digitWidth: nat
    var items: seq<Item>
    var keys: seq<u8>
    var toggle: bool

    constructor (binary: seq<u8>)
      ensures data == binary
    {
      data := binary;
      offset, cyclesNum, cyclesData, digitWidth, items, keys, toggle := 0, [], [], 0, [], [], false;
    }

    /** Finds the cycles of each position, one position after the other; the running sum is
        a byte. */
    method LocateCycles(start: nat) returns (sum: nat)
      requires Sum(cyclesNum) < 0x100 && start + CYCLE_SIZE * Sum(cyclesNum) <= |data|
      modifies this`cyclesData
      ensures sum == Sum(cyclesNum)
      ensures cyclesData == Cut(CyclesAt(data, start, sum), cyclesNum)
    {
      hide Sum, Cut, CyclesAt;
      sum := 0;
      cyclesData := [];
      ghost var flat := CyclesAt(data, start, Sum(cyclesNum));
      assert cyclesNum[..0] == [];
      NoCounts(flat);
      for i := 0 to |cyclesNum|
        invariant sum == Sum(cyclesNum[..i]) <= Sum(cyclesNum)
        invariant cyclesData == Cut(flat, cyclesNum[..i])
      {
        SumGrows(cyclesNum, i);
        NextCut(data, start, cyclesNum, i);
        var piece := if cyclesNum[i] != 0 then CyclesAt(data, start + CYCLE_SIZE * sum, cyclesNum[i]) else [];
        cyclesData := cyclesData + [piece];
        sum := (sum + cyclesNum[i]) % 0x100;
      }
      assert cyclesNum[..|cyclesNum|] == cyclesNum;
    }

    method GetIrProtocol(encoding: nat) returns (ok: bool)
      requires encoding < 2 ==> Readable(data, encoding)
      modifies this`offset, this`cyclesNum, this`cyclesData, this`digitWidth, this`items, this`toggle
      ensures ok <==> encoding < 2
      ensures ok ==>
        var t := ReadTables(data, encoding);
        cyclesData == t.cycles && digitWidth == t.width && items == t.items && !toggle
        && offset == MagicStart(data, encoding)
    {
      hide Sum, Cut, CyclesAt, ItemsAt, HasMagic;
      offset := NAME_SIZE;
      if encoding >= 2 {
        return false;
      }
      cyclesNum := data[offset..offset + Positions(encoding)];
      digitWidth := if encoding != 0 then 4 else if cyclesNum[TWO] == 0 && cyclesNum[THREE] == 0 then 1 else 2;
      offset := offset + Positions(encoding);
      assert cyclesNum == CountsOf(data, encoding);
      var sum := LocateCycles(offset);
      offset := offset + CYCLE_SIZE * sum + 1;
      var count := data[offset - 1];
      items := ItemsAt(data, offset, count);
      offset := offset + ITEM_SIZE * count;
      toggle := false;
      return true;
    }

    method GetIrKeymap() returns (ok: bool)
      requires offset + |MAGIC| < |data|
      modifies this`offset, this`keys
      ensures ok <==> data[old(offset)..old(offset) + |MAGIC|] == MAGIC
      ensures keys == if ok then data[old(offset) + |MAGIC|..] else old(keys)
    {
      var magic := offset;
      offset := offset + |MAGIC| + 1;
      ok := data[magic..magic + |MAGIC|] == MAGIC;
      if ok {
        keys := data[offset - 1..];
      }
    }

    /** Reads the tables of the binary; fails for another encoding or without the magic word. */
    method TvLibParse(encoding: nat) returns (ok: bool)
      requires encoding < 2 ==> Readable(data, encoding)
      modifies this`offset, this`cyclesNum, this`cyclesData, this`digitWidth, this`items, this`toggle, this`keys
      ensures ok <==> encoding < 2 && HasMagic(data, encoding)
      ensures ok ==> Tables(cyclesData, digitWidth, items, keys) == ReadTables(data, encoding) && !toggle
    {
      hide Sum, Cut, CyclesAt, ItemsAt, DigitWidth;
      ok := GetIrProtocol(encoding);
      if ok {
        ok := GetIrKeymap();
      }
    }
  }

  lemma NoCounts(flat: seq<Cycle>)
    ensures Sum([]) == 0 && Cut(flat, []) == []
  {
  }

  lemma SumGrows(counts: seq<u8>, i: nat)
    requires i < |counts|
    ensures Sum(counts[..i + 1]) == Sum(counts[..i]) + counts[i]
    ensures Sum(counts[..i + 1]) <= Sum(counts)
    decreases |counts| - i
  {
    assert counts[..i + 1][..i] == counts[..i];
    if i + 1 < |counts| {
      SumGrows(counts, i + 1);
    } else {
      assert counts[..i + 1] == counts;
    }
  }

  /** The next piece, read where the ones before it end. */
  lemma NextCut(data: seq<u8>, start: nat, counts: seq<u8>, i: nat)
    requires start + CYCLE_SIZE * Sum(counts) <= |data| && i < |counts|
    requires Sum(counts[..i + 1]) == Sum(counts[..i]) + counts[i] <= Sum(counts)
    ensures var flat := CyclesAt(data, start, Sum(counts));
      Cut(flat, counts[..i + 1])
      == Cut(flat, counts[..i]) + [CyclesAt(data, start + CYCLE_SIZE * Sum(counts[..i]), counts[i])]
  {
    hide Sum, Cut, CyclesAt;
    var flat, done := CyclesAt(data, start, Sum(counts)), counts[..i + 1];
    assert done[..|done| - 1] == counts[..i] && done[|done| - 1] == counts[i];
    CutStep(flat, done);
    CyclesBetween(data, start, Sum(counts), Sum(counts[..i]), counts[i]);
  }

  lemma CyclesBetween(data: seq<u8>, start: nat, n: nat, from: nat, len: nat)
    requires start + CYCLE_SIZE * n <= |data| && from + len <= n
    ensures CyclesAt(data, start, n)[from..from + len] == CyclesAt(data, start + CYCLE_SIZE * from, len)
  {
    hide CycleAt;
  }
}

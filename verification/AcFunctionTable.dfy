/** Reading the function tables: entries that name the function they are for. */
module AcFunctionTable {
  import opened AcBits
  import opened AcParse
  import opened AcProtocol
  import opened AcTable

  const SLOTS: nat := FUNCTION_MAX - 1

  /** The patches a function adds. */
  datatype Entry = Entry(id: byte, patches: seq<byte>)

  // ---- the entries in the data --------------------------------------------------------------------

  /** An entry is a length, the function, and one patch byte less than the length; with length 0
      the function still follows. */
  function EntryEnd(data: seq<byte>, off: nat): nat
    requires off < |data|
  {
    if Num(data[off]) == 0 then off + 2 else off + 1 + Num(data[off])
  }

  function EntryAt(data: seq<byte>, off: nat): Entry
    requires off < |data| && off + 2 <= EntryEnd(data, off) <= |data|
  {
    Entry(data[off + 1], data[off + 2..EntryEnd(data, off)])
  }

  /** Up to k entries from `off` on, all inside the data, none for a function just behind the
      last slot. */
  predicate WellFormedEntries(data: seq<byte>, off: nat, k: nat)
    decreases k
  {
    k == 0 || (
      && off < |data| && off + 2 <= EntryEnd(data, off) <= |data| && Num(data[off + 1]) != SLOTS + 1
      && (EntryEnd(data, off) < |data| ==> WellFormedEntries(data, EntryEnd(data, off), k - 1)))
  }

  function Entries(data: seq<byte>, off: nat, k: nat): seq<Entry>
    requires WellFormedEntries(data, off, k)
    decreases k
  {
    if k == 0 then [] else
      var end := EntryEnd(data, off);
      [EntryAt(data, off)] + (if end >= |data| then [] else Entries(data, end, k - 1))
  }

  // ---- the table they fill ------------------------------------------------------------------------

  /** The entry's function has a slot. */
  predicate Supported(e: Entry) {
    1 <= Num(e.id) <= SLOTS
  }

  function Fill(comps: seq<seq<byte>>, e: Entry): (r: seq<seq<byte>>)
    requires |comps| == SLOTS
    ensures |r| == SLOTS
  {
    if Supported(e) then comps[Num(e.id) - 1 := e.patches] else comps
  }

  function FillAll(comps: seq<seq<byte>>, es: seq<Entry>): (r: seq<seq<byte>>)
    requires |comps| == SLOTS
    ensures |r| == SLOTS
  {
    if es == [] then comps else Fill(FillAll(comps, es[..|es| - 1]), es[|es| - 1])
  }

  /** Of the entries for a function the last one counts; without any the slot stays. */
  lemma {:induction false} LastEntryCounts(comps: seq<seq<byte>>, es: seq<Entry>, i: nat, slot: nat)
    requires |comps| == SLOTS && slot < SLOTS && i <= |es|
    requires i < |es| ==> Num(es[i].id) == slot + 1
    requires forall j :: 0 <= j < |es| && (j > i || i == |es|) ==> Num(es[j].id) != slot + 1
    ensures FillAll(comps, es)[slot] == if i < |es| then es[i].patches else comps[slot]
    decreases |es|
  {
    hide Num;
    if es != [] {
      var m := |es| - 1;
      if i != m {
        LastEntryCounts(comps, es[..m], if i < m then i else m, slot);
      }
    }
  }

  // ---- the parser ---------------------------------------------------------------------------------

  lemma NextEntry(data: seq<byte>, off: nat, k: nat)
    requires k > 0 && WellFormedEntries(data, off, k)
    ensures off < |data| && off + 2 <= EntryEnd(data, off) <= |data| && Num(data[off + 1]) != SLOTS + 1
    ensures var end := EntryEnd(data, off);
      if end < |data| then
        WellFormedEntries(data, end, k - 1) && Entries(data, off, k) == [EntryAt(data, off)] + Entries(data, end, k - 1)
      else Entries(data, off, k) == [EntryAt(data, off)]
  {
    hide Num;
  }

  /** The id, less one, in a byte: the slots are the small results. */
  lemma SlotOfId(id: nat)
    requires id < 256 && id != SLOTS + 1
    ensures var slot := (id + 255) % 256;
      && (1 <= id <= SLOTS <==> slot <= FUNCTION_MAX - 1)
      && (1 <= id ==> slot == id - 1)
  {
  }

  method ParseFunction(data: seq<byte>, off: nat, comps: array<seq<byte>>) returns (next: nat)
    requires comps.Length == SLOTS
    requires off < |data| && off + 2 <= EntryEnd(data, off) <= |data| && Num(data[off + 1]) != SLOTS + 1
    modifies comps
    ensures next == EntryEnd(data, off)
    ensures comps[..] == Fill(old(comps[..]), EntryAt(data, off))
  {
    hide Num;
    NumIsByte(data[off + 1]);
    var segLen := Num(data[off]);
    var functionId := (Num(data[off + 1]) + 255) % 256;
    SlotOfId(Num(data[off + 1]));
    assert Supported(EntryAt(data, off)) <==> functionId <= FUNCTION_MAX - 1;
    var valid := functionId <= FUNCTION_MAX - 1;
    next := off + 2;
    assert segLen == 0 ==> EntryAt(data, off).patches == [];
    if segLen == 0 {
      if valid {
        comps[functionId] := [];
      }
      return;
    }
    if valid {
      comps[functionId] := data[next..next + (segLen - 1)];
    }
    next := next + segLen - 1;
  }

  predicate EntriesComplete(text: string) {
    text != [] ==> WellFormedEntries(ReadHex(text), 0, SLOTS)
  }

  /** The table read from a text: its length, as a byte, and a slot for each function. */
  function FunctionTable(text: string): Table
    requires EntriesComplete(text)
  {
    if text == [] then ABSENT
    else Table(|ReadHex(text)| % 256, FillAll(Padded([], SLOTS), Entries(ReadHex(text), 0, SLOTS)))
  }

  /** Reads the entries of a function table, as many as there are functions. */
  method ParseFunctionTable(text: string) returns (t: Table)
    requires EntriesComplete(text)
    ensures t == FunctionTable(text)
  {
    hide Num, ReadHex, Fill, EntryAt, EntryEnd, WellFormedEntries, Entries, FillAll;
    if text == [] {
      return ABSENT;
    }
    var hexLen := |text| / 2;
    var hexData := new byte[hexLen];
    StringToHexCommon(text, hexData, hexLen);
    var data := hexData[..];
    assert data == ReadHex(text) by { EvenPart(text); assert data == hexData[..hexLen]; }
    var comps := new seq<byte>[SLOTS](_ => []);
    assert comps[..] == Padded([], SLOTS);
    FillFunctions(data, comps);
    t := Table(hexLen % 256, comps[..]);
  }

  method FillFunctions(data: seq<byte>, comps: array<seq<byte>>)
    requires comps.Length == SLOTS && WellFormedEntries(data, 0, SLOTS)
    modifies comps
    ensures comps[..] == FillAll(old(comps[..]), Entries(data, 0, SLOTS))
  {
    hide Num, Fill, EntryAt, EntryEnd, WellFormedEntries, Entries, FillAll;
    ghost var was, all, read := comps[..], Entries(data, 0, SLOTS), [];
    FillNone(was);
    var off: nat, index := 0, POWER;
    NextEntry(data, off, SLOTS);
    while index < FUNCTION_MAX
      invariant POWER <= index <= FUNCTION_MAX && off < |data|
      invariant WellFormedEntries(data, off, FUNCTION_MAX - index)
      invariant all == read + Entries(data, off, FUNCTION_MAX - index)
      invariant comps[..] == FillAll(was, read)
    {
      NextEntry(data, off, FUNCTION_MAX - index);
      ghost var e := EntryAt(data, off);
      FillNext(was, read, e);
      off := ParseFunction(data, off, comps);
      if off >= |data| {
        assert all == read + [e];
        return;
      }
      assert all == (read + [e]) + Entries(data, off, FUNCTION_MAX - (index + 1));
      read := read + [e];
      index := index + 1;
    }
    NoEntries(data, off);
    assert read + [] == read;
  }

  lemma FillNone(comps: seq<seq<byte>>)
    requires |comps| == SLOTS
    ensures FillAll(comps, []) == comps
  {
  }

  lemma FillNext(comps: seq<seq<byte>>, es: seq<Entry>, e: Entry)
    requires |comps| == SLOTS
    ensures FillAll(comps, es + [e]) == Fill(FillAll(comps, es), e)
  {
    assert (es + [e])[..|es|] == es;
  }

  lemma NoEntries(data: seq<byte>, off: nat)
    ensures WellFormedEntries(data, off, 0) && Entries(data, off, 0) == []
  {
  }

  // ---- printing -----------------------------------------------------------------------------------

  predicate Printable(e: Entry) {
    |e.patches| < 255 && Num(e.id) != SLOTS + 1
  }

  function PrintEntry(e: Entry): seq<byte>
    requires Printable(e)
  {
    [Trunc(|e.patches| + 1), e.id] + e.patches
  }

  function PrintEntries(es: seq<Entry>): seq<byte>
    requires forall i :: 0 <= i < |es| ==> Printable(es[i])
  {
    if es == [] then [] else PrintEntry(es[0]) + PrintEntries(es[1..])
  }

  lemma EntryReadsBack(front: seq<byte>, e: Entry, rest: seq<byte>)
    requires Printable(e)
    ensures var data, off := front + (PrintEntry(e) + rest), |front|;
      && data == (front + PrintEntry(e)) + rest
      && EntryEnd(data, off) == |front + PrintEntry(e)| == off + 2 + |e.patches|
      && EntryAt(data, off) == e && data[off + 1] == e.id
  {
    hide Num, Trunc;
    NumOfTrunc(|e.patches| + 1);
    var data, off := front + (PrintEntry(e) + rest), |front|;
    assert data[off] == Trunc(|e.patches| + 1);
    assert data[off + 2..off + 2 + |e.patches|] == e.patches;
  }

  /** Printed entries are read back, as many as there are functions. */
  lemma {:induction false} EntriesReadBack(front: seq<byte>, es: seq<Entry>, k: nat)
    requires es != [] && forall i :: 0 <= i < |es| ==> Printable(es[i])
    ensures var data := front + PrintEntries(es);
      WellFormedEntries(data, |front|, k) && Entries(data, |front|, k) == es[..Min(k, |es|)]
    decreases k
  {
    hide Num, PrintEntry, EntryEnd, EntryAt;
    if k > 0 {
      var e, rest := es[0], es[1..];
      var more := PrintEntries(rest);
      assert PrintEntries(es) == PrintEntry(e) + more;
      PrintedNothing(rest);
      hide PrintEntries;
      EntryReadsBack(front, e, more);
      if rest != [] {
        EntriesReadBack(front + PrintEntry(e), rest, k - 1);
      }
      assert es[..Min(k, |es|)] == [e] + rest[..Min(k - 1, |rest|)];
    }
  }

  lemma PrintedNothing(es: seq<Entry>)
    requires forall i :: 0 <= i < |es| ==> Printable(es[i])
    ensures PrintEntries(es) == [] <==> es == []
  {
  }

  /** A table printed with one entry a function, in any order, is the table read: the function
      of a printed entry gets that entry's patches, and one without an entry gets none. */
  lemma PrintedSlotIsRead(es: seq<Entry>, i: nat, slot: nat)
    requires i <= |es| <= SLOTS && es != [] && slot < SLOTS
    requires forall j :: 0 <= j < |es| ==> Printable(es[j])
    requires i < |es| ==> Num(es[i].id) == slot + 1
    requires forall j :: 0 <= j < |es| && j != i ==> Num(es[j].id) != slot + 1
    ensures var text := HexOf(PrintEntries(es));
      && WellFormedEntries(ReadHex(text), 0, SLOTS) && text != []
      && |FunctionTable(text).comps| == SLOTS
      && FunctionTable(text).comps[slot] == if i < |es| then es[i].patches else []
  {
    hide Num, ReadHex, HexOf, PrintEntries, WellFormedEntries, Entries, FillAll;
    HexReadsBack(PrintEntries(es));
    PrintedNothing(es);
    EntriesReadBack([], es, SLOTS);
    assert [] + PrintEntries(es) == PrintEntries(es) && es[..|es|] == es;
    LastEntryCounts(Padded([], SLOTS), es, i, slot);
  }

  /** A call with the printed table as its first function table sends the patches of its
      function's entry if and only if the table's length is not a multiple of 256 bytes;
      otherwise the second table decides. */
  lemma PrintedEntryIsChosen(es: seq<Entry>, t2: Table, i: nat, func: nat)
    requires i < |es| <= SLOTS && ValidFunction(func) && Num(es[i].id) == func && es[i].patches != []
    requires forall j :: 0 <= j < |es| ==> Printable(es[j])
    requires forall j :: 0 <= j < |es| && j != i ==> Num(es[j].id) != func
    ensures var text := HexOf(PrintEntries(es));
      && WellFormedEntries(ReadHex(text), 0, SLOTS) && text != []
      && Choose(FunctionTable(text), t2, func - 1)
         == if |PrintEntries(es)| % 256 != 0 then ByBytes(es[i].patches, false) else Choose(ABSENT, t2, func - 1)
  {
    hide Num, ReadHex, HexOf, PrintEntries, WellFormedEntries, Entries, FillAll;
    HexReadsBack(PrintEntries(es));
    PrintedSlotIsRead(es, i, func - 1);
  }
}

/** What a whole table of patches does to the code buffer. */
module AcTables {
  import opened AcBits
  import opened AcFields
  import opened AcApply

  // ---- fields that are set: the last writer of a bit wins -----------------------------------

  predicate Covers(f: Field, p: nat) {
    f.start <= p < f.end
  }

  lemma RefusedCoversNothing(f: Field)
    requires Refused(f)
    ensures f.end <= f.start
  {
  }

  /** An entry that covers a bit is one that patches. */
  lemma CoveringFits(f: Field, size: nat, p: nat)
    requires EntryFits(f, size) && Covers(f, p)
    ensures !Refused(f) && FieldFits(f.start, f.end, size) && p < 8 * size && f.end - 1 - p < 8
  {
    if Refused(f) {
      RefusedCoversNothing(f);
    }
  }

  /** The last entry that writes bit p, or -1. */
  function LastCover(fs: seq<Field>, p: nat): (k: int)
    ensures -1 <= k < |fs| && (k >= 0 ==> Covers(fs[k], p))
    ensures forall j :: k < j < |fs| ==> !Covers(fs[j], p)
  {
    if fs == [] then -1
    else if Covers(fs[|fs| - 1], p) then |fs| - 1
    else LastCover(fs[..|fs| - 1], p)
  }

  lemma SetAllSnoc(buf: seq<byte>, fs: seq<Field>, isTemp: bool)
    requires FieldsFit(fs, |buf|) && fs != []
    ensures var n := |fs| - 1;
      && FieldsFit(fs[..n], |buf|)
      && var was := Bits(SetAll(buf, fs[..n], isTemp));
        Bits(SetAll(buf, fs, isTemp))
        == if Refused(fs[n]) then was else PatchField(was, fs[n].start, fs[n].end, fs[n].raw, isTemp)
  {
    hide Patch2, Bits, PatchField;
    var f := fs[|fs| - 1];
    if Refused(f) {
      return;
    }
    BitsOfPatch2(SetAll(buf, fs[..|fs| - 1], isTemp), f.start, f.end, f.raw, isTemp);
  }

  /** After setting all fields of a table, each bit holds what the last entry covering it
      wrote, and a bit no entry covers is unchanged. */
  lemma {:induction false} LastWriterWins(buf: seq<byte>, fs: seq<Field>, p: nat)
    requires FieldsFit(fs, |buf|) && p < 8 * |buf|
    ensures var k := LastCover(fs, p);
      Bits(SetAll(buf, fs, false))[p]
      == if k < 0 then Bits(buf)[p]
         else (CoveringFits(fs[k], |buf|, p); LowBit(fs[k].raw, fs[k].end - 1 - p))
  {
    hide Bits, LowBit, SetAll;
    if fs == [] {
      SetNone(buf, false);
    } else {
      SetAllSnoc(buf, fs, false);
      if Refused(fs[|fs| - 1]) {
        RefusedCoversNothing(fs[|fs| - 1]);
      }
      LastWriterWins(buf, fs[..|fs| - 1], p);
    }
  }

  // ---- fields that do not overlap: order does not matter ------------------------------------

  predicate Apart(f: Field, g: Field) {
    f.end <= g.start || g.end <= f.start || f.end <= f.start || g.end <= g.start
  }

  predicate AllApart(fs: seq<Field>) {
    forall i, j :: 0 <= i < j < |fs| ==> Apart(fs[i], fs[j])
  }

  /** What an entry writes, from the buffer the table was applied to. */
  function Written(buf: seq<byte>, f: Field, isTemp: bool): byte
    requires FieldFits(f.start, f.end, |buf|)
  {
    if isTemp then Plus(FieldValue(Bits(buf), f.start, f.end), f.raw) else f.raw
  }

  lemma PatchedBit(bs: seq<bool>, f: Field, isTemp: bool, p: nat)
    requires f.start <= f.end <= |bs| && f.end - f.start <= 8 && p < |bs|
    ensures PatchField(bs, f.start, f.end, f.raw, isTemp)[p]
      == if Covers(f, p)
         then LowBit(if isTemp then Plus(FieldValue(bs, f.start, f.end), f.raw) else f.raw, f.end - 1 - p)
         else bs[p]
  {
    hide LowBit, FieldValue, Plus;
  }

  /** A bit after an entry, when the bits of its field are still those of the first buffer. */
  lemma EntryEffect(buf: seq<byte>, fs: seq<Field>, isTemp: bool, p: nat)
    requires FieldsFit(fs, |buf|) && fs != [] && p < 8 * |buf|
    requires var mid, f := SetAll(buf, fs[..|fs| - 1], isTemp), fs[|fs| - 1];
      forall q: nat :: Covers(f, q) && q < 8 * |buf| ==> Bits(mid)[q] == Bits(buf)[q]
    ensures EntryFits(fs[|fs| - 1], |buf|)
    ensures var mid, f := SetAll(buf, fs[..|fs| - 1], isTemp), fs[|fs| - 1];
      Bits(SetAll(buf, fs, isTemp))[p]
      == if Covers(f, p) then (CoveringFits(f, |buf|, p); LowBit(Written(buf, f, isTemp), f.end - 1 - p))
        else Bits(mid)[p]
  {
    hide Bits, LowBit, SetAll, FieldValue, Plus, PatchField, Refused;
    var mid, f := SetAll(buf, fs[..|fs| - 1], isTemp), fs[|fs| - 1];
    assert EntryFits(f, |buf|);
    SetAllSnoc(buf, fs, isTemp);
    hide FieldsFit, SetAll;
    if Refused(f) {
      RefusedCoversNothing(f);
    } else {
      FieldValueFrame(Bits(mid), Bits(buf), f.start, f.end);
      PatchedBit(Bits(mid), f, isTemp, p);
    }
  }

  /** Entries that do not overlap: each bit holds what the one entry covering it writes,
      computed from the buffer the table was applied to; all other bits are unchanged. */
  lemma {:induction false} FieldsApart(buf: seq<byte>, fs: seq<Field>, isTemp: bool, p: nat)
    requires FieldsFit(fs, |buf|) && AllApart(fs) && p < 8 * |buf|
    ensures var k := LastCover(fs, p);
      Bits(SetAll(buf, fs, isTemp))[p]
      == if k < 0 then Bits(buf)[p]
         else (CoveringFits(fs[k], |buf|, p); LowBit(Written(buf, fs[k], isTemp), fs[k].end - 1 - p))
  {
    hide Bits, LowBit, SetAll, Written, EntryFits;
    if fs == [] {
      SetNone(buf, isTemp);
    } else {
      var n := |fs| - 1;
      var init, mid := fs[..n], Bits(SetAll(buf, fs[..n], isTemp));
      forall q: nat | Covers(fs[n], q) && q < 8 * |buf|
        ensures mid[q] == Bits(buf)[q]
      {
        FieldsApart(buf, init, isTemp, q);
        assert LastCover(init, q) >= 0 ==> Apart(fs[LastCover(init, q)], fs[n]);
      }
      FieldsApart(buf, init, isTemp, p);
      EntryEffect(buf, fs, isTemp, p);
    }
  }

  lemma CoverFound(fs: seq<Field>, f: Field, p: nat)
    requires f in fs && Covers(f, p)
    ensures LastCover(fs, p) >= 0
  {
    var m :| 0 <= m < |fs| && fs[m] == f;
  }

  lemma OnlyCover(fs: seq<Field>, k: nat, p: nat)
    requires AllApart(fs) && k < |fs| && Covers(fs[k], p)
    ensures LastCover(fs, p) == k
  {
    var j := LastCover(fs, p);
    assert j != k ==> Apart(fs[k], fs[j]);
  }

  /** Tables with the same entries in another order have the same effect. */
  lemma FieldsCommute(buf: seq<byte>, fs: seq<Field>, gs: seq<Field>, isTemp: bool)
    requires FieldsFit(fs, |buf|) && FieldsFit(gs, |buf|) && AllApart(fs) && AllApart(gs)
    requires forall f :: f in fs <==> f in gs
    ensures SetAll(buf, fs, isTemp) == SetAll(buf, gs, isTemp)
  {
    hide Bits, LowBit, SetAll, Written, EntryFits, LastCover;
    var a, b := Bits(SetAll(buf, fs, isTemp)), Bits(SetAll(buf, gs, isTemp));
    forall p: nat | 0 <= p < 8 * |buf|
      ensures a[p] == b[p]
    {
      FieldsApart(buf, fs, isTemp, p);
      FieldsApart(buf, gs, isTemp, p);
      var k, j := LastCover(fs, p), LastCover(gs, p);
      if j >= 0 {
        CoverFound(fs, gs[j], p);
      }
      if k >= 0 {
        assert fs[k] in gs;
        var m :| 0 <= m < |gs| && gs[m] == fs[k];
        OnlyCover(gs, m, p);
      }
    }
    BitsDetermineBuffer(SetAll(buf, fs, isTemp), SetAll(buf, gs, isTemp));
  }

  /** A bit that entry k covers holds what entry k writes. */
  lemma FieldBit(buf: seq<byte>, fs: seq<Field>, k: nat, isTemp: bool, p: nat)
    requires FieldsFit(fs, |buf|) && AllApart(fs) && k < |fs| && Covers(fs[k], p)
    requires FieldFits(fs[k].start, fs[k].end, |buf|)
    ensures Bits(SetAll(buf, fs, isTemp))[p] == LowBit(Written(buf, fs[k], isTemp), fs[k].end - 1 - p)
  {
    hide Bits, LowBit, SetAll, LastCover, Written;
    OnlyCover(fs, k, p);
    FieldsApart(buf, fs, isTemp, p);
  }

  lemma FieldSet(a: seq<byte>, b: seq<byte>, f: Field, v: byte)
    requires |a| == |b| && FieldFits(f.start, f.end, |b|)
    requires forall p: nat :: Covers(f, p) ==>
      p < 8 * |a| && f.end - 1 - p < 8 && Bits(a)[p] == LowBit(v, f.end - 1 - p)
    ensures FieldValue(Bits(a), f.start, f.end) == LowBits(v, f.end - f.start)
  {
    hide Bits, LowBit, FieldValue, LowBits;
    var written := SetField(Bits(b), f.start, f.end, v);
    forall p | f.start <= p < f.end
      ensures Bits(a)[p] == written[p]
    {
      assert Covers(f, p);
    }
    FieldValueFrame(Bits(a), written, f.start, f.end);
    SetFieldReadsBack(Bits(b), f.start, f.end, v);
  }

  /** A temperature table of fields that do not overlap adds to each field, modulo two to its
      width; an entry that is refused adds nothing. */
  lemma FieldsAdded(buf: seq<byte>, fs: seq<Field>, k: nat)
    requires FieldsFit(fs, |buf|) && AllApart(fs) && k < |fs| && !Refused(fs[k])
    ensures var f := fs[k];
      && FieldFits(f.start, f.end, |buf|)
      && FieldValue(Bits(SetAll(buf, fs, true)), f.start, f.end)
         == LowBits(Plus(FieldValue(Bits(buf), f.start, f.end), f.raw), f.end - f.start)
  {
    hide Bits, LowBit, SetAll, FieldValue, LowBits, Plus, Refused, AllApart;
    var f := fs[k];
    assert EntryFits(f, |buf|);
    UnrefusedFits(f, |buf|);
    forall p: nat | Covers(f, p)
      ensures Bits(SetAll(buf, fs, true))[p] == LowBit(Written(buf, f, true), f.end - 1 - p)
    {
      FieldBit(buf, fs, k, true, p);
    }
    FieldSet(SetAll(buf, fs, true), buf, f, Written(buf, f, true));
  }

  lemma UnrefusedFits(f: Field, size: nat)
    requires EntryFits(f, size) && !Refused(f)
    ensures FieldFits(f.start, f.end, size)
  {
  }

  // ---- bytes --------------------------------------------------------------------------------

  /** The last entry that writes byte i, or -1. */
  function LastPut(puts: seq<Put>, i: nat): (k: int)
    ensures -1 <= k < |puts|
  {
    if puts == [] then -1
    else if puts[|puts| - 1].pos == i then |puts| - 1
    else LastPut(puts[..|puts| - 1], i)
  }

  lemma {:induction false} LastPutWins(buf: seq<byte>, puts: seq<Put>, i: nat)
    requires PutsFit(puts, |buf|) && i < |buf|
    ensures var k := LastPut(puts, i);
      PutAll(buf, puts, false)[i] == if k < 0 then buf[i] else puts[k].value
  {
    if puts != [] {
      LastPutWins(buf, puts[..|puts| - 1], i);
    }
  }

  /** The sum of what a table lists for byte i. */
  function Listed(puts: seq<Put>, i: nat): byte {
    if puts == [] then 0
    else Plus(Listed(puts[..|puts| - 1], i), if puts[|puts| - 1].pos == i then puts[|puts| - 1].value else 0)
  }

  /** A temperature table of bytes adds to each byte everything listed for it, modulo 256. */
  lemma {:induction false} BytesAdded(buf: seq<byte>, puts: seq<Put>, i: nat)
    requires PutsFit(puts, |buf|) && i < |buf|
    ensures PutAll(buf, puts, true)[i] == Plus(buf[i], Listed(puts, i))
  {
    hide Plus;
    if puts == [] {
      PlusLaws(buf[i], 0, 0);
    } else {
      var n := |puts| - 1;
      BytesAdded(buf, puts[..n], i);
      PlusLaws(buf[i], Listed(puts[..n], i), if puts[n].pos == i then puts[n].value else 0);
      PlusLaws(Listed(puts[..n], i), 0, 0);
    }
  }
}

/** The checksum equations as equations of numbers: sums of bytes and of half bytes over the
    integers, cut to a byte at the end. */
module AcChecksumLaws {
  import opened AcBits
  import opened AcChecksum
  import opened AcProtocol
  import opened AcTransmission

  // ---- the sums over the integers --------------------------------------------------------------

  function ByteTotal(buf: seq<byte>, start: nat, end: nat): nat
    requires start < end ==> end <= |buf|
    decreases end
  {
    if start >= end then 0 else ByteTotal(buf, start, end - 1) + Num(buf[end - 1])
  }

  /** Both half bytes of every byte. */
  function HalfTotal(buf: seq<byte>, start: nat, end: nat): nat
    requires start < end ==> end <= |buf|
    decreases end
  {
    if start >= end then 0 else HalfTotal(buf, start, end - 1) + Num(buf[end - 1]) / 16 + Num(buf[end - 1]) % 16
  }

  /** Half byte q: the upper half of byte q / 2 for q even, the lower for q odd. */
  function HalfNumber(buf: seq<byte>, q: nat): nat
    requires q / 2 < |buf|
  {
    if q % 2 == 0 then Num(buf[q / 2]) / 16 else Num(buf[q / 2]) % 16
  }

  function ListTotal(buf: seq<byte>, spec: seq<nat>): nat
    requires forall i :: 0 <= i < |spec| ==> spec[i] / 2 < |buf|
  {
    if spec == [] then 0 else ListTotal(buf, spec[..|spec| - 1]) + HalfNumber(buf, spec[|spec| - 1])
  }

  // ---- the byte sums are these, modulo 256 -------------------------------------------------------

  lemma HalvesAreNumbers(b: byte)
    ensures Num(b >> 4) == Num(b) / 16 && Num(b & 0x0F) == Num(b) % 16
  {
  }

  lemma PlusOfTotals(a: byte, m: nat, b: byte)
    requires Num(a) == m % 256
    ensures Num(Plus(a, b)) == (m + Num(b)) % 256
  {
    hide Num, Plus;
    AddIsModular(a, b);
    CutSum(m, Num(b));
  }

  lemma CutSum(m: nat, n: nat)
    ensures (m % 256 + n) % 256 == (m + n) % 256
  {
    ModInner(n, m);
  }

  lemma NumOfNothing()
    ensures Num(0) == 0
  {
  }

  lemma {:induction false} SumBytesIsTotal(buf: seq<byte>, start: nat, end: nat)
    requires start < end ==> end <= |buf|
    ensures Num(SumBytes(buf, start, end)) == ByteTotal(buf, start, end) % 256
    decreases end
  {
    hide Num, Plus;
    NumOfNothing();
    if start < end {
      SumBytesIsTotal(buf, start, end - 1);
      PlusOfTotals(SumBytes(buf, start, end - 1), ByteTotal(buf, start, end - 1), buf[end - 1]);
    }
  }

  lemma {:induction false} SumHalvesIsTotal(buf: seq<byte>, start: nat, end: nat)
    requires start < end ==> end <= |buf|
    ensures Num(SumHalves(buf, start, end)) == HalfTotal(buf, start, end) % 256
    decreases end
  {
    hide Num, Plus, Half;
    NumOfNothing();
    if start < end {
      SumHalvesIsTotal(buf, start, end - 1);
      HalvesTogether(buf, end - 1);
      PlusOfTotals(SumHalves(buf, start, end - 1), HalfTotal(buf, start, end - 1),
                   Plus(Half(buf, 2 * (end - 1)), Half(buf, 2 * (end - 1) + 1)));
    }
  }

  lemma SmallSum(a: byte, b: byte)
    requires Num(a) < 16 && Num(b) < 16
    ensures Num(Plus(a, b)) == Num(a) + Num(b)
  {
    hide Num, Plus;
    AddIsModular(a, b);
  }

  lemma HalvesTogether(buf: seq<byte>, i: nat)
    requires i < |buf|
    ensures Num(Plus(Half(buf, 2 * i), Half(buf, 2 * i + 1))) == Num(buf[i]) / 16 + Num(buf[i]) % 16
  {
    hide Num, Plus;
    assert Half(buf, 2 * i) == buf[i] >> 4 && Half(buf, 2 * i + 1) == buf[i] & 0x0F;
    hide Half;
    HalvesAreNumbers(buf[i]);
    NumIsByte(buf[i]);
    SmallSum(buf[i] >> 4, buf[i] & 0x0F);
  }

  lemma HalfIsNumber(buf: seq<byte>, q: nat)
    requires q / 2 < |buf|
    ensures Num(Half(buf, q)) == HalfNumber(buf, q)
  {
    hide Num;
    HalvesAreNumbers(buf[q / 2]);
  }

  lemma {:induction false} SumListedIsTotal(buf: seq<byte>, spec: seq<nat>)
    requires forall i :: 0 <= i < |spec| ==> spec[i] < 2 * |buf| && spec[i] / 2 < |buf|
    ensures Num(SumListed(buf, spec)) == ListTotal(buf, spec) % 256
  {
    hide Num, Plus, Half, HalfNumber;
    NumOfNothing();
    if spec != [] {
      var init, q := spec[..|spec| - 1], spec[|spec| - 1];
      SumListedIsTotal(buf, init);
      HalfIsNumber(buf, q);
      PlusOfTotals(SumListed(buf, init), ListTotal(buf, init), Half(buf, q));
    }
  }

  // ---- the equation of a block -------------------------------------------------------------------

  /** The block counts: its kind is known and its text long enough. */
  predicate Counts(b: Block) {
    (1 <= b.kind <= 4 && b.len >= 3) || (5 <= b.kind <= 8 && b.len >= 4)
  }

  /** What the block reads lies inside the code, and what it writes. */
  predicate Inside(b: Block, size: nat) {
    if b.kind <= 4 then b.target < size && (b.start < b.end ==> b.end <= size)
    else b.target / 2 < size && forall i :: 0 <= i < |b.spec| ==> b.spec[i] / 2 < size
  }

  /** Kinds 1 and 2 sum bytes, 3 and 4 half bytes of a range, 5 to 8 the half bytes listed. */
  function Total(buf: seq<byte>, b: Block): nat
    requires Inside(b, |buf|)
  {
    if b.kind <= 2 then ByteTotal(buf, b.start, b.end)
    else if b.kind <= 4 then HalfTotal(buf, b.start, b.end)
    else ListTotal(buf, b.spec)
  }

  /** The sum and the constant in a byte; for the even kinds what is missing to 255. */
  function Wanted(buf: seq<byte>, b: Block): nat
    requires Inside(b, |buf|)
  {
    var sum := (Total(buf, b) + Num(b.plus)) % 256;
    if b.kind % 2 == 1 then sum else 255 - sum
  }

  /** Kinds 5 and 6 are stored in the target's half byte, 7 and 8 in its whole byte; the kinds
      before them in the target byte. */
  predicate Satisfied(buf: seq<byte>, b: Block)
    requires Inside(b, |buf|)
  {
    if b.kind <= 4 then Num(buf[b.target]) == Wanted(buf, b)
    else if b.kind <= 6 then HalfNumber(buf, b.target) == Wanted(buf, b) % 16
    else Num(buf[b.target / 2]) == Wanted(buf, b)
  }

  lemma FitsIsInside(b: Block, size: nat)
    requires b.Fits(size)
    ensures b.Active() <==> Counts(b)
    ensures Counts(b) ==> Inside(b, size)
  {
  }

  lemma ComplementIsRest(x: byte)
    ensures Num(!x) == 255 - Num(x)
  {
  }

  lemma SumIsTotal(buf: seq<byte>, b: Block)
    requires b.Fits(|buf|) && Counts(b)
    ensures b.Active() && Inside(b, |buf|) && Num(Sum(buf, b)) == Total(buf, b) % 256
  {
    hide Num, SumBytes, SumHalves, SumListed, ByteTotal, HalfTotal, ListTotal;
    if b.kind <= 2 {
      SumBytesIsTotal(buf, b.start, b.end);
    } else if b.kind <= 4 {
      SumHalvesIsTotal(buf, b.start, b.end);
    } else {
      SumListedIsTotal(buf, b.spec);
    }
  }

  lemma CodeIsWanted(buf: seq<byte>, b: Block)
    requires b.Fits(|buf|) && Counts(b)
    ensures b.Active() && Inside(b, |buf|) && Num(Code(buf, b)) == Wanted(buf, b)
  {
    hide Num, Plus, Sum, Total, Inside;
    SumIsTotal(buf, b);
    PlusOfTotals(Sum(buf, b), Total(buf, b), b.plus);
    ComplementIsRest(Plus(Sum(buf, b), b.plus));
  }

  /** A block's equation is the one of the numbers. */
  lemma HoldsIsSatisfied(buf: seq<byte>, b: Block)
    requires b.Fits(|buf|) && Counts(b)
    ensures Inside(b, |buf|) && (Holds(buf, b) <==> Satisfied(buf, b))
  {
    hide Num, Half, Code, Wanted, HalfNumber;
    CodeIsWanted(buf, b);
    var t := if b.kind <= 4 then b.target else b.target / 2;
    OrderOfNums(buf[t], Code(buf, b));
    if 5 <= b.kind <= 6 {
      HalfIsNumber(buf, b.target);
      HalvesAreNumbers(Code(buf, b));
      OrderOfNums(Half(buf, b.target), Code(buf, b) & 0x0F);
    }
  }

  /** In the code a call sends, with ordered blocks, the equations of all blocks that count are
      satisfied, all at once. */
  lemma SentChecksumsAreSatisfied(p: Protocol, w: Wind, c: Call, k: nat)
    requires ValidCall(c) && Ordered(p.checksums) && k < |p.checksums| && Counts(p.checksums[k])
    ensures Inside(p.checksums[k], |p.defaultCode|) && Satisfied(SentCode(p, w, c), p.checksums[k])
  {
    hide SentCode, Holds, Satisfied, Inside, Counts;
    SentChecksumsHold(p, w, c, k);
    HoldsIsSatisfied(SentCode(p, w, c), p.checksums[k]);
  }

  // ---- what blocks read and write -------------------------------------------------------------------

  /** A block that counts reads both half bytes of each byte of its range, or those listed, and
      writes its target's half byte for kinds 5 and 6, its byte otherwise. */
  lemma ReadsAndWritesAre(b: Block, q: nat)
    ensures b.Reads(q) <==> Counts(b) && if b.kind <= 4 then b.start <= q / 2 < b.end else q in b.spec
    ensures b.Writes(q) <==>
      Counts(b) && if b.kind <= 4 then q / 2 == b.target
                   else if b.kind <= 6 then q == b.target else q / 2 == b.target / 2
  {
  }
}

/** The eight kinds of checksum block: sums of bytes, of half bytes, or of listed half
    bytes, plus a constant, complemented or not, stored in a byte or in a half byte.
    Half byte n is the upper (n even) or lower (n odd) half of byte n / 2. */
module AcChecksum {
  import opened AcBits

  const BYTE: nat := 1
  const BYTE_INVERSE: nat := 2
  const HALF_BYTE: nat := 3
  const HALF_BYTE_INVERSE: nat := 4
  const SPEC_HALF_BYTE: nat := 5
  const SPEC_HALF_BYTE_INVERSE: nat := 6
  const SPEC_HALF_BYTE_ONE_BYTE: nat := 7
  const SPEC_HALF_BYTE_INVERSE_ONE_BYTE: nat := 8

  /** len counts the bytes of the block's text after its length byte; spec has len - 3
      entries for the kinds that list half bytes. */
  datatype Block = Block(len: nat, kind: nat, start: nat, end: nat, target: nat, plus: byte, spec: seq<nat>) {

    predicate SumsBytes() { kind == BYTE || kind == BYTE_INVERSE }
    predicate SumsHalves() { kind == HALF_BYTE || kind == HALF_BYTE_INVERSE }
    predicate SumsListed() { SPEC_HALF_BYTE <= kind <= SPEC_HALF_BYTE_INVERSE_ONE_BYTE }
    predicate StoresHalf() { kind == SPEC_HALF_BYTE || kind == SPEC_HALF_BYTE_INVERSE }
    predicate Inverse() { kind % 2 == 0 }

    /** Blocks that are too short, or of no known kind, are ignored. */
    predicate Active() {
      if SumsListed() then len >= 4 else (SumsBytes() || SumsHalves()) && len >= 3
    }

    /** The byte the block writes to. */
    function TargetByte(): nat {
      if SumsListed() then target / 2 else target
    }

    predicate Fits(size: nat) {
      Active() ==>
        && TargetByte() < size
        && (if SumsListed() then |spec| == len - 3 && forall i :: 0 <= i < |spec| ==> spec[i] < 2 * size
            else start < end ==> end <= size)
    }

    /** The half bytes the block reads, and those it writes. */
    predicate Reads(n: nat) {
      Active() && if SumsListed() then n in spec else start <= n / 2 < end
    }

    predicate Writes(n: nat) {
      Active() && if StoresHalf() then n == target else n / 2 == TargetByte()
    }
  }

  // ---- sums ---------------------------------------------------------------------------------

  function Half(buf: seq<byte>, n: nat): byte
    requires n < 2 * |buf|
  {
    if n % 2 == 0 then buf[n / 2] >> 4 else buf[n / 2] & 0x0F
  }

  function SumBytes(buf: seq<byte>, start: nat, end: nat): byte
    requires start < end ==> end <= |buf|
    decreases end - start
  {
    if start >= end then 0 else Plus(SumBytes(buf, start, end - 1), buf[end - 1])
  }

  function SumHalves(buf: seq<byte>, start: nat, end: nat): byte
    requires start < end ==> end <= |buf|
    decreases end - start
  {
    if start >= end then 0
    else Plus(SumHalves(buf, start, end - 1), Plus(Half(buf, 2 * (end - 1)), Half(buf, 2 * (end - 1) + 1)))
  }

  function SumListed(buf: seq<byte>, spec: seq<nat>): byte
    requires forall i :: 0 <= i < |spec| ==> spec[i] < 2 * |buf|
  {
    if spec == [] then 0
    else Plus(SumListed(buf, spec[..|spec| - 1]), Half(buf, spec[|spec| - 1]))
  }

  function Sum(buf: seq<byte>, b: Block): byte
    requires b.Active() && b.Fits(|buf|)
  {
    if b.SumsListed() then SumListed(buf, b.spec)
    else if b.SumsBytes() then SumBytes(buf, b.start, b.end)
    else SumHalves(buf, b.start, b.end)
  }

  function Finish(sum: byte, b: Block): byte {
    if b.Inverse() then !Plus(sum, b.plus) else Plus(sum, b.plus)
  }

  /** The checksum a block calls for. */
  function Code(buf: seq<byte>, b: Block): byte
    requires b.Active() && b.Fits(|buf|)
  {
    Finish(Sum(buf, b), b)
  }

  /** The block's equation: what is stored is the checksum of what is read. */
  predicate Holds(buf: seq<byte>, b: Block)
    requires b.Fits(|buf|)
  {
    b.Active() ==>
      if b.StoresHalf() then Half(buf, b.target) == Code(buf, b) & 0x0F
      else buf[b.TargetByte()] == Code(buf, b)
  }

  // ---- storing ------------------------------------------------------------------------------

  function WithHigh(b: byte, code: byte): byte {
    (b & 0x0F) | (code << 4)
  }

  function WithLow(b: byte, code: byte): byte {
    (b & 0xF0) | (code & 0x0F)
  }

  function Store(buf: seq<byte>, b: Block, code: byte): (r: seq<byte>)
    requires b.Active() && b.Fits(|buf|)
    ensures |r| == |buf|
  {
    var t := b.TargetByte();
    if !b.StoresHalf() then buf[t := code]
    else if b.target % 2 == 0 then buf[t := WithHigh(buf[t], code)]
    else buf[t := WithLow(buf[t], code)]
  }

  function ApplyBlock(buf: seq<byte>, b: Block): (r: seq<byte>)
    requires b.Fits(|buf|)
    ensures |r| == |buf|
  {
    if b.Active() then Store(buf, b, Code(buf, b)) else buf
  }

  predicate AllFit(bs: seq<Block>, size: nat) {
    forall k :: 0 <= k < |bs| ==> bs[k].Fits(size)
  }

  function ApplyBlocks(buf: seq<byte>, bs: seq<Block>): (r: seq<byte>)
    requires AllFit(bs, |buf|)
    ensures |r| == |buf|
  {
    if bs == [] then buf else ApplyBlock(ApplyBlocks(buf, bs[..|bs| - 1]), bs[|bs| - 1])
  }

  // ---- what a block leaves alone ------------------------------------------------------------

  lemma HalvesOfStored(b: byte, code: byte)
    ensures WithHigh(b, code) >> 4 == code & 0x0F && WithHigh(b, code) & 0x0F == b & 0x0F
    ensures WithLow(b, code) & 0x0F == code & 0x0F && WithLow(b, code) >> 4 == b >> 4
  {
  }

  lemma HalvesDetermineByte(a: byte, b: byte)
    requires a >> 4 == b >> 4 && a & 0x0F == b & 0x0F
    ensures a == b
  {
  }

  predicate AgreeOn(a: seq<byte>, b: seq<byte>, n: nat)
    requires n < 2 * |a| && |a| == |b|
  {
    Half(a, n) == Half(b, n)
  }

  lemma AgreeOnByte(a: seq<byte>, b: seq<byte>, i: nat)
    requires i < |a| && |a| == |b| && AgreeOn(a, b, 2 * i) && AgreeOn(a, b, 2 * i + 1)
    ensures a[i] == b[i]
  {
    HalvesDetermineByte(a[i], b[i]);
  }

  /** Storing touches the written half bytes only, and stores the code there. */
  lemma StoreEffect(buf: seq<byte>, b: Block, code: byte)
    requires b.Active() && b.Fits(|buf|)
    ensures forall n: nat :: n < 2 * |buf| && !b.Writes(n) ==> AgreeOn(Store(buf, b, code), buf, n)
    ensures if b.StoresHalf() then Half(Store(buf, b, code), b.target) == code & 0x0F
            else Store(buf, b, code)[b.TargetByte()] == code
  {
    hide WithHigh, WithLow;
    HalvesOfStored(buf[b.TargetByte()], code);
  }

  lemma {:induction false} SumBytesFrame(a: seq<byte>, b: seq<byte>, start: nat, end: nat)
    requires |a| == |b| && (start < end ==> end <= |a|)
    requires forall n: nat :: n < 2 * |a| && start <= n / 2 < end ==> AgreeOn(a, b, n)
    ensures SumBytes(a, start, end) == SumBytes(b, start, end)
    ensures SumHalves(a, start, end) == SumHalves(b, start, end)
    decreases end - start
  {
    hide Half, Plus;
    if start < end {
      SumBytesFrame(a, b, start, end - 1);
      assert AgreeOn(a, b, 2 * (end - 1)) && AgreeOn(a, b, 2 * (end - 1) + 1);
      AgreeOnByte(a, b, end - 1);
    }
  }

  lemma {:induction false} SumListedFrame(a: seq<byte>, b: seq<byte>, spec: seq<nat>)
    requires |a| == |b| && forall i :: 0 <= i < |spec| ==> spec[i] < 2 * |a|
    requires forall i :: 0 <= i < |spec| ==> AgreeOn(a, b, spec[i])
    ensures SumListed(a, spec) == SumListed(b, spec)
  {
    hide Half, Plus;
    if spec != [] {
      SumListedFrame(a, b, spec[..|spec| - 1]);
      assert AgreeOn(a, b, spec[|spec| - 1]);
    }
  }

  /** A block's checksum depends on the half bytes it reads only. */
  lemma CodeFrame(a: seq<byte>, b: seq<byte>, blk: Block)
    requires |a| == |b| && blk.Active() && blk.Fits(|a|)
    requires forall n: nat :: n < 2 * |a| && blk.Reads(n) ==> AgreeOn(a, b, n)
    ensures Code(a, blk) == Code(b, blk)
  {
    hide Half, Plus, Finish, SumListed, SumBytes, SumHalves;
    if blk.SumsListed() {
      forall i | 0 <= i < |blk.spec|
        ensures AgreeOn(a, b, blk.spec[i])
      {
        assert blk.Reads(blk.spec[i]);
      }
      SumListedFrame(a, b, blk.spec);
    } else {
      SumBytesFrame(a, b, blk.start, blk.end);
    }
  }

  // ---- all blocks at once -------------------------------------------------------------------

  /** No block writes a half byte that it reads itself, or that an earlier block reads or writes. */
  ghost predicate Ordered(bs: seq<Block>) {
    && (forall k, n: nat :: 0 <= k < |bs| && bs[k].Writes(n) ==> !bs[k].Reads(n))
    && (forall j, k, n: nat :: 0 <= j < k < |bs| && bs[k].Writes(n) ==> !bs[j].Reads(n) && !bs[j].Writes(n))
  }

  lemma HoldsAfterApply(buf: seq<byte>, b: Block)
    requires b.Fits(|buf|) && forall n: nat :: b.Writes(n) ==> !b.Reads(n)
    ensures Holds(ApplyBlock(buf, b), b)
    ensures forall n: nat :: n < 2 * |buf| && !b.Writes(n) ==> AgreeOn(ApplyBlock(buf, b), buf, n)
  {
    hide Half, Store, Code;
    if b.Active() {
      StoreEffect(buf, b, Code(buf, b));
      CodeFrame(ApplyBlock(buf, b), buf, b);
    }
  }

  lemma HoldsKept(a: seq<byte>, b: seq<byte>, blk: Block)
    requires |a| == |b| && blk.Fits(|a|) && Holds(a, blk)
    requires forall n: nat :: n < 2 * |a| && (blk.Reads(n) || blk.Writes(n)) ==> AgreeOn(a, b, n)
    ensures Holds(b, blk)
  {
    hide Half, Code;
    if blk.Active() {
      CodeFrame(a, b, blk);
      var t := blk.TargetByte();
      if blk.StoresHalf() {
        assert blk.Writes(blk.target);
      } else {
        assert blk.Writes(2 * t) && blk.Writes(2 * t + 1);
        AgreeOnByte(a, b, t);
      }
    }
  }

  /** After applying ordered blocks every block's equation holds, all at once. */
  lemma {:induction false} AllBlocksHold(buf: seq<byte>, bs: seq<Block>)
    requires AllFit(bs, |buf|) && Ordered(bs)
    ensures forall k :: 0 <= k < |bs| ==> Holds(ApplyBlocks(buf, bs), bs[k])
  {
    hide Half, Holds, ApplyBlock, AgreeOn;
    if bs != [] {
      var m := |bs| - 1;
      var init, b := bs[..m], bs[m];
      AllBlocksHold(buf, init);
      var mid, end := ApplyBlocks(buf, init), ApplyBlocks(buf, bs);
      HoldsAfterApply(mid, b);
      forall k | 0 <= k < m
        ensures Holds(end, bs[k])
      {
        assert init[k] == bs[k];
        AgreeOnSymmetric(end, mid, b);
        HoldsKept(mid, end, bs[k]);
      }
    }
  }

  lemma AgreeOnSymmetric(a: seq<byte>, b: seq<byte>, blk: Block)
    requires |a| == |b| && forall n: nat :: n < 2 * |a| && !blk.Writes(n) ==> AgreeOn(a, b, n)
    ensures forall n: nat :: n < 2 * |a| && !blk.Writes(n) ==> AgreeOn(b, a, n)
  {
    hide Half;
    forall n: nat | n < 2 * |a| && !blk.Writes(n)
      ensures AgreeOn(b, a, n)
    {
      assert AgreeOn(a, b, n);
    }
  }

  /** A half byte no block writes is unchanged, ordered or not. */
  lemma {:induction false} UntargetedKept(buf: seq<byte>, bs: seq<Block>, n: nat)
    requires AllFit(bs, |buf|) && n < 2 * |buf|
    requires forall k :: 0 <= k < |bs| ==> !bs[k].Writes(n)
    ensures Half(ApplyBlocks(buf, bs), n) == Half(buf, n)
  {
    hide Half, Store, Code;
    if bs != [] {
      var m := |bs| - 1;
      UntargetedKept(buf, bs[..m], n);
      var mid := ApplyBlocks(buf, bs[..m]);
      if bs[m].Active() {
        StoreEffect(mid, bs[m], Code(mid, bs[m]));
        assert AgreeOn(ApplyBlock(mid, bs[m]), mid, n);
      }
    }
  }

  // ---- the conditions are needed ------------------------------------------------------------

  lemma {:induction false} SumSplits(buf: seq<byte>, start: nat, t: nat, end: nat)
    requires start <= t < end <= |buf|
    ensures SumBytes(buf, start, end) == Plus(buf[t], Plus(SumBytes(buf, start, t), SumBytes(buf, t + 1, end)))
    decreases end
  {
    hide Plus;
    var front, back, last := SumBytes(buf, start, t), SumBytes(buf, t + 1, end - 1), buf[end - 1];
    if t == end - 1 {
      PlusLaws(front, buf[t], 0);
      PlusLaws(front, 0, 0);
    } else {
      SumSplits(buf, start, t, end - 1);
      PlusLaws(buf[t], Plus(front, back), last);
      PlusLaws(front, back, last);
    }
  }

  /** What a block of summed bytes reads besides its own target. */
  function Others(buf: seq<byte>, b: Block): byte
    requires b.start <= b.target < b.end <= |buf|
  {
    Plus(SumBytes(buf, b.start, b.target), SumBytes(buf, b.target + 1, b.end))
  }

  lemma OthersFrame(buf: seq<byte>, b: Block, x: byte)
    requires b.start <= b.target < b.end <= |buf|
    ensures Others(buf[b.target := x], b) == Others(buf, b)
  {
    hide Plus;
    SumBytesFrame(buf[b.target := x], buf, b.start, b.target);
    SumBytesFrame(buf[b.target := x], buf, b.target + 1, b.end);
  }

  lemma PlusChangesNothing(x: byte, k: byte)
    ensures x == Plus(x, k) <==> k == 0
  {
  }

  lemma ComplementIsKept(was: byte, k: byte)
    ensures var x := !Plus(was, k);
      x == !Plus(x, k) <==> Plus(k, Plus(was, was)) == 255
  {
  }

  /** A block of summed bytes whose range holds its target sums the target and the rest. */
  lemma OwnTargetCode(buf: seq<byte>, b: Block)
    requires b.SumsBytes() && b.len >= 3 && b.start <= b.target < b.end <= |buf|
    ensures b.Fits(|buf|)
    ensures var sum := Plus(buf[b.target], Plus(Others(buf, b), b.plus));
      Code(buf, b) == if b.Inverse() then !sum else sum
  {
    hide Plus, Half, SumBytes;
    SumSplits(buf, b.start, b.target, b.end);
    PlusLaws(buf[b.target], Others(buf, b), b.plus);
  }

  lemma RangeBlockStores(buf: seq<byte>, b: Block)
    requires b.SumsBytes() && b.len >= 3 && b.start <= b.target < b.end <= |buf|
    ensures b.Active() && b.Fits(|buf|)
    ensures ApplyBlock(buf, b) == buf[b.target := Code(buf, b)]
    ensures Holds(buf, b) <==> buf[b.target] == Code(buf, b)
  {
    hide Code, Half;
  }

  /** The equation after storing x is one about x and the sum k of everything else. */
  lemma OwnTargetEquation(buf: seq<byte>, b: Block)
    requires b.SumsBytes() && b.len >= 3 && b.start <= b.target < b.end <= |buf|
    ensures b.Fits(|buf|)
    ensures var x, k := Code(buf, b), Plus(Others(buf, b), b.plus);
      Holds(ApplyBlock(buf, b), b) <==> x == if b.Inverse() then !Plus(x, k) else Plus(x, k)
  {
    hide Plus, Half, Code, Others, Holds, ApplyBlock;
    var after := buf[b.target := Code(buf, b)];
    RangeBlockStores(buf, b);
    RangeBlockStores(after, b);
    OwnTargetCode(after, b);
    OthersFrame(buf, b, Code(buf, b));
  }

  /** A block of summed bytes whose range holds its target: its equation holds afterwards if
      and only if the other bytes and the constant sum to 0; for the complement, if and only
      if they and twice the target's old value sum to 255. */
  lemma OwnTargetHoldsIff(buf: seq<byte>, b: Block)
    requires b.SumsBytes() && b.len >= 3 && b.start <= b.target < b.end <= |buf|
    ensures b.Fits(|buf|)
    ensures var k := Plus(Others(buf, b), b.plus);
      Holds(ApplyBlock(buf, b), b) <==>
        if b.Inverse() then Plus(k, Plus(buf[b.target], buf[b.target])) == 255 else k == 0
  {
    hide Plus, Code, Others, Holds, ApplyBlock;
    var k := Plus(Others(buf, b), b.plus);
    OwnTargetEquation(buf, b);
    OwnTargetCode(buf, b);
    PlusChangesNothing(Code(buf, b), k);
    ComplementIsKept(buf[b.target], k);
  }

  /** A block that sums its own target byte does not hold afterwards. */
  lemma OwnTargetBreaksBlock()
    ensures var b, buf := Block(3, BYTE, 0, 1, 0, 1, []), [0 as byte];
      b.Fits(|buf|) && !Holds(ApplyBlock(buf, b), b)
  {
    var b, buf := Block(3, BYTE, 0, 1, 0, 1, []), [0 as byte];
    assert SumBytes([0 as byte], 0, 1) == Plus(SumBytes([0 as byte], 0, 0), 0);
    assert SumBytes([1 as byte], 0, 1) == Plus(SumBytes([1 as byte], 0, 0), 1);
    assert ApplyBlock(buf, b) == [1 as byte];
  }

  /** A block whose target an earlier block sums breaks the earlier block. */
  lemma LaterTargetBreaksEarlierBlock()
    ensures var first, second := Block(3, BYTE, 0, 1, 1, 0, []), Block(3, BYTE, 1, 1, 0, 1, []);
      AllFit([first, second], 2) && !Holds(ApplyBlocks([0, 0], [first, second]), first)
  {
    var first, second := Block(3, BYTE, 0, 1, 1, 0, []), Block(3, BYTE, 1, 1, 0, 1, []);
    assert SumBytes([0, 0], 0, 1) == Plus(SumBytes([0, 0], 0, 0), 0);
    assert SumBytes([1, 0], 0, 1) == Plus(SumBytes([1, 0], 0, 0), 1);
    assert [first, second][..1] == [first] && [first][..0] == [];
    assert ApplyBlocks([0, 0], [first]) == ApplyBlock([0, 0], first) == [0, 0];
    assert ApplyBlock([0, 0], second) == [1, 0];
  }

  // ---- the methods --------------------------------------------------------------------------

  method AddBytes(ac: array<byte>, start: nat, end: nat) returns (checksum: byte)
    requires start < end ==> end <= ac.Length
    ensures checksum == SumBytes(ac[..], start, end)
  {
    hide Plus;
    checksum := 0;
    var i := start;
    while i < end
      invariant if start < end then start <= i <= end else i == start
      invariant checksum == SumBytes(ac[..], start, i)
    {
      checksum := Plus(checksum, ac[i]);
      i := i + 1;
    }
  }

  method AddHalfbytes(ac: array<byte>, start: nat, end: nat) returns (checksum: byte)
    requires start < end ==> end <= ac.Length
    ensures checksum == SumHalves(ac[..], start, end)
  {
    hide Plus;
    checksum := 0;
    var i := start;
    while i < end
      invariant if start < end then start <= i <= end else i == start
      invariant checksum == SumHalves(ac[..], start, i)
    {
      checksum := Plus(checksum, Plus(ac[i] >> 4, ac[i] & 0x0F));
      i := i + 1;
    }
  }

  method ApplyChecksumByte(ac: array<byte>, cs: Block, inverse: bool)
    requires cs.SumsBytes() && cs.Fits(ac.Length) && inverse == cs.Inverse()
    modifies ac
    ensures ac[..] == ApplyBlock(old(ac[..]), cs)
  {
    hide Plus, SumBytes, SumHalves, SumListed;
    if cs.len < 3 {
      return;
    }
    var checksum := AddBytes(ac, cs.start, cs.end);
    checksum := Plus(checksum, cs.plus);
    if inverse {
      checksum := !checksum;
    }
    ac[cs.target] := checksum;
  }

  method ApplyChecksumHalfbyte(ac: array<byte>, cs: Block, inverse: bool)
    requires cs.SumsHalves() && cs.Fits(ac.Length) && inverse == cs.Inverse()
    modifies ac
    ensures ac[..] == ApplyBlock(old(ac[..]), cs)
  {
    hide Plus, SumBytes, SumHalves, SumListed;
    if cs.len < 3 {
      return;
    }
    var checksum := AddHalfbytes(ac, cs.start, cs.end);
    checksum := Plus(checksum, cs.plus);
    if inverse {
      checksum := !checksum;
    }
    ac[cs.target] := checksum;
  }

  method SumListedHalves(ac: array<byte>, cs: Block) returns (checksum: byte)
    requires cs.SumsListed() && cs.Active() && cs.Fits(ac.Length)
    ensures checksum == SumListed(ac[..], cs.spec)
  {
    hide Plus;
    checksum := 0;
    var i := 0;
    while i < cs.len - 3
      invariant 0 <= i <= |cs.spec|
      invariant checksum == SumListed(ac[..], cs.spec[..i])
    {
      var pos := cs.spec[i];
      assert cs.spec[..i + 1][..i] == cs.spec[..i];
      if pos % 2 == 0 {
        checksum := Plus(checksum, ac[pos / 2] >> 4);
      } else {
        checksum := Plus(checksum, ac[pos / 2] & 0x0F);
      }
      i := i + 1;
    }
    assert cs.spec[..i] == cs.spec;
  }

  method ApplyChecksumSpecByte(ac: array<byte>, cs: Block, inverse: bool)
    requires cs.StoresHalf() && cs.Fits(ac.Length) && inverse == cs.Inverse()
    modifies ac
    ensures ac[..] == ApplyBlock(old(ac[..]), cs)
  {
    hide Plus, WithHigh, WithLow, SumListed, Half, Store;
    if cs.len < 4 {
      return;
    }
    var checksum := SumListedHalves(ac, cs);
    checksum := Plus(checksum, cs.plus);
    if inverse {
      checksum := !checksum;
    }
    assert checksum == Code(ac[..], cs);
    StoreHalf(ac, cs, checksum);
  }

  /** Keeps the other half of the byte. */
  method StoreHalf(ac: array<byte>, cs: Block, checksum: byte)
    requires cs.StoresHalf() && cs.Active() && cs.Fits(ac.Length)
    modifies ac
    ensures ac[..] == Store(old(ac[..]), cs, checksum)
  {
    hide WithHigh, WithLow;
    ghost var was := ac[..];
    var at := cs.target / 2;
    if cs.target % 2 == 0 {
      ac[at] := WithHigh(ac[at], checksum);
    } else {
      ac[at] := WithLow(ac[at], checksum);
    }
    assert ac[..] == was[at := ac[at]];
  }

  method ApplyChecksumSpecByteOnebyte(ac: array<byte>, cs: Block, inverse: bool)
    requires cs.SumsListed() && !cs.StoresHalf() && cs.Fits(ac.Length) && inverse == cs.Inverse()
    modifies ac
    ensures ac[..] == ApplyBlock(old(ac[..]), cs)
  {
    hide Plus, SumListed, Half;
    if cs.len < 4 {
      return;
    }
    var checksum := SumListedHalves(ac, cs);
    checksum := Plus(checksum, cs.plus);
    if inverse {
      checksum := !checksum;
    }
    ac[cs.target / 2] := checksum;
  }

  /** All checksum blocks of the protocol, in order. */
  method ApplyChecksum(ac: array<byte>, blocks: seq<Block>)
    requires AllFit(blocks, ac.Length)
    modifies ac
    ensures ac[..] == ApplyBlocks(old(ac[..]), blocks)
  {
    hide ApplyBlock;
    ghost var was := ac[..];
    var i := 0;
    while i < |blocks|
      invariant 0 <= i <= |blocks|
      invariant AllFit(blocks[..i], |was|)
      invariant ac[..] == ApplyBlocks(was, blocks[..i])
    {
      assert blocks[..i + 1][..i] == blocks[..i];
      var cs := blocks[i];
      if cs.kind == BYTE {
        ApplyChecksumByte(ac, cs, false);
      } else if cs.kind == BYTE_INVERSE {
        ApplyChecksumByte(ac, cs, true);
      } else if cs.kind == HALF_BYTE {
        ApplyChecksumHalfbyte(ac, cs, false);
      } else if cs.kind == HALF_BYTE_INVERSE {
        ApplyChecksumHalfbyte(ac, cs, true);
      } else if cs.kind == SPEC_HALF_BYTE {
        ApplyChecksumSpecByte(ac, cs, false);
      } else if cs.kind == SPEC_HALF_BYTE_INVERSE {
        ApplyChecksumSpecByte(ac, cs, true);
      } else if cs.kind == SPEC_HALF_BYTE_ONE_BYTE {
        ApplyChecksumSpecByteOnebyte(ac, cs, false);
      } else if cs.kind == SPEC_HALF_BYTE_INVERSE_ONE_BYTE {
        ApplyChecksumSpecByteOnebyte(ac, cs, true);
      } else {
        UnknownKind(ac[..], cs);
      }
      i := i + 1;
    }
    assert blocks[..i] == blocks;
  }

  lemma UnknownKind(buf: seq<byte>, b: Block)
    requires b.kind == 0 || b.kind > 8
    ensures b.Fits(|buf|) && ApplyBlock(buf, b) == buf
  {
  }
}

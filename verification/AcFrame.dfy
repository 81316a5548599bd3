/** Building the pulse train of a status-type frame: boot code, two durations a bit with a
    width per byte, delays after chosen bytes, an optional last mark, a tail, and repeats. */
module AcFrame {
  import opened Words
  import opened Sequences
  import opened AcBits

  const DEFAULT_BITS: nat := 8

  datatype Level = Level(low: u16, high: u16)
  datatype Delay = Delay(pos: int, times: seq<u16>)
  datatype Width = Width(pos: int, bits: nat)

  /** What the parsed protocol says about frames.  A delay at position -1 is the tail. */
  datatype Layout = Layout(endian: nat, boot: seq<u16>, zero: Level, one: Level, delays: seq<Delay>,
                           widths: seq<Width>, lastbit: nat, repeatTimes: nat)

  // ---- widths -------------------------------------------------------------------------------

  /** Bits sent for a byte, as a byte: the table is scanned up to the first position not
      below the byte's. */
  function BitsPerByte(widths: seq<Width>, index: nat): nat {
    if widths == [] then DEFAULT_BITS
    else if widths[0].pos == index then widths[0].bits % 256
    else if widths[0].pos > index then DEFAULT_BITS
    else BitsPerByte(widths[1..], index)
  }

  /** Plain lookup: the first entry for the byte, wherever it stands. */
  function LookupBits(widths: seq<Width>, index: nat): nat {
    if widths == [] then DEFAULT_BITS
    else if widths[0].pos == index then widths[0].bits % 256
    else LookupBits(widths[1..], index)
  }

  /** No entry for a later byte stands before the byte's own entry. */
  predicate Reached(widths: seq<Width>, index: nat) {
    widths == [] || widths[0].pos == index || (widths[0].pos < index && Reached(widths[1..], index))
  }

  /** The scan is a lookup exactly when it reaches the byte's entry, or that entry says the default. */
  lemma {:induction false} ScanIsLookupIffReached(widths: seq<Width>, index: nat)
    ensures BitsPerByte(widths, index) == LookupBits(widths, index)
      <==> Reached(widths, index) || LookupBits(widths, index) == DEFAULT_BITS
  {
    if widths != [] && widths[0].pos < index {
      ScanIsLookupIffReached(widths[1..], index);
    }
  }

  predicate Sorted(widths: seq<Width>) {
    forall i, j :: 0 <= i < j < |widths| ==> widths[i].pos <= widths[j].pos
  }

  lemma {:induction false} SortedScanIsLookup(widths: seq<Width>, index: nat)
    requires Sorted(widths)
    ensures BitsPerByte(widths, index) == LookupBits(widths, index)
  {
    if widths != [] {
      SortedScanIsLookup(widths[1..], index);
      if widths[0].pos > index {
        NoEntry(widths, index);
      }
    }
  }

  lemma {:induction false} NoEntry(widths: seq<Width>, index: nat)
    requires forall i :: 0 <= i < |widths| ==> widths[i].pos != index
    ensures LookupBits(widths, index) == DEFAULT_BITS
  {
    if widths != [] {
      NoEntry(widths[1..], index);
    }
  }

  // ---- symbols ------------------------------------------------------------------------------

  /** Which bit of the byte, from the least significant end, is sent j-th of n. */
  function BitSent(layout: Layout, n: nat, j: nat): (e: nat)
    requires j < n
    ensures e < n
  {
    if layout.endian == 0 then n - 1 - j else j
  }

  /** (UINT8) (1 << e) */
  function MaskBit(e: nat): byte {
    if e < 8 then One(e) else 0
  }

  function Symbol(layout: Layout, bit: bool): seq<u16> {
    if bit then [layout.one.low, layout.one.high] else [layout.zero.low, layout.zero.high]
  }

  predicate SentBit(layout: Layout, b: byte, n: nat, j: nat)
    requires j < n
  {
    b & MaskBit(BitSent(layout, n, j)) != 0
  }

  /** The first j symbols of a byte sent with n bits. */
  function ByteSymbols(layout: Layout, b: byte, n: nat, j: nat): (s: seq<u16>)
    requires j <= n
    ensures |s| == 2 * j
    decreases j
  {
    if j == 0 then []
    else ByteSymbols(layout, b, n, j - 1) + Symbol(layout, SentBit(layout, b, n, j - 1))
  }

  // ---- delays and the end of a frame ----------------------------------------------------------

  /** The delays listed for a byte, all of them, in table order. */
  function DelaysAt(delays: seq<Delay>, index: nat): seq<u16> {
    if delays == [] then [] else
      DelaysAt(delays[..|delays| - 1], index)
      + (if delays[|delays| - 1].pos == index then delays[|delays| - 1].times else [])
  }

  /** The tail: the last entry at position -1, if any. */
  function Tail(delays: seq<Delay>): seq<u16> {
    if delays == [] then []
    else if delays[|delays| - 1].pos == -1 then delays[|delays| - 1].times
    else Tail(delays[..|delays| - 1])
  }

  /** What ends a frame of n bytes: the last mark, unless switched off, and the tail. */
  function End(layout: Layout, index: nat, n: nat): seq<u16> {
    if index + 1 != n then [] else
      (if layout.lastbit == 0 then [layout.one.low] else []) + Tail(layout.delays)
  }

  /** What follows byte `index` of a frame of n bytes. */
  function After(layout: Layout, index: nat, n: nat): (s: seq<u16>)
    ensures |s| == |DelaysAt(layout.delays, index)| + |End(layout, index, n)|
  {
    DelaysAt(layout.delays, index) + End(layout, index, n)
  }

  // ---- the frame ------------------------------------------------------------------------------

  function Chunk(layout: Layout, code: seq<byte>, i: nat): seq<u16>
    requires i < |code|
  {
    var n := BitsPerByte(layout.widths, i);
    ByteSymbols(layout, code[i], n, n) + After(layout, i, |code|)
  }

  /** The frame up to, but not including, byte k. */
  function FrameUpTo(layout: Layout, code: seq<byte>, k: nat): seq<u16>
    requires k <= |code|
    decreases k
  {
    if k == 0 then layout.boot else FrameUpTo(layout, code, k - 1) + Chunk(layout, code, k - 1)
  }

  function Frame(layout: Layout, code: seq<byte>): seq<u16> {
    FrameUpTo(layout, code, |code|)
  }

  function Copies(s: seq<u16>, n: nat): seq<u16> {
    if n == 0 then [] else Copies(s, n - 1) + s
  }

  /** A frame is sent once at least. */
  function SendCount(layout: Layout): (n: nat)
    ensures n > 0
  {
    if layout.repeatTimes == 0 then 1 else layout.repeatTimes
  }

  /** Everything sent for a code. */
  function Waveform(layout: Layout, code: seq<byte>): seq<u16> {
    Copies(Frame(layout, code), SendCount(layout))
  }

  // ---- reading a frame back --------------------------------------------------------------------

  /** Where byte k starts: the layout alone decides. */
  function Offset(layout: Layout, k: nat, n: nat): nat
    decreases k
  {
    if k == 0 then |layout.boot|
    else Offset(layout, k - 1, n) + 2 * BitsPerByte(layout.widths, k - 1) + |After(layout, k - 1, n)|
  }

  lemma {:induction false} FrameUpToLength(layout: Layout, code: seq<byte>, k: nat)
    requires k <= |code|
    ensures |FrameUpTo(layout, code, k)| == Offset(layout, k, |code|)
    decreases k
  {
    hide After, BitsPerByte, ByteSymbols;
    if k > 0 {
      FrameUpToLength(layout, code, k - 1);
    }
  }

  lemma {:induction false} FrameGrows(layout: Layout, code: seq<byte>, k: nat, m: nat)
    requires k <= m <= |code|
    ensures FrameUpTo(layout, code, k) <= FrameUpTo(layout, code, m)
    decreases m
  {
    hide Chunk;
    if k < m {
      FrameGrows(layout, code, k, m - 1);
    }
  }

  /** Whether the j-th symbol in s is the one for a set bit. */
  predicate IsOne(layout: Layout, s: seq<u16>, j: nat)
    requires 2 * j + 1 < |s|
  {
    s[2 * j] == layout.one.low && s[2 * j + 1] == layout.one.high
  }

  /** Which symbol of n says bit p. */
  function SentAs(layout: Layout, n: nat, p: nat): (j: nat)
    requires p < n
    ensures j < n
  {
    if layout.endian == 0 then n - 1 - p else p
  }

  /** The eight bits of a byte, most significant first, of which the symbols s say the last n. */
  function ReadBits(layout: Layout, s: seq<u16>, n: nat): (bs: seq<bool>)
    requires |s| == 2 * n
    ensures |bs| == 8
  {
    seq(8, k requires 0 <= k < 8 => 7 - k < n && IsOne(layout, s, SentAs(layout, n, 7 - k)))
  }

  function ReadByte(layout: Layout, s: seq<u16>, n: nat): byte
    requires |s| == 2 * n
  {
    FieldValue(ReadBits(layout, s, n), 0, 8)
  }

  lemma {:induction false} SymbolAt(layout: Layout, b: byte, n: nat, j: nat, i: nat)
    requires i < j <= n
    ensures var s := ByteSymbols(layout, b, n, j);
      [s[2 * i], s[2 * i + 1]] == Symbol(layout, SentBit(layout, b, n, i))
    decreases j
  {
    hide SentBit;
    if i < j - 1 {
      SymbolAt(layout, b, n, j - 1, i);
    }
  }

  /** The masks pick the bits of the byte; beyond bit 7 they pick nothing. */
  lemma MaskPicksBit(b: byte, e: nat)
    ensures b & MaskBit(e) != 0 <==> e < 8 && LowBit(b, e)
  {
  }

  function Min8(n: nat): nat {
    if n < 8 then n else 8
  }

  lemma SymbolSaysBit(layout: Layout, b: byte, n: nat, p: nat)
    requires layout.one != layout.zero && p < n && p < 8
    ensures IsOne(layout, ByteSymbols(layout, b, n, n), SentAs(layout, n, p)) <==> LowBit(b, p)
  {
    hide LowBit, MaskBit, ByteSymbols;
    SymbolAt(layout, b, n, n, SentAs(layout, n, p));
    MaskPicksBit(b, p);
  }

  /** The symbols of a byte say its low bits, in either bit order. */
  lemma ByteReadsBack(layout: Layout, b: byte, n: nat)
    requires layout.one != layout.zero
    ensures ReadByte(layout, ByteSymbols(layout, b, n, n), n) == LowBits(b, Min8(n))
  {
    hide LowBit, LowBits, FieldValue, ByteSymbols, SentAs, IsOne;
    var s := ByteSymbols(layout, b, n, n);
    var bs := ReadBits(layout, s, n);
    forall p | 0 <= p < 8
      ensures LowBit(FieldValue(bs, 0, 8), p) == LowBit(LowBits(b, Min8(n)), p)
    {
      FieldValueBit(bs, 0, 8, p);
      LowBitsBit(b, Min8(n), p);
      assert bs[7 - p] == (p < n && IsOne(layout, s, SentAs(layout, n, p)));
      if p < n {
        SymbolSaysBit(layout, b, n, p);
      }
    }
    LowBitsDetermine(FieldValue(bs, 0, 8), LowBits(b, Min8(n)));
  }

  /** Byte i of a frame, read at the place the layout gives. */
  function DecodeByte(layout: Layout, frame: seq<u16>, i: nat, n: nat): byte
    requires Offset(layout, i, n) + 2 * BitsPerByte(layout.widths, i) <= |frame|
  {
    var at, bits := Offset(layout, i, n), BitsPerByte(layout.widths, i);
    ReadByte(layout, frame[at..at + 2 * bits], bits)
  }

  lemma ByteSymbolsInFrame(layout: Layout, code: seq<byte>, i: nat)
    requires i < |code|
    ensures var at, bits := Offset(layout, i, |code|), BitsPerByte(layout.widths, i);
      && at + 2 * bits <= |Frame(layout, code)|
      && Frame(layout, code)[at..at + 2 * bits] == ByteSymbols(layout, code[i], bits, bits)
  {
    hide ByteSymbols, After, BitsPerByte, Offset;
    var bits := BitsPerByte(layout.widths, i);
    FrameUpToLength(layout, code, i);
    FrameGrows(layout, code, i + 1, |code|);
    var upTo, f := FrameUpTo(layout, code, i + 1), Frame(layout, code);
    var at := Offset(layout, i, |code|);
    var before, symbols := FrameUpTo(layout, code, i), ByteSymbols(layout, code[i], bits, bits);
    assert upTo == before + (symbols + After(layout, i, |code|));
    hide FrameUpTo, Frame;
    SliceBetween(before, symbols, After(layout, i, |code|));
    SliceOfPrefix(upTo, f[|upTo|..], at, at + 2 * bits);
    assert f == upTo + f[|upTo|..];
  }

  lemma SliceBetween<T>(a: seq<T>, b: seq<T>, c: seq<T>)
    ensures (a + (b + c))[|a|..|a| + |b|] == b
  {
  }

  /** A frame decodes back to its bytes, each modulo two to its width. */
  lemma FrameDecodes(layout: Layout, code: seq<byte>, i: nat)
    requires layout.one != layout.zero && i < |code|
    ensures Offset(layout, i, |code|) + 2 * BitsPerByte(layout.widths, i) <= |Frame(layout, code)|
    ensures DecodeByte(layout, Frame(layout, code), i, |code|) == LowBits(code[i], Min8(BitsPerByte(layout.widths, i)))
  {
    hide ByteSymbols, BitsPerByte, Offset, Frame, ReadByte, LowBits;
    ByteSymbolsInFrame(layout, code, i);
    ByteReadsBack(layout, code[i], BitsPerByte(layout.widths, i));
  }

  lemma {:induction false} EqualSymbols(layout: Layout, a: byte, b: byte, n: nat, j: nat)
    requires layout.one == layout.zero && j <= n
    ensures ByteSymbols(layout, a, n, j) == ByteSymbols(layout, b, n, j)
    decreases j
  {
    hide SentBit;
    if j > 0 {
      EqualSymbols(layout, a, b, n, j - 1);
    }
  }

  /** When the two symbols are the same, a frame says nothing about its bytes. */
  lemma {:induction false} EqualSymbolsHideBytes(layout: Layout, a: seq<byte>, b: seq<byte>, k: nat)
    requires layout.one == layout.zero && |a| == |b| && k <= |a|
    ensures FrameUpTo(layout, a, k) == FrameUpTo(layout, b, k)
    decreases k
  {
    hide ByteSymbols, After, BitsPerByte;
    if k > 0 {
      EqualSymbolsHideBytes(layout, a, b, k - 1);
      var n := BitsPerByte(layout.widths, k - 1);
      EqualSymbols(layout, a[k - 1], b[k - 1], n, n);
    }
  }

  /** Frames tell codes of a given length apart, up to the bits sent, exactly when the two
      symbols differ; a layout that sends no bits has nothing to tell. */
  lemma FramesFaithfulIffSymbolsDiffer(layout: Layout, n: nat, i: nat)
    requires i < n && BitsPerByte(layout.widths, i) > 0
    ensures layout.one != layout.zero <==>
      forall a: seq<byte>, b: seq<byte> :: |a| == |b| == n && Frame(layout, a) == Frame(layout, b) ==>
        LowBits(a[i], Min8(BitsPerByte(layout.widths, i))) == LowBits(b[i], Min8(BitsPerByte(layout.widths, i)))
  {
    hide LowBits, BitsPerByte, Offset, DecodeByte, Frame;
    if layout.one != layout.zero {
      forall a: seq<byte>, b: seq<byte> | |a| == |b| == n && Frame(layout, a) == Frame(layout, b)
        ensures LowBits(a[i], Min8(BitsPerByte(layout.widths, i))) == LowBits(b[i], Min8(BitsPerByte(layout.widths, i)))
      {
        FrameDecodes(layout, a, i);
        FrameDecodes(layout, b, i);
      }
    } else {
      var a, b := seq(n, _ => 0 as byte), seq(n, _ => 1 as byte);
      EqualFrames(layout, a, b);
      LowBitsOfOne(Min8(BitsPerByte(layout.widths, i)));
      assert a[i] == 0 && b[i] == 1;
    }
  }

  lemma EqualFrames(layout: Layout, a: seq<byte>, b: seq<byte>)
    requires layout.one == layout.zero && |a| == |b|
    ensures Frame(layout, a) == Frame(layout, b)
  {
    hide FrameUpTo;
    EqualSymbolsHideBytes(layout, a, b, |a|);
  }

  lemma LowBitsOfOne(n: nat)
    requires 0 < n <= 8
    ensures LowBits(0, n) != LowBits(1, n)
  {
  }

  // ---- repeats --------------------------------------------------------------------------------

  lemma {:induction false} CopiesLength(s: seq<u16>, n: nat)
    ensures |Copies(s, n)| == n * |s|
  {
    if n > 0 {
      CopiesLength(s, n - 1);
    }
  }

  /** Where copy k of something of a size starts. */
  function Place(k: nat, size: nat): nat {
    k * size
  }

  lemma PlacesInOrder(k: nat, n: nat, size: nat)
    requires k <= n
    ensures Place(k, size) <= Place(n, size) && Place(k + 1, size) == Place(k, size) + size
  {
    assert n * size == k * size + (n - k) * size;
    assert (n - k) * size >= 0;
  }

  lemma NextCopy(s: seq<u16>, n: nat)
    requires n > 0
    ensures Copies(s, n) == Copies(s, n - 1) + s
    ensures |Copies(s, n - 1)| == Place(n - 1, |s|) && |Copies(s, n)| == Place(n, |s|)
  {
    CopiesLength(s, n - 1);
    CopiesLength(s, n);
  }

  lemma {:induction false} CopyAtPlace(s: seq<u16>, n: nat, k: nat)
    requires k < n
    ensures Place(k, |s|) + |s| <= |Copies(s, n)|
    ensures Copies(s, n)[Place(k, |s|)..Place(k, |s|) + |s|] == s
    decreases n
  {
    hide Place, Copies;
    NextCopy(s, n);
    var c, at := Copies(s, n - 1), Place(k, |s|);
    if k < n - 1 {
      CopyAtPlace(s, n - 1, k);
      SliceOfPrefix(c, s, at, at + |s|);
    }
  }

  /** Every copy is the frame. */
  lemma CopyAt(s: seq<u16>, n: nat, k: nat)
    requires k < n
    ensures 0 <= k * |s| <= k * |s| + |s| <= |Copies(s, n)|
    ensures Copies(s, n)[k * |s|..k * |s| + |s|] == s
  {
    hide Copies;
    CopyAtPlace(s, n, k);
  }

  // ---- the builder ------------------------------------------------------------------------------

  class FrameBuilder {
    const layout: Layout
    var time: array<u16>
    var codeCnt: nat

    constructor (l: Layout, buffer: array<u16>)
      ensures layout == l && time == buffer && codeCnt == 0
    {
      layout := l;
      time := buffer;
      codeCnt := 0;
    }

    /** What has been written so far. */
    function Output(): seq<u16>
      requires codeCnt <= time.Length
      reads this, time
    {
      time[..codeCnt]
    }

    method Append(x: u16)
      requires codeCnt < time.Length
      modifies this`codeCnt, time
      ensures codeCnt == old(codeCnt) + 1 && Output() == old(Output()) + [x]
    {
      time[codeCnt] := x;
      codeCnt := codeCnt + 1;
    }

    method AppendAll(s: seq<u16>)
      requires codeCnt + |s| <= time.Length
      modifies this`codeCnt, time
      ensures codeCnt == old(codeCnt) + |s| && Output() == old(Output()) + s
    {
      var j := 0;
      while j < |s|
        invariant 0 <= j <= |s| && codeCnt == old(codeCnt) + j
        invariant Output() == old(Output()) + s[..j]
      {
        Append(s[j]);
        j := j + 1;
      }
    }

    method BitsOfByte(index: nat) returns (bits: nat)
      ensures bits == BitsPerByte(layout.widths, index)
    {
      if |layout.widths| == 0 {
        return DEFAULT_BITS;
      }
      var i := 0;
      while i < |layout.widths|
        invariant 0 <= i <= |layout.widths|
        invariant BitsPerByte(layout.widths, index) == BitsPerByte(layout.widths[i..], index)
      {
        if layout.widths[i].pos == index {
          return layout.widths[i].bits % 256;
        }
        if layout.widths[i].pos > index {
          return DEFAULT_BITS;
        }
        assert layout.widths[i..][1..] == layout.widths[i + 1..];
        i := i + 1;
      }
      return DEFAULT_BITS;
    }

    /** The delays after byte `index` of n, and the end of the frame after the last byte. */
    method AddDelaycode(index: nat, n: nat)
      requires codeCnt + |After(layout, index, n)| <= time.Length
      modifies this`codeCnt, time
      ensures codeCnt == old(codeCnt) + |After(layout, index, n)|
      ensures Output() == old(Output()) + After(layout, index, n)
    {
      hide DelaysAt, Tail, End;
      var hasTail, tailPos := AddDelays(index);
      AddEnd(index, n, hasTail, tailPos);
    }

    method AddDelays(index: nat) returns (hasTail: bool, tailPos: nat)
      requires codeCnt + |DelaysAt(layout.delays, index)| <= time.Length
      modifies this`codeCnt, time
      ensures codeCnt == old(codeCnt) + |DelaysAt(layout.delays, index)|
      ensures Output() == old(Output()) + DelaysAt(layout.delays, index)
      ensures hasTail ==> tailPos < |layout.delays|
      ensures Tail(layout.delays) == if hasTail then layout.delays[tailPos].times else []
    {
      hide DelaysAt, Tail;
      hasTail, tailPos := false, 0;
      var dc := layout.delays;
      NoDelays(dc, index);
      var i := 0;
      while i < |dc|
        invariant 0 <= i <= |dc| && |DelaysAt(dc[..i], index)| <= |DelaysAt(dc, index)|
        invariant codeCnt == old(codeCnt) + |DelaysAt(dc[..i], index)|
        invariant Output() == old(Output()) + DelaysAt(dc[..i], index)
        invariant hasTail ==> tailPos < i
        invariant Tail(dc[..i]) == if hasTail then dc[tailPos].times else []
      {
        NextDelay(dc, index, i);
        DelaysGrow(dc, index, i + 1);
        if dc[i].pos == index {
          AppendAll(dc[i].times);
        } else if dc[i].pos == -1 {
          hasTail, tailPos := true, i;
        }
        i := i + 1;
      }
      assert dc[..i] == dc;
    }

    method AddEnd(index: nat, n: nat, hasTail: bool, tailPos: nat)
      requires hasTail ==> tailPos < |layout.delays|
      requires Tail(layout.delays) == if hasTail then layout.delays[tailPos].times else []
      requires codeCnt + |End(layout, index, n)| <= time.Length
      modifies this`codeCnt, time
      ensures codeCnt == old(codeCnt) + |End(layout, index, n)|
      ensures Output() == old(Output()) + End(layout, index, n)
    {
      hide Tail, End;
      EndParts(layout, index, n);
      ghost var was := Output();
      ghost var mark := if index + 1 == n && layout.lastbit == 0 then [layout.one.low] else [];
      ghost var tail := if index + 1 == n then Tail(layout.delays) else [];
      if layout.lastbit == 0 && index == n - 1 {
        Append(layout.one.low);
      }
      assert Output() == was + mark;
      if index == n - 1 && hasTail {
        AppendAll(layout.delays[tailPos].times);
      }
      assert Output() == (was + mark) + tail;
      assert was + (mark + tail) == (was + mark) + tail;
    }

    method AddSymbol(bit: bool)
      requires codeCnt + 2 <= time.Length
      modifies this`codeCnt, time
      ensures codeCnt == old(codeCnt) + 2 && Output() == old(Output()) + Symbol(layout, bit)
    {
      if bit {
        Append(layout.one.low);
        Append(layout.one.high);
      } else {
        Append(layout.zero.low);
        Append(layout.zero.high);
      }
    }

    method TestBit(b: byte, bitnum: nat, j: nat) returns (bit: bool)
      requires j < bitnum
      ensures bit == SentBit(layout, b, bitnum, j)
    {
      var mask;
      if layout.endian == 0 {
        mask := MaskBit(bitnum - 1 - j);
      } else {
        mask := MaskBit(j);
      }
      bit := b & mask != 0;
    }

    /** The symbols of one byte. */
    method AddByte(b: byte, bitnum: nat)
      requires codeCnt + 2 * bitnum <= time.Length
      modifies this`codeCnt, time
      ensures codeCnt == old(codeCnt) + 2 * bitnum
      ensures Output() == old(Output()) + ByteSymbols(layout, b, bitnum, bitnum)
    {
      hide Symbol, SentBit;
      var j := 0;
      while j < bitnum
        invariant 0 <= j <= bitnum && codeCnt == old(codeCnt) + 2 * j
        invariant Output() == old(Output()) + ByteSymbols(layout, b, bitnum, j)
      {
        var bit := TestBit(b, bitnum, j);
        AddSymbol(bit);
        j := j + 1;
      }
    }

    /** One frame, from an empty buffer. */
    method BuildFrame(irdata: array<byte>)
      requires irdata as object != time as object && |Frame(layout, irdata[..])| <= time.Length
      modifies this`codeCnt, time
      ensures irdata[..] == old(irdata[..])
      ensures codeCnt <= time.Length && Output() == Frame(layout, irdata[..])
    {
      hide After, ByteSymbols, BitsPerByte, FrameUpTo, Offset, DelaysAt, End;
      ghost var code := irdata[..];
      BootOnly(layout, code);
      codeCnt := 0;
      assert Output() == [];
      AppendAll(layout.boot);
      var i := 0;
      while i < irdata.Length
        invariant 0 <= i <= |code| && irdata[..] == code
        invariant codeCnt <= time.Length && Output() == FrameUpTo(layout, code, i)
      {
        NextChunk(layout, code, i);
        var bitnum := BitsOfByte(i);
        AddByte(irdata[i], bitnum);
        AddDelaycode(i, irdata.Length);
        i := i + 1;
      }
    }

    /** The frame, and its copies. */
    method CreateIrFrame(irdata: array<byte>) returns (n: nat)
      requires irdata as object != time as object
      requires |Waveform(layout, irdata[..])| <= time.Length && |Waveform(layout, irdata[..])| < WORD
      modifies this`codeCnt, time
      ensures irdata[..] == old(irdata[..])
      ensures n == codeCnt <= time.Length && Output() == Waveform(layout, irdata[..])
    {
      hide Frame, Copies;
      CopiesLength(Frame(layout, irdata[..]), SendCount(layout));
      OneCopyFits(|Frame(layout, irdata[..])|, SendCount(layout));
      BuildFrame(irdata);
      Repeat();
      n := codeCnt;
    }

    /** Appends the copies after the first. */
    method Repeat()
      requires codeCnt <= time.Length && |Copies(Output(), SendCount(layout))| <= time.Length
      modifies this`codeCnt, time
      ensures codeCnt <= time.Length && Output() == Copies(old(Output()), SendCount(layout))
    {
      ghost var frame := Output();
      var framelen := codeCnt;
      assert Copies(frame, 1) == frame;
      var i := 0;
      while i < layout.repeatTimes - 1
        invariant 0 <= i < SendCount(layout) && framelen == |frame| <= codeCnt <= time.Length
        invariant Output() == Copies(frame, i + 1)
        invariant time[..framelen] == frame
      {
        CopiesGrow(frame, i + 2, SendCount(layout));
        CopyFrame(framelen);
        i := i + 1;
      }
    }

    /** Appends another copy of the first framelen durations. */
    method CopyFrame(framelen: nat)
      requires framelen <= codeCnt && codeCnt + framelen <= time.Length
      modifies this`codeCnt, time
      ensures codeCnt == old(codeCnt) + framelen && Output() == old(Output()) + old(time[..framelen])
      ensures time[..framelen] == old(time[..framelen])
    {
      ghost var was, part := Output(), time[..framelen];
      var j := 0;
      while j < framelen
        invariant 0 <= j <= framelen && codeCnt == |was| + j <= time.Length
        invariant Output() == was + part[..j]
      {
        assert time[j] == Output()[j] == was[j] == part[j];
        Append(time[j]);
        assert (was + part[..j]) + [part[j]] == was + part[..j + 1];
        j := j + 1;
      }
      assert part[..j] == part;
      assert time[..framelen] == Output()[..framelen] == was[..framelen];
    }
  }

  lemma BootOnly(layout: Layout, code: seq<byte>)
    ensures FrameUpTo(layout, code, 0) == layout.boot && |layout.boot| <= |Frame(layout, code)|
  {
    FrameGrows(layout, code, 0, |code|);
  }

  lemma NextChunk(layout: Layout, code: seq<byte>, i: nat)
    requires i < |code|
    ensures var n := BitsPerByte(layout.widths, i);
      FrameUpTo(layout, code, i + 1)
      == FrameUpTo(layout, code, i) + ByteSymbols(layout, code[i], n, n) + After(layout, i, |code|)
    ensures |FrameUpTo(layout, code, i + 1)| <= |Frame(layout, code)|
  {
    hide ByteSymbols, After, BitsPerByte;
    FrameGrows(layout, code, i + 1, |code|);
  }

  lemma EndParts(layout: Layout, index: nat, n: nat)
    ensures End(layout, index, n)
      == (if index + 1 == n && layout.lastbit == 0 then [layout.one.low] else [])
       + (if index + 1 == n then Tail(layout.delays) else [])
  {
    hide Tail;
  }

  lemma NoDelays(delays: seq<Delay>, index: nat)
    ensures delays[..0] == []
    ensures DelaysAt([], index) == [] && Tail([]) == []
  {
  }

  lemma NextDelay(delays: seq<Delay>, index: nat, i: nat)
    requires i < |delays|
    ensures DelaysAt(delays[..i + 1], index)
         == DelaysAt(delays[..i], index) + (if delays[i].pos == index then delays[i].times else [])
    ensures Tail(delays[..i + 1]) == if delays[i].pos == -1 then delays[i].times else Tail(delays[..i])
  {
    assert delays[..i + 1][..i] == delays[..i];
  }

  lemma OneCopyFits(size: nat, n: nat)
    requires n > 0
    ensures size <= n * size
  {
  }

  lemma {:induction false} CopiesGrow(s: seq<u16>, k: nat, n: nat)
    requires k <= n
    ensures |Copies(s, k)| <= |Copies(s, n)|
    decreases n
  {
    if k < n {
      CopiesGrow(s, k, n - 1);
    }
  }

  lemma {:induction false} DelaysGrow(delays: seq<Delay>, index: nat, i: nat)
    requires i <= |delays|
    ensures |DelaysAt(delays[..i], index)| <= |DelaysAt(delays, index)|
    decreases |delays| - i
  {
    if i < |delays| {
      assert delays[..i + 1][..i] == delays[..i];
      DelaysGrow(delays, index, i + 1);
    } else {
      assert delays[..i] == delays;
    }
  }
}

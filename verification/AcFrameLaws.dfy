/** What a frame is, said of the layout's fields and the bits of the bytes by their numbers. */
module AcFrameLaws {
  import opened Words
  import opened Sequences
  import opened Halving
  import opened AcBits
  import opened AcFrame

  // ---- one byte ----------------------------------------------------------------------------------

  /** Bit e of a byte; bits from 8 on are clear. */
  predicate ByteHasBit(b: byte, e: nat) {
    e < 8 && HasBit(Num(b), e)
  }

  function OneSymbol(layout: Layout): seq<u16> {
    [layout.one.low, layout.one.high]
  }

  function ZeroSymbol(layout: Layout): seq<u16> {
    [layout.zero.low, layout.zero.high]
  }

  /** Symbol j of a byte sent with n bits is the one-symbol if and only if bit n - 1 - j of the
      byte is set in endianness 0, bit j in any other. */
  lemma SymbolSaysWhichBit(layout: Layout, b: byte, n: nat, j: nat)
    requires j < n
    ensures var s := ByteSymbols(layout, b, n, n);
      s[2 * j..2 * j + 2]
      == if ByteHasBit(b, if layout.endian == 0 then n - 1 - j else j) then OneSymbol(layout) else ZeroSymbol(layout)
  {
    hide ByteSymbols, LowBit, MaskBit, Num, HasBit;
    var e := if layout.endian == 0 then n - 1 - j else j;
    SymbolAt(layout, b, n, n, j);
    MaskPicksBit(b, e);
    if e < 8 {
      LowBitIsNumberBit(b, e);
    }
  }

  /** All symbols of a byte. */
  function SymbolGroups(layout: Layout, b: byte, n: nat): (groups: seq<seq<u16>>)
    ensures |groups| == n
  {
    seq(n, j requires 0 <= j < n =>
      if ByteHasBit(b, if layout.endian == 0 then n - 1 - j else j) then OneSymbol(layout) else ZeroSymbol(layout))
  }

  lemma {:induction false} PairsFlatten(s: seq<u16>, groups: seq<seq<u16>>)
    requires |s| == 2 * |groups|
    requires forall j :: 0 <= j < |groups| ==> |groups[j]| == 2 && s[2 * j..2 * j + 2] == groups[j]
    ensures s == Flatten(groups)
  {
    if groups != [] {
      var m := |groups| - 1;
      var init := s[..2 * m];
      forall j | 0 <= j < m
        ensures init[2 * j..2 * j + 2] == groups[..m][j]
      {
        assert init[2 * j..2 * j + 2] == s[2 * j..2 * j + 2];
      }
      PairsFlatten(init, groups[..m]);
      assert s == init + s[2 * m..2 * m + 2];
    }
  }

  lemma ByteSymbolsAre(layout: Layout, b: byte, n: nat)
    ensures ByteSymbols(layout, b, n, n) == Flatten(SymbolGroups(layout, b, n))
  {
    hide ByteSymbols, ByteHasBit, Flatten;
    forall j: nat | j < n
      ensures var s, g := ByteSymbols(layout, b, n, n), SymbolGroups(layout, b, n)[j];
        |g| == 2 && s[2 * j..2 * j + 2] == g
    {
      SymbolSaysWhichBit(layout, b, n, j);
    }
    PairsFlatten(ByteSymbols(layout, b, n, n), SymbolGroups(layout, b, n));
  }

  // ---- widths --------------------------------------------------------------------------------------

  /** The first entry for a byte gives its width, as a byte, if no entry before it is for a later
      byte; without one the width is 8. */
  lemma {:induction false} WidthIs(widths: seq<Width>, index: nat, k: nat)
    requires k <= |widths| && forall i :: 0 <= i < k ==> widths[i].pos < index
    requires k < |widths| ==> widths[k].pos >= index
    ensures BitsPerByte(widths, index)
      == if k < |widths| && widths[k].pos == index then widths[k].bits % 256 else 8
    decreases k
  {
    if k > 0 {
      WidthIs(widths[1..], index, k - 1);
    }
  }

  // ---- delays and tail -------------------------------------------------------------------------------

  /** The times of the entries for a place, in table order. */
  function TimesFor(delays: seq<Delay>, pos: int): (groups: seq<seq<u16>>)
    ensures |groups| == |delays|
  {
    seq(|delays|, k requires 0 <= k < |delays| => if delays[k].pos == pos then delays[k].times else [])
  }

  lemma {:induction false} DelaysAre(delays: seq<Delay>, index: nat)
    ensures DelaysAt(delays, index) == Flatten(TimesFor(delays, index))
  {
    if delays != [] {
      var m := |delays| - 1;
      DelaysAre(delays[..m], index);
      assert TimesFor(delays, index)[..m] == TimesFor(delays[..m], index);
    }
  }

  /** The tail is the times of the last entry at place -1. */
  lemma {:induction false} TailIs(delays: seq<Delay>, k: nat)
    requires k <= |delays| && (k < |delays| ==> delays[k].pos == -1)
    requires forall i :: 0 <= i < |delays| && (i > k || k == |delays|) ==> delays[i].pos != -1
    ensures Tail(delays) == if k < |delays| then delays[k].times else []
    decreases |delays|
  {
    if delays != [] && k != |delays| - 1 {
      var m := |delays| - 1;
      TailIs(delays[..m], if k < m then k else m);
    }
  }

  // ---- the frame -------------------------------------------------------------------------------------

  /** What is sent for byte i: its symbols and its delays, and behind the last byte a last mark,
      unless `lastbit` is set, and the tail. */
  function ByteParts(layout: Layout, code: seq<byte>, i: nat): seq<u16>
    requires i < |code|
  {
    Flatten(SymbolGroups(layout, code[i], BitsPerByte(layout.widths, i)))
    + Flatten(TimesFor(layout.delays, i))
    + (if i == |code| - 1 then (if layout.lastbit == 0 then [layout.one.low] else []) + Tail(layout.delays) else [])
  }

  function AllParts(layout: Layout, code: seq<byte>, n: nat): (groups: seq<seq<u16>>)
    requires n <= |code|
    ensures |groups| == n
  {
    seq(n, i requires 0 <= i < n => ByteParts(layout, code, i))
  }

  lemma ChunkIs(layout: Layout, code: seq<byte>, i: nat)
    requires i < |code|
    ensures Chunk(layout, code, i) == ByteParts(layout, code, i)
  {
    hide ByteSymbols, SymbolGroups, Flatten, TimesFor, Tail, DelaysAt, BitsPerByte;
    ByteSymbolsAre(layout, code[i], BitsPerByte(layout.widths, i));
    DelaysAre(layout.delays, i);
  }

  lemma {:induction false} FrameUpToIs(layout: Layout, code: seq<byte>, n: nat)
    requires n <= |code|
    ensures FrameUpTo(layout, code, n) == layout.boot + Flatten(AllParts(layout, code, n))
    decreases n
  {
    hide Chunk, ByteParts;
    if n > 0 {
      FrameUpToIs(layout, code, n - 1);
      ChunkIs(layout, code, n - 1);
      assert AllParts(layout, code, n)[..n - 1] == AllParts(layout, code, n - 1);
    }
  }

  /** A frame is the boot code and the parts of its bytes, in order. */
  lemma FrameIs(layout: Layout, code: seq<byte>)
    ensures Frame(layout, code) == layout.boot + Flatten(AllParts(layout, code, |code|))
  {
    hide FrameUpTo, AllParts;
    FrameUpToIs(layout, code, |code|);
  }

  /** A frame is sent once, or as often as the repeat times say when they are more. */
  lemma WaveformIs(layout: Layout, code: seq<byte>)
    ensures var n, frame := if layout.repeatTimes > 1 then layout.repeatTimes else 1, Frame(layout, code);
      Waveform(layout, code) == Copies(frame, n) && |Waveform(layout, code)| == n * |frame|
  {
    hide Frame, Copies;
    CopiesLength(Frame(layout, code), SendCount(layout));
  }
}

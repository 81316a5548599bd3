/** The frame parameters as text: boot code "t,t,...", delay codes "pos&t,t,...|pos&t,...",
    and bit widths "pos&bits|pos&bits". */
module AcFrameText {
  import opened Words
  import opened TextFields
  import opened AcFrame

  // ---- numbers ----------------------------------------------------------------------------------

  /** (UINT16) n */
  function ToU16(n: int): u16 {
    n % WORD
  }

  /** A 16-bit word read as a signed number. */
  function ToS16(w: u16): int {
    if w < 0x8000 then w else w - WORD
  }

  function Number(s: string): u16 {
    ToU16(Atoi(s))
  }

  function Position(s: string): int {
    ToS16(ToU16(Atoi(s)))
  }

  function Numbers(fields: seq<string>): (ns: seq<u16>)
    ensures |ns| == |fields|
  {
    seq(|fields|, i requires 0 <= i < |fields| => Number(fields[i]))
  }

  // ---- reading ----------------------------------------------------------------------------------

  /** What stands before and after the first ampersand; nothing when there is none. */
  function BeforeMark(s: string): string {
    var i := IndexOf(s, '&', 0);
    if i < |s| then s[..i] else []
  }

  function AfterMark(s: string): string {
    var i := IndexOf(s, '&', 0);
    if i < |s| then s[i + 1..] else []
  }

  function ReadDelay(piece: string): Delay {
    Delay(Position(BeforeMark(piece)), Numbers(Split(AfterMark(piece), ',', 0)))
  }

  function ReadWidth(piece: string): Width {
    Width(Position(BeforeMark(piece)), Number(AfterMark(piece)))
  }

  function ReadDelays(pieces: seq<string>): (ds: seq<Delay>)
    ensures |ds| == |pieces|
  {
    seq(|pieces|, i requires 0 <= i < |pieces| => ReadDelay(pieces[i]))
  }

  /** A width at position -1 is the last byte's. */
  function ReadWidths(pieces: seq<string>, codeLen: nat): (ws: seq<Width>)
    ensures |ws| == |pieces|
  {
    seq(|pieces|, i requires 0 <= i < |pieces| =>
      var w := ReadWidth(pieces[i]);
      if w.pos == -1 then Width(ToS16(ToU16(codeLen - 1)), w.bits) else w)
  }

  // ---- the parser -------------------------------------------------------------------------------

  /** The frame parameters of the parse context. */
  class FrameParameters {
    var bootcode: seq<u16>
    var dc: seq<Delay>
    var bitnum: seq<Width>

    constructor ()
      ensures bootcode == [] && dc == [] && bitnum == []
    {
      bootcode, dc, bitnum := [], [], [];
    }

    method ParseNumbers(s: string) returns (ns: seq<u16>)
      ensures ns == Numbers(Split(s, ',', 0))
    {
      hide Number, Split;
      var fields := SplitFields(s);
      ns := [];
      var i := 0;
      while i < |fields|
        invariant 0 <= i <= |fields| && ns == Numbers(fields)[..i]
      {
        ns := ns + [Number(fields[i])];
        i := i + 1;
      }
    }

    method ParseBootCode(text: string)
      modifies this`bootcode
      ensures bootcode == Numbers(Split(text, ',', 0))
    {
      bootcode := ParseNumbers(text);
    }

    method SplitAtMark(buf: string) returns (start: string, data: string)
      ensures start == BeforeMark(buf) && data == AfterMark(buf)
    {
      start, data := [], [];
      var i := 0;
      while i < |buf|
        invariant 0 <= i <= |buf| && IndexOf(buf, '&', 0) == IndexOf(buf, '&', i)
        invariant start == [] && data == []
      {
        if buf[i] == '&' {
          start := buf[..i];
          data := buf[i + 1..];
          break;
        }
        i := i + 1;
      }
    }

    method ParseDelayCodePos(buf: string)
      modifies this`dc
      ensures dc == old(dc) + [ReadDelay(buf)]
    {
      hide Position, BeforeMark, AfterMark, Split;
      var start, data := SplitAtMark(buf);
      var times := ParseNumbers(data);
      dc := dc + [Delay(Position(start), times)];
    }

    method ParseDelayCode(text: string)
      modifies this`dc
      ensures dc == old(dc) + ReadDelays(Split(text, '|', 0))
    {
      hide ReadDelay, Split;
      var pieces := SplitPieces(text);
      var i := 0;
      while i < |pieces|
        invariant 0 <= i <= |pieces| && dc == old(dc) + ReadDelays(pieces)[..i]
      {
        ParseDelayCodePos(pieces[i]);
        i := i + 1;
      }
    }

    method ParseBitNumPos(buf: string)
      modifies this`bitnum
      ensures bitnum == old(bitnum) + [ReadWidth(buf)]
    {
      hide Position, Number, BeforeMark, AfterMark;
      var start, data := SplitAtMark(buf);
      bitnum := bitnum + [Width(Position(start), Number(data))];
    }

    method ParseBitNum(text: string, codeLen: nat)
      requires bitnum == []
      modifies this`bitnum
      ensures bitnum == ReadWidths(Split(text, '|', 0), codeLen)
    {
      hide ReadWidth, Split, ToS16, ToU16;
      var pieces := SplitPieces(text);
      var i := 0;
      while i < |pieces|
        invariant 0 <= i <= |pieces| && |bitnum| == i
        invariant forall k :: 0 <= k < i ==> bitnum[k] == ReadWidth(pieces[k])
      {
        ParseBitNumPos(pieces[i]);
        i := i + 1;
      }
      i := 0;
      while i < |bitnum|
        invariant 0 <= i <= |bitnum| == |pieces|
        invariant forall k :: 0 <= k < i ==> bitnum[k] == ReadWidths(pieces, codeLen)[k]
        invariant forall k :: i <= k < |bitnum| ==> bitnum[k] == ReadWidth(pieces[k])
      {
        if bitnum[i].pos == -1 {
          bitnum := bitnum[i := bitnum[i].(pos := ToS16(ToU16(codeLen - 1)))];
        }
        i := i + 1;
      }
    }
  }

  // ---- printing ---------------------------------------------------------------------------------

  function PrintNumbers(ns: seq<u16>): (fields: seq<string>)
    ensures |fields| == |ns|
  {
    seq(|ns|, i requires 0 <= i < |ns| => PrintInt(ns[i]))
  }

  /** A delay the table can hold: a 16-bit position and at least one duration. */
  predicate Printable(d: Delay) {
    -0x8000 <= d.pos < 0x8000 && d.times != []
  }

  function PrintDelay(d: Delay): string
    requires Printable(d)
  {
    PrintInt(d.pos) + ['&'] + Join(PrintNumbers(d.times), ',')
  }

  function PrintDelays(ds: seq<Delay>): (pieces: seq<string>)
    requires forall i :: 0 <= i < |ds| ==> Printable(ds[i])
    ensures |pieces| == |ds|
  {
    seq(|ds|, i requires 0 <= i < |ds| => PrintDelay(ds[i]))
  }

  lemma SixteenBits(n: int)
    ensures -0x8000 <= n < 0x8000 ==> ToS16(ToU16(n)) == n
    ensures 0 <= n < WORD ==> ToU16(n) == n
  {
  }

  lemma NumbersReadBack(ns: seq<u16>)
    requires ns != []
    ensures Numbers(Split(Join(PrintNumbers(ns), ','), ',', 0)) == ns
  {
    hide Split, Join, PrintInt, Atoi, ToU16;
    var fields := PrintNumbers(ns);
    forall i | 0 <= i < |ns|
      ensures Free(fields[i], ',') && Number(fields[i]) == ns[i]
    {
      NumberIsFree(ns[i], ',');
      NumberReadsBack(ns[i]);
      SixteenBits(ns[i]);
    }
    SplitJoin(fields, ',');
  }

  lemma DelayReadsBack(d: Delay)
    requires Printable(d)
    ensures ReadDelay(PrintDelay(d)) == d
  {
    hide Split, Join, PrintInt, Atoi, ToU16, ToS16, IndexOf, Numbers;
    var s, n := PrintDelay(d), |PrintInt(d.pos)|;
    NumberIsFree(d.pos, '&');
    assert forall k :: 0 <= k < n ==> s[k] == PrintInt(d.pos)[k];
    IndexPastField(s, '&', 0, n);
    assert s[..n] == PrintInt(d.pos) && s[n + 1..] == Join(PrintNumbers(d.times), ',');
    NumberReadsBack(d.pos);
    SixteenBits(d.pos);
    NumbersReadBack(d.times);
  }

  lemma {:induction false} JoinIsFree(fields: seq<string>, c: char, bar: char)
    requires fields != [] && c != bar && forall i :: 0 <= i < |fields| ==> Free(fields[i], bar)
    ensures Free(Join(fields, c), bar)
  {
    if |fields| > 1 {
      JoinIsFree(fields[1..], c, bar);
    }
  }

  lemma DelayIsFree(d: Delay)
    requires Printable(d)
    ensures Free(PrintDelay(d), '|')
  {
    hide Join, PrintInt;
    NumberIsFree(d.pos, '|');
    forall i | 0 <= i < |d.times|
      ensures Free(PrintNumbers(d.times)[i], '|')
    {
      NumberIsFree(d.times[i], '|');
    }
    JoinIsFree(PrintNumbers(d.times), ',', '|');
  }

  /** Parsing a printed delay table gives the table back, entry by entry and in order,
      negative positions included. */
  lemma DelaysReadBack(ds: seq<Delay>)
    requires ds != [] && forall i :: 0 <= i < |ds| ==> Printable(ds[i])
    ensures ReadDelays(Split(Join(PrintDelays(ds), '|'), '|', 0)) == ds
  {
    hide Split, Join, PrintDelay, ReadDelay;
    var pieces := PrintDelays(ds);
    forall i | 0 <= i < |ds|
      ensures Free(pieces[i], '|') && ReadDelay(pieces[i]) == ds[i]
    {
      DelayIsFree(ds[i]);
      DelayReadsBack(ds[i]);
    }
    SplitJoin(pieces, '|');
  }

  /** The same for bit widths, where position -1 stands for the last byte. */
  predicate PrintableWidth(w: Width) {
    -0x8000 <= w.pos < 0x8000 && w.bits < WORD
  }

  function PrintWidth(w: Width): string {
    PrintInt(w.pos) + ['&'] + PrintInt(w.bits)
  }

  function PrintWidths(ws: seq<Width>): (pieces: seq<string>)
    ensures |pieces| == |ws|
  {
    seq(|ws|, i requires 0 <= i < |ws| => PrintWidth(ws[i]))
  }

  lemma WidthReadsBack(w: Width)
    requires PrintableWidth(w)
    ensures ReadWidth(PrintWidth(w)) == w && Free(PrintWidth(w), '|')
  {
    hide PrintInt, Atoi, ToU16, ToS16, IndexOf;
    var s, n := PrintWidth(w), |PrintInt(w.pos)|;
    NumberIsFree(w.pos, '&');
    NumberIsFree(w.pos, '|');
    NumberIsFree(w.bits, '|');
    assert forall k :: 0 <= k < n ==> s[k] == PrintInt(w.pos)[k];
    IndexPastField(s, '&', 0, n);
    assert s[..n] == PrintInt(w.pos) && s[n + 1..] == PrintInt(w.bits);
    NumberReadsBack(w.pos);
    NumberReadsBack(w.bits);
    SixteenBits(w.pos);
    SixteenBits(w.bits);
  }

  lemma WidthsReadBack(ws: seq<Width>, codeLen: nat)
    requires ws != [] && forall i :: 0 <= i < |ws| ==> PrintableWidth(ws[i])
    requires 0 < codeLen < 0x8000
    ensures var read := ReadWidths(Split(Join(PrintWidths(ws), '|'), '|', 0), codeLen);
      && |read| == |ws|
      && forall i :: 0 <= i < |ws| ==> read[i] == Width(if ws[i].pos == -1 then codeLen - 1 else ws[i].pos, ws[i].bits)
  {
    hide Split, Join, PrintWidth, ReadWidth;
    var pieces := PrintWidths(ws);
    forall i | 0 <= i < |ws|
      ensures Free(pieces[i], '|') && ReadWidth(pieces[i]) == ws[i]
    {
      WidthReadsBack(ws[i]);
    }
    SixteenBits(codeLen - 1);
    SplitJoin(pieces, '|');
  }

  // ---- the parser's fixed buffers ------------------------------------------------------------------

  lemma {:induction false} NatLength(n: nat)
    requires n < 100000
    ensures |PrintNat(n)| <= 5
  {
    if n >= 10 {
      assert n / 10 < 10000;
      ShortNat(n / 10);
    }
  }

  lemma ShortNat(n: nat)
    requires n < 10000
    ensures |PrintNat(n)| <= 4
  {
    var a, b := n / 10, n / 10 / 10;
    assert b < 100 && |PrintNat(b)| <= 2;
    assert |PrintNat(a)| <= 3;
  }

  lemma {:induction false} JoinLength(fields: seq<string>, c: char, m: nat)
    requires fields != [] && forall i :: 0 <= i < |fields| ==> |fields[i]| <= m
    ensures |Join(fields, c)| <= (m + 1) * |fields| - 1
  {
    if |fields| > 1 {
      JoinLength(fields[1..], c, m);
    }
  }

  /** A printed delay of up to eight durations stays inside the 64, 16 and 8 character buffers
      its piece, its durations and its position are copied to, with their end marks. */
  lemma PrintedDelayFitsBuffers(d: Delay)
    requires Printable(d) && |d.times| <= 8
    ensures |PrintDelay(d)| < 64 && |PrintInt(d.pos)| < 8
    ensures forall i :: 0 <= i < |d.times| ==> |PrintNumbers(d.times)[i]| < 16
  {
    hide PrintNat, Join;
    NatLength(if d.pos < 0 then -d.pos else d.pos);
    var fields := PrintNumbers(d.times);
    forall i | 0 <= i < |d.times|
      ensures |fields[i]| <= 5
    {
      NatLength(d.times[i]);
    }
    JoinLength(fields, ',', 5);
  }
}

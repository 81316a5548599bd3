/** Reading checksum blocks: hex text, blocks separated by bars, each block announcing its
    length and kind. */
module AcChecksumText {
  import opened AcBits
  import opened AcChecksum
  import opened AcParse
  import opened TextFields

  datatype Reading = Bad | Good(b: Block)

  /** What a block announces is there. */
  predicate Complete(hex: seq<byte>) {
    && hex != []
    && (|hex| == Num(hex[0]) + 1 ==>
          |hex| >= 2 && (if Num(hex[1]) < SPEC_HALF_BYTE then |hex| >= 5 else |hex| >= 4))
  }

  function Nums(data: seq<byte>): (ns: seq<nat>)
    ensures |ns| == |data|
  {
    seq(|data|, i requires 0 <= i < |data| => Num(data[i]))
  }

  /** A block of summed bytes or half bytes; the constant may be missing. */
  function RangeBlock(hex: seq<byte>): Block
    requires |hex| >= 5
  {
    Block(Num(hex[0]), Num(hex[1]), Num(hex[2]), Num(hex[3]), Num(hex[4]), if |hex| > 5 then hex[5] else 0, [])
  }

  /** A block of listed half bytes. */
  function ListBlock(hex: seq<byte>): Block
    requires |hex| >= 4
  {
    Block(Num(hex[0]), Num(hex[1]), 0, 0, Num(hex[2]), hex[3], Nums(hex[4..]))
  }

  function ReadBlock(hex: seq<byte>): Reading
    requires Complete(hex)
  {
    if |hex| != Num(hex[0]) + 1 then Bad
    else if BYTE <= Num(hex[1]) <= HALF_BYTE_INVERSE then Good(RangeBlock(hex))
    else if SPEC_HALF_BYTE <= Num(hex[1]) <= SPEC_HALF_BYTE_INVERSE_ONE_BYTE then Good(ListBlock(hex))
    else Bad
  }

  predicate AllComplete(pieces: seq<string>) {
    forall i :: 0 <= i < |pieces| ==> Complete(ReadHex(pieces[i]))
  }

  predicate AllGood(pieces: seq<string>)
    requires AllComplete(pieces)
  {
    forall i :: 0 <= i < |pieces| ==> ReadBlock(ReadHex(pieces[i])).Good?
  }

  function BlocksOf(pieces: seq<string>): (bs: seq<Block>)
    requires AllComplete(pieces) && AllGood(pieces)
    ensures |bs| == |pieces|
  {
    seq(|pieces|, i requires 0 <= i < |pieces| => ReadBlock(ReadHex(pieces[i])).b)
  }

  // ---- the parser -------------------------------------------------------------------------------

  method ParseChecksumData(buf: string, length: nat) returns (r: Reading)
    requires length == |buf| / 2 && Complete(ReadHex(buf))
    ensures r == ReadBlock(ReadHex(buf))
  {
    hide Num, ReadHex;
    var hexData := new byte[length];
    StringToHexCommon(buf, hexData, length);
    var hex := hexData[..];
    assert hex == ReadHex(buf) by { EvenPart(buf); assert hex == hexData[..length]; }
    if length != Num(hex[0]) + 1 {
      return Bad;
    }
    var kind := Num(hex[1]);
    if kind == BYTE || kind == BYTE_INVERSE || kind == HALF_BYTE || kind == HALF_BYTE_INVERSE {
      var plus := if length > 5 then hex[5] else 0;
      return Good(Block(Num(hex[0]), kind, Num(hex[2]), Num(hex[3]), Num(hex[4]), plus, []));
    } else if SPEC_HALF_BYTE <= kind <= SPEC_HALF_BYTE_INVERSE_ONE_BYTE {
      return Good(Block(Num(hex[0]), kind, 0, 0, Num(hex[2]), hex[3], Nums(hex[4..])));
    }
    return Bad;
  }

  /** The length kept for the checksums: the text without its bars, halved, as a byte. */
  function KeptChecksumLen(text: string): int {
    (|text| - Count(text, '|', 0)) / 2 % 256
  }

  lemma {:induction false} PieceIsText(s: string, from: nat)
    requires from <= |s|
    ensures |s| - from - Count(s, '|', from) >= |Split(s, '|', from)[0]|
    decreases |s| - from
  {
    hide IndexOf;
    CountToIndex(s, '|', from);
    var i := IndexOf(s, '|', from);
    if i < |s| {
      PieceIsText(s, i + 1);
    }
  }

  /** Complete blocks are never kept as absent. */
  lemma BlocksArePresent(text: string)
    requires |text| < 256 && AllComplete(Split(text, '|', 0))
    ensures KeptChecksumLen(text) > 0
  {
    hide Split, TextFields.Count, ReadHex, Complete;
    PieceIsText(text, 0);
    FieldsAreSeparatorsPlusOne(text, '|', 0);
    CompleteHasText(Split(text, '|', 0)[0]);
  }

  lemma CompleteHasText(piece: string)
    requires Complete(ReadHex(piece))
    ensures |piece| >= 2
  {
    hide ReadHex, Num;
  }

  /** The loop that counts the bars; len is what is kept as the length. */
  method ParseChecksumMalloc(text: string) returns (len: int, count: nat)
    requires |text| < 256
    ensures len == KeptChecksumLen(text) && count == |Split(text, '|', 0)|
  {
    hide Split;
    FieldsAreSeparatorsPlusOne(text, '|', 0);
    var cnt := 0;
    var i := 0;
    while i < |text|
      invariant 0 <= i <= |text| && cnt + Count(text, '|', i) == Count(text, '|', 0)
    {
      if text[i] == '|' {
        cnt := cnt + 1;
      }
      i := i + 1;
    }
    len := (|text| - cnt) / 2 % 256;
    count := cnt + 1;
  }

  /** Reads all blocks; the first bad one fails the parse.  With a length of 0 none would be
      applied, but complete blocks never have it. */
  method ParseChecksum(text: string) returns (ok: bool, blocks: seq<Block>, len: int)
    requires |text| < 256 && AllComplete(Split(text, '|', 0))
    ensures ok <==> AllGood(Split(text, '|', 0))
    ensures ok ==> blocks == BlocksOf(Split(text, '|', 0))
    ensures len == KeptChecksumLen(text) > 0
  {
    hide Split, Complete, ReadBlock, ReadHex, KeptChecksumLen;
    BlocksArePresent(text);
    var count;
    len, count := ParseChecksumMalloc(text);
    blocks := [];
    var pieces := SplitPieces(text);
    var num := 0;
    while num < |pieces|
      invariant 0 <= num <= |pieces| && |blocks| == num
      invariant forall k :: 0 <= k < num ==> ReadBlock(ReadHex(pieces[k])) == Good(blocks[k])
    {
      var r := ParseChecksumData(pieces[num], |pieces[num]| / 2);
      if r.Bad? {
        return false, [], len;
      }
      blocks := blocks + [r.b];
      num := num + 1;
    }
    ok := true;
  }

  // ---- printing ----------------------------------------------------------------------------------

  /** A block with a canonical text: of a known kind, its length right, its parts bytes. */
  predicate Printable(b: Block) {
    && 0 < b.kind <= SPEC_HALF_BYTE_INVERSE_ONE_BYTE && b.target < 256
    && if b.SumsListed() then
         && |b.spec| == b.len - 3 && b.len < 256 && b.start == b.end == 0
         && forall i :: 0 <= i < |b.spec| ==> b.spec[i] < 256
       else
         b.start < 256 && b.end < 256 && b.spec == [] && (b.len == 5 || (b.len == 4 && b.plus == 0))
  }

  function Truncs(ns: seq<nat>): (data: seq<byte>)
    ensures |data| == |ns|
  {
    seq(|ns|, i requires 0 <= i < |ns| => Trunc(ns[i]))
  }

  function PrintBlock(b: Block): seq<byte>
    requires Printable(b)
  {
    if b.SumsListed() then [Trunc(b.len), Trunc(b.kind), Trunc(b.target), b.plus] + Truncs(b.spec)
    else if b.len == 5 then
      [Trunc(b.len), Trunc(b.kind), Trunc(b.start), Trunc(b.end), Trunc(b.target), b.plus]
    else [Trunc(b.len), Trunc(b.kind), Trunc(b.start), Trunc(b.end), Trunc(b.target)]
  }

  lemma BlockReadsBack(b: Block)
    requires Printable(b)
    ensures Complete(PrintBlock(b)) && ReadBlock(PrintBlock(b)) == Good(b)
  {
    hide Complete, ReadBlock, PrintBlock;
    if b.SumsListed() {
      ListReadsBack(b);
    } else {
      RangeReadsBack(b);
    }
  }

  lemma NumsOfTruncs(ns: seq<nat>)
    requires forall i :: 0 <= i < |ns| ==> ns[i] < 256
    ensures Nums(Truncs(ns)) == ns
  {
    hide Num, Trunc;
    forall i | 0 <= i < |ns|
      ensures Nums(Truncs(ns))[i] == ns[i]
    {
      NumOfTrunc(ns[i]);
    }
  }

  lemma ListReadsBack(b: Block)
    requires Printable(b) && b.SumsListed()
    ensures Complete(PrintBlock(b)) && ReadBlock(PrintBlock(b)) == Good(b)
  {
    hide Num, Trunc, Nums, Truncs, RangeBlock;
    SmallNum(b.len);
    SmallNum(b.kind);
    SmallNum(b.target);
    NumsOfTruncs(b.spec);
    assert PrintBlock(b)[4..] == Truncs(b.spec);
  }

  lemma RangeIsRead(hex: seq<byte>)
    requires |hex| >= 5 && |hex| == Num(hex[0]) + 1 && BYTE <= Num(hex[1]) <= HALF_BYTE_INVERSE
    ensures Complete(hex) && ReadBlock(hex) == Good(RangeBlock(hex))
  {
    hide Num, RangeBlock, ListBlock;
  }

  lemma SmallNum(n: nat)
    requires n < 256
    ensures Num(Trunc(n)) == n
  {
    hide Num, Trunc;
    NumOfTrunc(n);
  }

  lemma RangeReadsBack(b: Block)
    requires Printable(b) && !b.SumsListed()
    ensures Complete(PrintBlock(b)) && ReadBlock(PrintBlock(b)) == Good(b)
  {
    hide Num, Trunc, Complete, ReadBlock, RangeBlock;
    SmallNum(b.len);
    SmallNum(b.kind);
    SmallNum(b.target);
    SmallNum(b.start);
    SmallNum(b.end);
    RangeIsRead(PrintBlock(b));
    RangeOf(Trunc(b.len), Trunc(b.kind), Trunc(b.start), Trunc(b.end), Trunc(b.target), b.plus);
  }

  lemma RangeOf(len: byte, kind: byte, start: byte, end: byte, target: byte, plus: byte)
    ensures RangeBlock([len, kind, start, end, target, plus])
      == Block(Num(len), Num(kind), Num(start), Num(end), Num(target), plus, [])
    ensures RangeBlock([len, kind, start, end, target])
      == Block(Num(len), Num(kind), Num(start), Num(end), Num(target), 0, [])
  {
    hide Num;
  }

  lemma {:induction false} HexIsFree(data: seq<byte>)
    ensures Free(HexOf(data), '|')
  {
    if data != [] {
      HexIsFree(data[..|data| - 1]);
      HexByteIsFree(data[|data| - 1]);
      hide HexOfByte;
    }
  }

  lemma HalfByteIsFree(h: byte)
    requires h < 16
    ensures HalfByteToChar(h) != '|'
  {
  }

  lemma HexByteIsFree(b: byte)
    ensures Free(HexOfByte(b), '|')
  {
    hide HalfByteToChar;
    HalfByteIsFree((b >> 4) & 0x0F);
    HalfByteIsFree(b & 0x0F);
  }

  function PrintBlocks(bs: seq<Block>): (pieces: seq<string>)
    requires forall i :: 0 <= i < |bs| ==> Printable(bs[i])
    ensures |pieces| == |bs|
  {
    seq(|bs|, i requires 0 <= i < |bs| => HexOf(PrintBlock(bs[i])))
  }

  /** Printed blocks are read back, all of them and in order. */
  lemma BlocksReadBack(bs: seq<Block>)
    requires bs != [] && forall i :: 0 <= i < |bs| ==> Printable(bs[i])
    ensures var pieces := Split(Join(PrintBlocks(bs), '|'), '|', 0);
      AllComplete(pieces) && AllGood(pieces) && BlocksOf(pieces) == bs
  {
    hide Split, Join, PrintBlock, ReadBlock, Complete, HexOf, ReadHex, Printable;
    var pieces := PrintBlocks(bs);
    forall i | 0 <= i < |bs|
      ensures Free(pieces[i], '|') && Complete(ReadHex(pieces[i])) && ReadBlock(ReadHex(pieces[i])) == Good(bs[i])
    {
      HexIsFree(PrintBlock(bs[i]));
      HexReadsBack(PrintBlock(bs[i]));
      BlockReadsBack(bs[i]);
    }
    SplitJoin(pieces, '|');
  }

  // ---- what a block read can do -------------------------------------------------------------------

  /** A block that is read lists as many half bytes as its application will read, and is
      ignored exactly when that is none; otherwise it fits a code exactly when its positions
      lie inside. */
  lemma ReadBlockFitsIff(hex: seq<byte>, size: nat)
    requires Complete(hex) && ReadBlock(hex).Good?
    ensures var b := ReadBlock(hex).b;
      && (b.Active() <==> (b.SumsListed() ==> b.spec != []))
      && (b.SumsListed() ==> |b.spec| == b.len - 3)
      && (b.Fits(size) <==> b.Active() ==>
            b.TargetByte() < size
            && if b.SumsListed() then forall i :: 0 <= i < |b.spec| ==> b.spec[i] < 2 * size
               else b.start < b.end ==> b.end <= size)
  {
    hide Num;
  }
}

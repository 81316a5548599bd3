/** From the bytes of a status-type binary to the tables of its protocol: the tag table cuts
    the body into texts, and the texts are parsed. */
module AcBinary {
  import opened Words
  import opened Sequences
  import opened AcTags
  import opened AcProtocol
  import opened AcSetup
  import opened AcChecksumText
  import TextFields

  // ---- the texts of the tags ---------------------------------------------------------------------

  /** The tag numbers, in the order of the tag table. */
  const TAG_INDEX: seq<nat> :=
    [1, 2, 3, 4, 5, 6, 7,
     21, 22, 23, 24, 25, 26, 27, 28, 29, 30, 31, 32, 33, 34,
     41, 42, 43, 44, 45, 46, 47, 48]

  predicate IsTag(tag: nat) {
    1 <= tag <= 7 || 21 <= tag <= 34 || 41 <= tag <= 48
  }

  /** The place of a tag in the table. */
  function Position(tag: nat): (i: nat)
    requires IsTag(tag)
    ensures i < |TAG_INDEX| == TAG_COUNT && TAG_INDEX[i] == tag
  {
    if tag <= 7 then tag - 1 else if tag <= 34 then tag - 14 else tag - 20
  }

  function Chars(bytes: seq<u8>): (text: string)
    ensures |text| == |bytes|
  {
    seq(|bytes|, i requires 0 <= i < |bytes| => bytes[i] as char)
  }

  function Offsets(data: seq<u8>): (offs: seq<u16>)
    requires HEAD <= |data|
    ensures |offs| == TAG_COUNT
  {
    seq(TAG_COUNT, i requires 0 <= i < TAG_COUNT => Word(data, 1 + 2 * i))
  }

  /** The offsets are in order and inside the body. */
  predicate TagsInside(data: seq<u8>) {
    HEAD <= |data| < WORD && InOrder(Offsets(data), |data| - HEAD)
  }

  lemma TagFits(data: seq<u8>, i: nat)
    requires TagsInside(data) && Present(Offsets(data), i)
    ensures i < TAG_COUNT && HEAD + Offsets(data)[i] + TagLen(Offsets(data), i, |data| - HEAD) <= |data|
  {
    hide InOrder, TagLen, Offsets;
    TagsTileBody(Offsets(data), |data| - HEAD);
  }

  /** The bytes of the i-th tag, which end inside the binary; none for an absent one. */
  function TagBytes(data: seq<u8>, i: nat): seq<u8>
    requires TagsInside(data) && i < TAG_COUNT
  {
    var offs, n := Offsets(data), TagLen(Offsets(data), i, |data| - HEAD);
    if Present(offs, i) && HEAD + offs[i] + n <= |data| then data[HEAD + offs[i]..HEAD + offs[i] + n] else []
  }

  lemma TagBytesFill(data: seq<u8>, i: nat)
    requires TagsInside(data) && i < TAG_COUNT
    ensures |TagBytes(data, i)| == TagLen(Offsets(data), i, |data| - HEAD)
  {
    hide InOrder, Offsets, Limit;
    if Present(Offsets(data), i) {
      TagFits(data, i);
    }
  }

  function TagText(data: seq<u8>, tag: nat): string
    requires TagsInside(data) && IsTag(tag)
  {
    Chars(TagBytes(data, Position(tag)))
  }

  function TextsOf(data: seq<u8>): Texts
    requires TagsInside(data)
  {
    Texts(TagText(data, 21), TagText(data, 24), TagText(data, 31), TagText(data, 25), TagText(data, 32),
          TagText(data, 46), TagText(data, 26), TagText(data, 33), TagText(data, 23), TagText(data, 30),
          TagText(data, 29), TagText(data, 34), TagText(data, 27))
  }

  // ---- the parse --------------------------------------------------------------------------------------

  /** The text of a tag, by the offset and the length found for it. */
  method CutTag(data: seq<u8>, offs: array<u16>, lens: array<u16>, tag: nat) returns (text: string)
    requires TagsInside(data) && IsTag(tag) && offs.Length == lens.Length == TAG_COUNT
    requires offs[..] == Offsets(data)
    requires forall i :: 0 <= i < TAG_COUNT ==> lens[i] == TagLen(Offsets(data), i, |data| - HEAD)
    ensures text == TagText(data, tag)
  {
    hide InOrder, TagLen;
    var i := Position(tag);
    TagBytesFill(data, i);
    if lens[i] == 0 {
      return [];
    }
    AbsentIsEmpty(data, i);
    assert offs[i] == offs[..][i];
    text := Chars(data[HEAD + offs[i]..HEAD + offs[i] + lens[i]]);
  }

  lemma AbsentIsEmpty(data: seq<u8>, i: nat)
    requires TagsInside(data) && i < TAG_COUNT && TagBytes(data, i) != []
    ensures var offs := Offsets(data);
      Present(offs, i) && HEAD + offs[i] + TagLen(offs, i, |data| - HEAD) <= |data|
  {
    hide InOrder, TagLen, Offsets;
    if Present(Offsets(data), i) {
      TagFits(data, i);
    }
  }

  method CutTexts(data: seq<u8>, offs: array<u16>, lens: array<u16>) returns (texts: Texts)
    requires TagsInside(data) && offs.Length == lens.Length == TAG_COUNT
    requires offs[..] == Offsets(data)
    requires forall i :: 0 <= i < TAG_COUNT ==> lens[i] == TagLen(Offsets(data), i, |data| - HEAD)
    ensures texts == TextsOf(data)
  {
    hide TagLen, TagsInside, Offsets, TagText;
    var power1 := CutTag(data, offs, lens, 21);
    var mode1 := CutTag(data, offs, lens, 24);
    var mode2 := CutTag(data, offs, lens, 31);
    var speed1 := CutTag(data, offs, lens, 25);
    var speed2 := CutTag(data, offs, lens, 32);
    var swingInfo := CutTag(data, offs, lens, 46);
    var swing1 := CutTag(data, offs, lens, 26);
    var swing2 := CutTag(data, offs, lens, 33);
    var temp1 := CutTag(data, offs, lens, 23);
    var temp2 := CutTag(data, offs, lens, 30);
    var function1 := CutTag(data, offs, lens, 29);
    var function2 := CutTag(data, offs, lens, 34);
    var checksum := CutTag(data, offs, lens, 27);
    texts := Texts(power1, mode1, mode2, speed1, speed2, swingInfo, swing1, swing2, temp1, temp2,
                   function1, function2, checksum);
  }

  /** The whole parse: the tags are cut out of the binary and their texts are read. */
  method ParseBinary(data: seq<u8>, rest: Rest) returns (ok: bool, t: Tables)
    requires data != [] && (data[0] == TAG_COUNT ==> TagsInside(data) && TextsComplete(TextsOf(data)))
    ensures ok <==>
      data[0] == TAG_COUNT && (TagText(data, 27) != [] ==> AllGood(TextFields.Split(TagText(data, 27), '|', 0)))
    ensures ok ==> IsParsed(t, TextsOf(data))
  {
    hide TagLen, InOrder, IsParsed, TextFields.Split, AllGood, AllComplete, TagText;
    var found, offs, lens := BinaryParseOffset(data);
    if !found {
      return false, EMPTY;
    }
    BinaryParseLen(offs, lens, |data|);
    assert offs[..] == Offsets(data);
    var texts := CutTexts(data, offs, lens);
    ok, t := ParseTables(texts, rest);
  }

  // ---- printing ----------------------------------------------------------------------------------------

  /** Bytes for every tag, few enough for sixteen bits. */
  predicate Printable(parts: seq<seq<u8>>) {
    |parts| == TAG_COUNT && HEAD + |Flatten(parts)| < WORD
  }

  /** A present tag's offset is where its bytes start. */
  function PrintedOffset(parts: seq<seq<u8>>, i: nat): u16
    requires Printable(parts) && i < TAG_COUNT
  {
    GroupInFlatten(parts, i);
    if parts[i] == [] then INVALID else |Flatten(parts[..i])|
  }

  function PrintHead(parts: seq<seq<u8>>): (head: seq<u8>)
    requires Printable(parts)
    ensures |head| == HEAD
  {
    seq(HEAD, k requires 0 <= k < HEAD =>
      if k == 0 then TAG_COUNT
      else if k % 2 == 1 then PrintedOffset(parts, k / 2) % 0x100 else PrintedOffset(parts, k / 2 - 1) / 0x100)
  }

  function Print(parts: seq<seq<u8>>): seq<u8>
    requires Printable(parts)
  {
    PrintHead(parts) + Flatten(parts)
  }

  lemma OffsetReadsBack(parts: seq<seq<u8>>, i: nat)
    requires Printable(parts) && i < TAG_COUNT
    ensures Offsets(Print(parts))[i] == PrintedOffset(parts, i)
  {
    hide PrintedOffset, Flatten;
    var data := Print(parts);
    assert data[1 + 2 * i] == PrintedOffset(parts, i) % 0x100 && data[2 + 2 * i] == PrintedOffset(parts, i) / 0x100;
  }

  /** The limit of a printed tag is the end of its bytes: absent tags behind it have none. */
  lemma PrintedLimit(parts: seq<seq<u8>>, offs: seq<u16>, i: nat)
    requires Printable(parts) && i < TAG_COUNT && |offs| == TAG_COUNT
    requires forall k :: 0 <= k < TAG_COUNT ==> offs[k] == PrintedOffset(parts, k)
    ensures Limit(offs, i, |Flatten(parts)|) == |Flatten(parts[..i])| + |parts[i]|
  {
    hide Flatten, NextPresent;
    var j := NextPresent(offs, i + 1);
    forall k: nat | i + 1 <= k < j
      ensures parts[k] == []
    {
      assert !Present(offs, k);
      PrintedIsPresentIff(parts, k);
    }
    EmptyGroups(parts, i + 1, j);
    FlattenNext(parts, i);
    if j < TAG_COUNT {
      PrintedIsPresentIff(parts, j);
    } else {
      assert parts[..j] == parts;
    }
  }

  lemma PrintedIsPresentIff(parts: seq<seq<u8>>, i: nat)
    requires Printable(parts) && i < TAG_COUNT
    ensures PrintedOffset(parts, i) != INVALID <==> parts[i] != []
    ensures parts[i] != [] ==> PrintedOffset(parts, i) == |Flatten(parts[..i])|
  {
    hide Flatten;
    GroupInFlatten(parts, i);
  }

  lemma PrintedTagsInside(parts: seq<seq<u8>>)
    requires Printable(parts)
    ensures TagsInside(Print(parts)) && Print(parts)[0] == TAG_COUNT
  {
    hide Flatten, Limit, Offsets, PrintedOffset;
    var offs := Offsets(Print(parts));
    forall k: nat | k < TAG_COUNT
      ensures offs[k] == PrintedOffset(parts, k)
    {
      OffsetReadsBack(parts, k);
    }
    forall i: nat | i < TAG_COUNT && Present(offs, i)
      ensures offs[i] <= Limit(offs, i, |Flatten(parts)|)
    {
      PrintedLimit(parts, offs, i);
      PrintedIsPresentIff(parts, i);
    }
  }

  /** A binary printed from the bytes of its tags is cut back into them, whichever are absent. */
  lemma PrintedTagReadsBack(parts: seq<seq<u8>>, i: nat)
    requires Printable(parts) && i < TAG_COUNT
    ensures TagsInside(Print(parts)) && TagBytes(Print(parts), i) == parts[i]
  {
    hide Flatten, Limit, Offsets, PrintedOffset, NextPresent, PrintHead;
    PrintedTagsInside(parts);
    var data := Print(parts);
    var offs, flat := Offsets(data), Flatten(parts);
    forall k: nat | k < TAG_COUNT
      ensures offs[k] == PrintedOffset(parts, k)
    {
      OffsetReadsBack(parts, k);
    }
    PrintedIsPresentIff(parts, i);
    if parts[i] != [] {
      PrintedLimit(parts, offs, i);
      GroupInFlatten(parts, i);
      var at, n := |Flatten(parts[..i])|, |parts[i]|;
      SmallWraps(n);
      assert data[HEAD + at..HEAD + at + n] == flat[at..at + n];
    }
  }
}

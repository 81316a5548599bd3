/** Fields separated by a character, and decimal numbers in text, as the frame parameters
    are written. */
module TextFields {

  // ---- splitting ----------------------------------------------------------------------------------

  function IndexOf(s: string, c: char, from: nat): (i: nat)
    requires from <= |s|
    ensures from <= i <= |s| && (i < |s| ==> s[i] == c)
    ensures forall k :: from <= k < i ==> s[k] != c
    decreases |s| - from
  {
    if from == |s| || s[from] == c then from else IndexOf(s, c, from + 1)
  }

  /** The fields of s from a position on: always one more than there are separators. */
  function Split(s: string, c: char, from: nat): seq<string>
    requires from <= |s|
    decreases |s| - from
  {
    var i := IndexOf(s, c, from);
    if i == |s| then [s[from..]] else [s[from..i]] + Split(s, c, i + 1)
  }

  function Count(s: string, c: char, from: nat): nat
    requires from <= |s|
    decreases |s| - from
  {
    if from == |s| then 0 else (if s[from] == c then 1 else 0) + Count(s, c, from + 1)
  }

  lemma {:induction false} CountToIndex(s: string, c: char, from: nat)
    requires from <= |s|
    ensures var i := IndexOf(s, c, from);
      Count(s, c, from) == if i == |s| then 0 else 1 + Count(s, c, i + 1)
    decreases |s| - from
  {
    if from < |s| && s[from] != c {
      CountToIndex(s, c, from + 1);
    }
  }

  lemma {:induction false} FieldsAreSeparatorsPlusOne(s: string, c: char, from: nat)
    requires from <= |s|
    ensures |Split(s, c, from)| == Count(s, c, from) + 1
    decreases |s| - from
  {
    hide IndexOf, Count;
    CountToIndex(s, c, from);
    var i := IndexOf(s, c, from);
    if i < |s| {
      FieldsAreSeparatorsPlusOne(s, c, i + 1);
    }
  }

  lemma {:induction false} IndexPastField(s: string, c: char, from: nat, to: nat)
    requires from <= to <= |s| && (to < |s| ==> s[to] == c)
    requires forall k :: from <= k < to ==> s[k] != c
    ensures IndexOf(s, c, from) == to
    decreases |s| - from
  {
    if from < to {
      IndexPastField(s, c, from + 1, to);
    }
  }

  /** One step of a scanner that has found the end of a field. */
  lemma NextField(s: string, c: char, from: nat, to: nat)
    requires from <= to <= |s| && (to < |s| ==> s[to] == c)
    requires forall k :: from <= k < to ==> s[k] != c
    ensures Split(s, c, from) == [s[from..to]] + (if to < |s| then Split(s, c, to + 1) else [])
  {
    hide IndexOf;
    IndexPastField(s, c, from, to);
    assert s[from..|s|] == s[from..];
  }

  /** The fields from a position on; none just behind the end. */
  function Rest(s: string, c: char, from: nat): seq<string>
    requires from <= |s| + 1
  {
    if from <= |s| then Split(s, c, from) else []
  }

  /** A scanner with `fields` done that has found the end of the next one. */
  lemma FieldDone(s: string, c: char, fields: seq<string>, from: nat, to: nat)
    requires from <= to <= |s| && (to < |s| ==> s[to] == c)
    requires forall k :: from <= k < to ==> s[k] != c
    ensures fields + Rest(s, c, from) == (fields + [s[from..to]]) + Rest(s, c, to + 1)
  {
    hide Split;
    NextField(s, c, from, to);
    var f, rest := [s[from..to]], Rest(s, c, to + 1);
    assert Rest(s, c, from) == f + rest;
    assert fields + (f + rest) == (fields + f) + rest;
  }

  lemma RestIsAll(s: string, c: char)
    ensures [] + Rest(s, c, 0) == Split(s, c, 0)
  {
    hide Split;
  }

  lemma RestIsNothing(fields: seq<string>, s: string, c: char)
    ensures fields + Rest(s, c, |s| + 1) == fields
  {
    hide Split;
  }

  /** The scanner for comma-separated fields. */
  method SplitFields(s: string) returns (fields: seq<string>)
    ensures fields == Split(s, ',', 0)
  {
    hide Split, Rest;
    fields := [];
    RestIsAll(s, ',');
    var pos, index := 0, 0;
    while index <= |s|
      invariant 0 <= pos == index <= |s| + 1
      invariant fields + Rest(s, ',', index) == Split(s, ',', 0)
      decreases |s| + 1 - index
    {
      while index != |s| && s[index] != ','
        invariant pos <= index <= |s| && forall k :: pos <= k < index ==> s[k] != ','
      {
        index := index + 1;
      }
      FieldDone(s, ',', fields, pos, index);
      fields := fields + [s[pos..index]];
      pos := index + 1;
      index := pos;
    }
    RestIsNothing(fields, s, ',');
  }

  /** The scanner for the pieces between bars. */
  method SplitPieces(s: string) returns (pieces: seq<string>)
    ensures pieces == Split(s, '|', 0)
  {
    hide Split, Rest;
    pieces := [];
    RestIsAll(s, '|');
    var preindex := 0;
    var i := 0;
    while i < |s|
      invariant 0 <= preindex <= i <= |s|
      invariant forall k :: preindex <= k < i ==> s[k] != '|'
      invariant pieces + Rest(s, '|', preindex) == Split(s, '|', 0)
    {
      if s[i] == '|' {
        FieldDone(s, '|', pieces, preindex, i);
        pieces := pieces + [s[preindex..i]];
        preindex := i + 1;
      }
      i := i + 1;
    }
    FieldDone(s, '|', pieces, preindex, i);
    pieces := pieces + [s[preindex..i]];
    RestIsNothing(pieces, s, '|');
  }

  // ---- joining ------------------------------------------------------------------------------------

  predicate Free(s: string, c: char) {
    forall i :: 0 <= i < |s| ==> s[i] != c
  }

  function Join(fields: seq<string>, c: char): string
    requires fields != []
  {
    if |fields| == 1 then fields[0] else fields[0] + [c] + Join(fields[1..], c)
  }

  lemma {:induction false} SplitJoinAt(front: string, fields: seq<string>, c: char)
    requires fields != [] && forall i :: 0 <= i < |fields| ==> Free(fields[i], c)
    ensures Split(front + Join(fields, c), c, |front|) == fields
    decreases |fields|
  {
    hide Split, Join;
    var f, n := fields[0], |front|;
    JoinParts(fields, c);
    var s := front + Join(fields, c);
    assert s[n..n + |f|] == f;
    assert forall k :: n <= k < n + |f| ==> s[k] == f[k - n];
    NextField(s, c, n, n + |f|);
    if |fields| > 1 {
      SplitJoinAt(front + f + [c], fields[1..], c);
      assert s == (front + f + [c]) + Join(fields[1..], c);
      assert fields == [f] + fields[1..];
    } else {
      assert fields == [f];
    }
  }

  lemma JoinParts(fields: seq<string>, c: char)
    requires fields != []
    ensures Join(fields, c) == fields[0] + (if |fields| == 1 then [] else [c] + Join(fields[1..], c))
  {
  }

  /** Splitting what was joined gives the fields back. */
  lemma SplitJoin(fields: seq<string>, c: char)
    requires fields != [] && forall i :: 0 <= i < |fields| ==> Free(fields[i], c)
    ensures Split(Join(fields, c), c, 0) == fields
  {
    hide Split, Join;
    SplitJoinAt([], fields, c);
    assert [] + Join(fields, c) == Join(fields, c);
  }

  // ---- decimal numbers ----------------------------------------------------------------------------

  predicate IsDigit(c: char) {
    '0' <= c <= '9'
  }

  /** Digits are read as long as there are any. */
  function ReadDigits(s: string, acc: nat): nat {
    if s == [] || !IsDigit(s[0]) then acc else ReadDigits(s[1..], 10 * acc + (s[0] as int - '0' as int))
  }

  function SkipSpace(s: string): string {
    if s != [] && (s[0] == ' ' || '\t' <= s[0] <= '\r') then SkipSpace(s[1..]) else s
  }

  /** atoi: white space, a sign, digits; anything else ends the number. */
  function Atoi(s: string): int {
    var t := SkipSpace(s);
    if t != [] && t[0] == '-' then 0 - ReadDigits(t[1..], 0)
    else if t != [] && t[0] == '+' then ReadDigits(t[1..], 0)
    else ReadDigits(t, 0)
  }

  function DigitChar(d: nat): char
    requires d < 10
  {
    ('0' as int + d) as char
  }

  function PrintNat(n: nat): (s: string)
    ensures s != [] && forall i :: 0 <= i < |s| ==> IsDigit(s[i])
  {
    if n < 10 then [DigitChar(n)] else PrintNat(n / 10) + [DigitChar(n % 10)]
  }

  function PrintInt(n: int): string {
    if n < 0 then ['-'] + PrintNat(-n) else PrintNat(n)
  }

  lemma {:induction false} ReadDigitsAppend(a: string, b: string, acc: nat)
    requires forall i :: 0 <= i < |a| ==> IsDigit(a[i])
    ensures ReadDigits(a + b, acc) == ReadDigits(b, ReadDigits(a, acc))
    decreases |a|
  {
    if a == [] {
      assert a + b == b;
    } else {
      assert (a + b)[1..] == a[1..] + b;
      ReadDigitsAppend(a[1..], b, 10 * acc + (a[0] as int - '0' as int));
    }
  }

  lemma {:induction false} NatReadsBack(n: nat)
    ensures ReadDigits(PrintNat(n), 0) == n
  {
    hide ReadDigits;
    if n < 10 {
      OneDigit(n, 0);
    } else {
      NatReadsBack(n / 10);
      ReadDigitsAppend(PrintNat(n / 10), [DigitChar(n % 10)], 0);
      OneDigit(n % 10, n / 10);
    }
  }

  lemma OneDigit(d: nat, acc: nat)
    requires d < 10
    ensures ReadDigits([DigitChar(d)], acc) == 10 * acc + d
  {
    assert [DigitChar(d)][1..] == [];
  }

  lemma NumberReadsBack(n: int)
    ensures Atoi(PrintInt(n)) == n
  {
    var s := PrintInt(n);
    if n < 0 {
      NatReadsBack(-n);
      assert SkipSpace(s) == s && s[1..] == PrintNat(-n);
    } else {
      NatReadsBack(n);
      assert IsDigit(s[0]);
      assert SkipSpace(s) == s;
    }
  }

  lemma NumberIsFree(n: int, c: char)
    requires !IsDigit(c) && c != '-'
    ensures Free(PrintInt(n), c)
  {
    var s := PrintInt(n);
    if n < 0 {
      assert forall i :: 0 < i < |s| ==> s[i] == PrintNat(-n)[i - 1];
    }
  }
}

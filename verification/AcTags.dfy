/** The tag table of a status-type binary: a count, one 16-bit offset a tag, then the body.
    A tag's data runs from its offset to the next present tag's. */
module AcTags {
  import opened Words

  const TAG_COUNT: nat := 29
  const INVALID: nat := 0xFFFF
  const HEAD: nat := 2 * TAG_COUNT + 1

  predicate Present(offs: seq<u16>, i: nat) {
    i < |offs| && offs[i] != INVALID
  }

  /** The first present tag at or after i, or the number of tags. */
  function NextPresent(offs: seq<u16>, i: nat): (j: nat)
    requires i <= |offs|
    ensures i <= j <= |offs| && (j < |offs| ==> Present(offs, j))
    ensures forall k :: i <= k < j ==> !Present(offs, k)
    decreases |offs| - i
  {
    if i == |offs| || Present(offs, i) then i else NextPresent(offs, i + 1)
  }

  /** Where the data of tag i is meant to end: at the next present tag, or with the body. */
  function Limit(offs: seq<u16>, i: nat, body: int): int
    requires i < |offs|
  {
    var j := NextPresent(offs, i + 1);
    if j < |offs| then offs[j] else body
  }

  function Wrapped(n: int): u16 {
    n % WORD
  }

  /** The length computed for a tag, in 16 bits. */
  function TagLen(offs: seq<u16>, i: nat, body: int): u16
    requires i < |offs|
  {
    if Present(offs, i) then Wrapped(Limit(offs, i, body) - offs[i]) else 0
  }

  // ---- the parser ---------------------------------------------------------------------------------

  /** Reads the offsets; refuses a binary with another number of tags. */
  method BinaryParseOffset(data: seq<u8>) returns (ok: bool, offs: array<u16>, lens: array<u16>)
    requires |data| > 0 && (data[0] == TAG_COUNT ==> |data| >= HEAD)
    ensures ok <==> data[0] == TAG_COUNT
    ensures ok ==> fresh(offs) && fresh(lens) && offs != lens && offs.Length == lens.Length == TAG_COUNT
    ensures ok ==> forall i :: 0 <= i < TAG_COUNT ==> offs[i] == Word(data, 1 + 2 * i)
    ensures ok ==> forall i :: 0 <= i < TAG_COUNT && !Present(offs[..], i) ==> lens[i] == 0
  {
    ok := data[0] == TAG_COUNT;
    offs, lens := new u16[data[0]], new u16[data[0]];
    if !ok {
      return;
    }
    var i := 0;
    while i < TAG_COUNT
      invariant 0 <= i <= TAG_COUNT
      invariant forall k :: 0 <= k < i ==> offs[k] == Word(data, 1 + 2 * k)
      invariant forall k :: 0 <= k < i && offs[k] == INVALID ==> lens[k] == 0
    {
      offs[i] := Word(data, 1 + 2 * i);
      if offs[i] == INVALID {
        lens[i] := 0;
      }
      i := i + 1;
    }
  }

  /** Fills in the lengths of the present tags; the body is what follows the head. */
  method BinaryParseLen(offs: array<u16>, lens: array<u16>, total: u16)
    requires offs != lens && offs.Length == lens.Length > 0
    requires forall i :: 0 <= i < offs.Length && !Present(offs[..], i) ==> lens[i] == 0
    modifies lens
    ensures forall i :: 0 <= i < offs.Length ==> lens[i] == TagLen(offs[..], i, total - HEAD)
  {
    var n := offs.Length;
    ghost var os, body := offs[..], total - HEAD;
    var i := 0;
    while i < n - 1
      invariant 0 <= i <= n - 1 && offs[..] == os
      invariant forall k :: 0 <= k < i ==> lens[k] == TagLen(os, k, body)
      invariant forall k :: i <= k < n && !Present(os, k) ==> lens[k] == 0
    {
      if offs[i] != INVALID {
        var j := FindNext(offs, i + 1);
        if j < n {
          lens[i] := (offs[j] - offs[i]) % WORD;
        } else {
          lens[i] := (total - offs[i] - HEAD) % WORD;
          return;
        }
      }
      i := i + 1;
    }
    if offs[n - 1] != INVALID {
      lens[n - 1] := (total - HEAD - offs[n - 1]) % WORD;
    }
  }

  method FindNext(offs: array<u16>, from: nat) returns (j: nat)
    requires from <= offs.Length
    ensures j == NextPresent(offs[..], from)
  {
    j := from;
    while j < offs.Length
      invariant from <= j <= offs.Length && NextPresent(offs[..], from) == NextPresent(offs[..], j)
    {
      if offs[j] != INVALID {
        break;
      }
      j := j + 1;
    }
  }

  // ---- when the lengths tile the body ---------------------------------------------------------------

  /** Present offsets never decrease, and none lies beyond the body. */
  predicate InOrder(offs: seq<u16>, body: int) {
    forall i :: 0 <= i < |offs| && Present(offs, i) ==> offs[i] <= Limit(offs, i, body)
  }

  /** Each present tag's data ends exactly where the next present tag's begins, the last one's
      at the end of the body. */
  predicate Contiguous(offs: seq<u16>, body: int) {
    forall i :: 0 <= i < |offs| && Present(offs, i) ==> offs[i] + TagLen(offs, i, body) == Limit(offs, i, body)
  }

  /** The lengths are right exactly when the offsets are in order. */
  lemma ContiguousIffInOrder(offs: seq<u16>, body: int)
    requires body < WORD
    ensures Contiguous(offs, body) <==> InOrder(offs, body)
  {
    forall i | 0 <= i < |offs| && Present(offs, i)
      ensures offs[i] + TagLen(offs, i, body) == Limit(offs, i, body) <==> offs[i] <= Limit(offs, i, body)
    {
      LimitBelowWord(offs, i, body);
      LenRightIffInOrder(offs, i, body);
    }
  }

  lemma LimitBelowWord(offs: seq<u16>, i: nat, body: int)
    requires i < |offs| && body < WORD
    ensures Limit(offs, i, body) < WORD
  {
    hide NextPresent;
  }

  lemma LenRightIffInOrder(offs: seq<u16>, i: nat, body: int)
    requires i < |offs| && Present(offs, i) && Limit(offs, i, body) < WORD
    ensures offs[i] + TagLen(offs, i, body) == Limit(offs, i, body) <==> offs[i] <= Limit(offs, i, body)
  {
    hide Limit;
    if offs[i] <= Limit(offs, i, body) {
      SmallWraps(Limit(offs, i, body) - offs[i]);
    }
  }

  lemma SmallWraps(n: int)
    requires 0 <= n < WORD
    ensures Wrapped(n) == n
  {
  }

  lemma {:induction false} LaterStartsAfterLimit(offs: seq<u16>, body: int, i: nat, j: nat)
    requires InOrder(offs, body) && i < j && Present(offs, i) && Present(offs, j)
    ensures Limit(offs, i, body) <= offs[j]
    decreases j - i
  {
    hide NextPresent;
    var k := NextPresent(offs, i + 1);
    if k < j {
      LaterStartsAfterLimit(offs, body, k, j);
    }
  }

  lemma {:induction false} LimitInBody(offs: seq<u16>, body: int, i: nat)
    requires InOrder(offs, body) && Present(offs, i)
    ensures Limit(offs, i, body) <= body
    decreases |offs| - i
  {
    hide NextPresent;
    var k := NextPresent(offs, i + 1);
    if k < |offs| {
      LimitInBody(offs, body, k);
    }
  }

  /** The byte at p of the body belongs to tag i. */
  predicate Owns(offs: seq<u16>, body: int, i: nat, p: int) {
    Present(offs, i) && offs[i] <= p < offs[i] + TagLen(offs, i, body)
  }

  predicate Owned(offs: seq<u16>, body: int, p: int) {
    exists i :: 0 <= i < |offs| && Owns(offs, body, i, p)
  }

  /** The tag a byte belongs to. */
  function Owner(offs: seq<u16>, body: int, i: nat, p: int): (k: nat)
    requires Present(offs, i) && offs[i] <= p < body && InOrder(offs, body) && body < WORD
    ensures Owns(offs, body, k, p)
    decreases |offs| - i
  {
    ContiguousIffInOrder(offs, body);
    var j := NextPresent(offs, i + 1);
    if j < |offs| && offs[j] <= p then Owner(offs, body, j, p) else i
  }

  /** In order, the tags' data tile the body from the first present offset to its end: they
      stay inside, every byte belongs to a tag, and to one only. */
  lemma TagsTileBody(offs: seq<u16>, body: int)
    requires InOrder(offs, body) && body < WORD
    ensures forall i: nat :: i < |offs| && Present(offs, i) ==> offs[i] + TagLen(offs, i, body) <= body
    ensures var first := NextPresent(offs, 0);
      first < |offs| ==> forall p: int :: offs[first] <= p < body ==> Owned(offs, body, p)
    ensures forall p: int, i: nat, j: nat :: i < j < |offs| && Owns(offs, body, i, p) ==> !Owns(offs, body, j, p)
  {
    hide NextPresent, TagLen, Limit, InOrder;
    ContiguousIffInOrder(offs, body);
    forall i: nat | i < |offs| && Present(offs, i)
      ensures offs[i] + TagLen(offs, i, body) <= body
    {
      LimitInBody(offs, body, i);
    }
    var first := NextPresent(offs, 0);
    if first < |offs| {
      forall p: int | offs[first] <= p < body
        ensures Owned(offs, body, p)
      {
        var k := Owner(offs, body, first, p);
        assert Owns(offs, body, k, p);
      }
    }
    forall p: int, i: nat, j: nat | i < j < |offs| && Owns(offs, body, i, p)
      ensures !Owns(offs, body, j, p)
    {
      if Present(offs, j) {
        LaterStartsAfterLimit(offs, body, i, j);
      }
    }
  }

  // ---- the lengths add up -----------------------------------------------------------------------------

  function SumLens(offs: seq<u16>, body: int, i: nat): nat
    requires i <= |offs|
    decreases |offs| - i
  {
    if i == |offs| then 0 else TagLen(offs, i, body) + SumLens(offs, body, i + 1)
  }

  /** Whatever the offsets, the lengths from the first present tag on add up, modulo 2^16, to
      the rest of the body. */
  lemma {:induction false} LengthsTelescope(offs: seq<u16>, body: int, i: nat)
    requires i <= |offs|
    ensures var j := NextPresent(offs, i);
      SumLens(offs, body, i) % WORD == if j < |offs| then (body - offs[j]) % WORD else 0
    decreases |offs| - i
  {
    if i < |offs| {
      LengthsTelescope(offs, body, i + 1);
      if Present(offs, i) {
        var j := NextPresent(offs, i + 1);
        if j < |offs| {
          WrappedSum(offs[j] as int - offs[i] as int, SumLens(offs, body, i + 1), body - offs[j]);
        } else {
          WrappedSum(body - offs[i], SumLens(offs, body, i + 1), 0);
        }
      }
    }
  }

  lemma WrappedSum(a: int, s: int, b: int)
    requires s % WORD == b % WORD
    ensures (Wrapped(a) + s) % WORD == (a + b) % WORD
  {
    WordMultiple(Wrapped(a) + s, a / WORD);
    WordMultiple(a + b, s / WORD - b / WORD);
  }

  lemma WordMultiple(x: int, k: int)
    ensures (x + WORD * k) % WORD == x % WORD
  {
  }
}

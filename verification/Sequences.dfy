/** Sequences of sequences. */
module Sequences {

  /** Groups, one after the other. */
  function Flatten<T>(groups: seq<seq<T>>): seq<T> {
    if groups == [] then [] else Flatten(groups[..|groups| - 1]) + groups[|groups| - 1]
  }

  lemma FlattenNext<T>(groups: seq<seq<T>>, i: nat)
    requires i < |groups|
    ensures Flatten(groups[..i + 1]) == Flatten(groups[..i]) + groups[i]
  {
    assert groups[..i + 1][..i] == groups[..i];
  }

  /** Each group stands where the ones before it end. */
  lemma {:induction false} GroupInFlatten<T>(groups: seq<seq<T>>, i: nat)
    requires i < |groups|
    ensures |Flatten(groups[..i])| + |groups[i]| <= |Flatten(groups)|
    ensures Flatten(groups)[|Flatten(groups[..i])|..|Flatten(groups[..i])| + |groups[i]|] == groups[i]
    decreases |groups|
  {
    var n := |groups| - 1;
    var init, at := groups[..n], |Flatten(groups[..i])|;
    FlattenNext(groups, n);
    assert groups[..n + 1] == groups;
    hide Flatten;
    if i < n {
      GroupInFlatten(init, i);
      assert init[..i] == groups[..i];
      SliceOfPrefix(Flatten(init), groups[n], at, at + |groups[i]|);
    }
  }

  lemma SliceOfPrefix<T>(c: seq<T>, s: seq<T>, from: nat, to: nat)
    requires from <= to <= |c|
    ensures (c + s)[from..to] == c[from..to]
  {
  }

  /** Empty groups do not move what follows. */
  lemma {:induction false} EmptyGroups<T>(groups: seq<seq<T>>, i: nat, j: nat)
    requires i <= j <= |groups| && forall k :: i <= k < j ==> groups[k] == []
    ensures Flatten(groups[..i]) == Flatten(groups[..j])
    decreases j
  {
    if i < j {
      EmptyGroups(groups, i, j - 1);
      FlattenNext(groups, j - 1);
    }
  }
}

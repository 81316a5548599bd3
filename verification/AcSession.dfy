/** Runs of control calls: where the wind direction gets to, and what a call's frame can
    depend on. */
module AcSession {
  import opened Words
  import opened Halving
  import opened AcProtocol
  import opened AcRemote

  /** Right after a parse. */
  const START := Wind(0, 0)

  predicate ValidCalls(calls: seq<Call>) {
    forall i :: 0 <= i < |calls| ==> ValidCall(calls[i])
  }

  function Run(p: Protocol, w: Wind, calls: seq<Call>): Wind
    requires ValidCalls(calls)
  {
    if calls == [] then w else WindAfter(p, Run(p, w, calls[..|calls| - 1]), calls[|calls| - 1])
  }

  // ---- the wind direction -----------------------------------------------------------------------

  /** A swing press that moves the fixed direction on. */
  predicate MovesOn(p: Protocol, c: Call)
    requires ValidCall(c)
  {
    ReachesSwing(p, c) && c.func == WIND_FIX && c.change
  }

  function Moves(p: Protocol, calls: seq<Call>): nat
    requires ValidCalls(calls)
  {
    if calls == [] then 0
    else Moves(p, calls[..|calls| - 1]) + (if MovesOn(p, calls[|calls| - 1]) then 1 else 0)
  }

  /** The last call that reached the swing stage with a swing function was a wind-fix. */
  predicate FixedLast(p: Protocol, calls: seq<Call>)
    requires ValidCalls(calls)
  {
    if calls == [] then false
    else
      var c := calls[|calls| - 1];
      if ReachesSwing(p, c) && c.func == WIND_FIX then true
      else if ReachesSwing(p, c) && c.func == WIND_SWING then false
      else FixedLast(p, calls[..|calls| - 1])
  }

  /** The direction after n moves among m modes: mode 0 is swing, the fixed ones cycle. */
  function DirectionAfter(n: nat, m: nat): nat
    requires m > 1
  {
    if n == 0 then 0 else (n - 1) % (m - 1) + 1
  }

  lemma NextDirection(n: nat, m: nat)
    requires m > 1
    ensures DirectionAfter(n, m) < m
    ensures DirectionAfter(n + 1, m) == if DirectionAfter(n, m) + 1 == m then 1 else DirectionAfter(n, m) + 1
  {
    if n > 0 {
      NextRemainder(n - 1, m - 1);
    }
  }

  lemma NextRemainder(a: nat, d: nat)
    requires d > 0
    ensures (a + 1) % d == if a % d + 1 == d then 0 else a % d + 1
  {
    var q, r := a / d, a % d;
    if r + 1 == d {
      assert a + 1 == d * (q + 1);
      ModUnique(a + 1, d, q + 1, 0);
    } else {
      ModUnique(a + 1, d, q, r + 1);
    }
  }

  /** After any run from a parse, in normal mode with several modes, the direction index is
      fixed by the number of moves, and the swing status is that direction or 0 (swing)
      according to the last swing function that got through. */
  lemma {:induction false} DirectionIsNumberOfMoves(p: Protocol, calls: seq<Call>)
    requires ValidCalls(calls) && p.swingInfo.kind.Normal? && p.swingInfo.modeCount > 1
    ensures var w := Run(p, START, calls);
      && w.dir == DirectionAfter(Moves(p, calls), p.swingInfo.modeCount)
      && w.swing == (if FixedLast(p, calls) then w.dir else 0)
  {
    hide ReachesSwing, DirectionAfter;
    if calls == [] {
      NoMoves(p.swingInfo.modeCount);
    } else {
      var init := calls[..|calls| - 1];
      DirectionIsNumberOfMoves(p, init);
      NextDirection(Moves(p, init), p.swingInfo.modeCount);
    }
  }

  lemma NoMoves(m: nat)
    requires m > 1
    ensures DirectionAfter(0, m) == 0
  {
  }

  /** Over any run, the swing status is a level the swing tables have, if they have any. */
  lemma {:induction false} SwingStaysInTable(p: Protocol, calls: seq<Call>)
    requires ValidCalls(calls)
    ensures p.swingInfo.kind.Normal? ==>
      (Run(p, START, calls).swing < p.swingInfo.modeCount <==> p.swingInfo.modeCount > 0)
    ensures !(p.swingInfo.kind.Normal? && p.swingInfo.modeCount > 1) ==> Run(p, START, calls).swing == 0
  {
    hide ReachesSwing, DirectionAfter;
    if p.swingInfo.kind.Normal? && p.swingInfo.modeCount > 1 {
      DirectionIsNumberOfMoves(p, calls);
      NextDirection(Moves(p, calls), p.swingInfo.modeCount);
    } else if calls != [] {
      SwingStaysInTable(p, calls[..|calls| - 1]);
    }
  }

  /** A swing table that is present has no patches for the level, or no levels at all. */
  predicate NoPatches(p: Protocol, t: Table, level: nat) {
    t.len != 0 && (p.swingInfo.modeCount == 0 || (level < |t.comps| && t.comps[level] == []))
  }

  /** On no run is a swing level refused for lying outside the table, unless the parse counted
      no modes: it is refused only when the table has no patches for it. */
  lemma SwingRefusedOnlyWhenEmpty(p: Protocol, calls: seq<Call>)
    requires ValidCalls(calls)
    ensures var k := Run(p, START, calls).swing;
      SwingChoice(p, k).Refuse? <==>
        NoPatches(p, p.swing1, k) || (p.swing1.len == 0 && NoPatches(p, p.swing2, k))
  {
    hide Run;
    SwingStaysInTable(p, calls);
  }

  // ---- what a frame depends on --------------------------------------------------------------------

  /** The outputs of a run of calls, one after the other. */
  function Outputs(p: Protocol, w: Wind, calls: seq<Call>): (outs: seq<seq<u16>>)
    requires ValidCalls(calls)
    ensures |outs| == |calls|
  {
    if calls == [] then [] else
      var n := |calls| - 1;
      Outputs(p, w, calls[..n]) + [Output(p, Run(p, w, calls[..n]), calls[n])]
  }

  lemma {:induction false} OutputAt(p: Protocol, w: Wind, calls: seq<Call>, n: nat)
    requires ValidCalls(calls) && n < |calls|
    ensures Outputs(p, w, calls)[n] == Output(p, Run(p, w, calls[..n]), calls[n])
  {
    hide Output, Run;
    var m := |calls| - 1;
    if n < m {
      OutputAt(p, w, calls[..m], n);
      assert calls[..m][..n] == calls[..n];
    }
  }

  lemma NextOutput(p: Protocol, w: Wind, calls: seq<Call>, n: nat)
    requires ValidCalls(calls) && n < |calls|
    ensures Run(p, w, calls[..n + 1]) == WindAfter(p, Run(p, w, calls[..n]), calls[n])
    ensures Outputs(p, w, calls[..n + 1]) == Outputs(p, w, calls[..n]) + [Outputs(p, w, calls)[n]]
  {
    hide Output, WindAfter;
    assert calls[..n + 1][..n] == calls[..n];
    OutputAt(p, w, calls, n);
  }

  lemma NoOutputs(p: Protocol, w: Wind)
    ensures Run(p, w, []) == w && Outputs(p, w, []) == []
  {
  }

  /** A run of calls on one remote, each with a buffer of its own or a used one: whatever the
      buffers and the code buffer held, the outputs are the ones of the run. */
  method ControlAll(remote: Remote, calls: seq<Call>, buffers: seq<array<u16>>) returns (outs: seq<seq<u16>>)
    requires remote.Valid() && ValidCalls(calls) && |buffers| == |calls|
    requires forall i :: 0 <= i < |buffers| ==> buffers[i] as object != remote.hexCode as object
    requires forall i :: 0 <= i < |calls| ==>
      |Outputs(remote.p, remote.CurrentWind(), calls)[i]| <= buffers[i].Length
      && |Outputs(remote.p, remote.CurrentWind(), calls)[i]| < WORD
    modifies remote, remote.hexCode, remote.builder, set i | 0 <= i < |buffers| :: buffers[i]
    ensures remote.Valid()
    ensures outs == Outputs(remote.p, old(remote.CurrentWind()), calls)
    ensures remote.CurrentWind() == Run(remote.p, old(remote.CurrentWind()), calls)
  {
    hide Output, WindAfter, Run, Outputs;
    ghost var p, w := remote.p, remote.CurrentWind();
    outs := [];
    var n := 0;
    NoOutputs(p, w);
    assert calls[..0] == [];
    while n < |calls|
      invariant 0 <= n <= |calls| && remote.Valid()
      invariant remote.CurrentWind() == Run(p, w, calls[..n]) && outs == Outputs(p, w, calls[..n])
    {
      OutputAt(p, w, calls, n);
      NextOutput(p, w, calls, n);
      var len := remote.LibControl(calls[n], buffers[n]);
      outs := outs + [buffers[n][..len]];
      n := n + 1;
    }
    assert calls[..n] == calls;
  }

  /** A call that is not a swing function leaves the wind where it was. */
  predicate KeepsWind(c: Call) {
    c.func != WIND_SWING && c.func != WIND_FIX
  }

  lemma {:induction false} WindKept(p: Protocol, w: Wind, calls: seq<Call>, more: seq<Call>)
    requires ValidCalls(calls) && ValidCalls(more)
    requires forall i :: 0 <= i < |more| ==> KeepsWind(more[i])
    ensures ValidCalls(calls + more)
    ensures Run(p, w, calls + more) == Run(p, w, calls)
  {
    if more == [] {
      assert calls + more == calls;
    } else {
      var m := |more| - 1;
      WindKept(p, w, calls, more[..m]);
      assert (calls + more)[..|calls + more| - 1] == calls + more[..m];
    }
  }

  /** Nothing accumulates: whatever calls come in between, as long as they do not swing, the
      same call sends the same frame again.  In particular a dynamic temperature is added to
      the default code once, not once a call. */
  lemma SameCallSameFrame(p: Protocol, w: Wind, calls: seq<Call>, between: seq<Call>, c: Call)
    requires ValidCalls(calls) && ValidCalls(between) && ValidCall(c)
    requires KeepsWind(c) && forall i :: 0 <= i < |between| ==> KeepsWind(between[i])
    ensures var run := calls + [c] + between + [c];
      && ValidCalls(run)
      && Outputs(p, w, run)[|calls|] == Outputs(p, w, run)[|run| - 1]
  {
    hide Output, Run, Outputs;
    var run := calls + [c] + between + [c];
    var more := [c] + between;
    OutputAt(p, w, run, |calls|);
    OutputAt(p, w, run, |run| - 1);
    WindKept(p, w, calls, more);
    assert run[..|calls|] == calls;
    assert run[..|run| - 1] == calls + more;
  }
}

/** Run-length pulse trains: what the transmitter's time buffer means as a signal.

    A train lists durations; even entries are marks (carrier on), odd entries are
    spaces.  The emitter adds one pulse at a time, merging it into the last entry
    when the level does not change.  Entries are 16 bits wide in the decoder, so the
    emitter is described twice: `Push` adds exactly, `PushW` wraps. */
module TvSignal {

  import opened Words
  import opened Sequences

  datatype Pulse = Mark(ticks: u16) | Space(ticks: u16)

  // ---- the two emitters -------------------------------------------------------

  /** Adds one pulse, durations unbounded.  A space before anything was emitted is dropped. */
  function Push(t: seq<nat>, p: Pulse): seq<nat> {
    if p.Mark? == (|t| % 2 == 0) then t + [p.ticks]
    else if t == [] then t
    else t[|t| - 1 := t[|t| - 1] + p.ticks]
  }

  /** Adds one pulse as the 16-bit buffer does it. */
  function PushW(t: seq<u16>, p: Pulse): seq<u16> {
    if p.Mark? == (|t| % 2 == 0) then t + [p.ticks]
    else if t == [] then t
    else t[|t| - 1 := (t[|t| - 1] + p.ticks) % WORD]
  }

  function PushAll(t: seq<nat>, ps: seq<Pulse>): seq<nat> {
    if ps == [] then t else Push(PushAll(t, ps[..|ps| - 1]), ps[|ps| - 1])
  }

  function PushAllW(t: seq<u16>, ps: seq<Pulse>): seq<u16> {
    if ps == [] then t else PushW(PushAllW(t, ps[..|ps| - 1]), ps[|ps| - 1])
  }

  lemma {:induction false} PushAllAppend(t: seq<u16>, ps: seq<Pulse>, qs: seq<Pulse>)
    ensures PushAllW(t, ps + qs) == PushAllW(PushAllW(t, ps), qs)
  {
    if qs == [] {
      assert ps + qs == ps;
    } else {
      var n := |qs| - 1;
      PushAllAppend(t, ps, qs[..n]);
      assert (ps + qs)[..|ps + qs| - 1] == ps + qs[..n];
    }
  }

  lemma PushNone(t: seq<u16>)
    ensures PushAllW(t, []) == t
  {
  }

  lemma PushAllOne(t: seq<u16>, p: Pulse)
    ensures PushAllW(t, [p]) == PushW(t, p)
  {
    assert [p][..0] == [];
  }

  lemma PushAllTwo(t: seq<u16>, p: Pulse, q: Pulse)
    ensures PushAllW(t, [p, q]) == PushW(PushW(t, p), q)
  {
    PushAllOne(t, p);
    assert [p, q][..1] == [p];
  }

  lemma {:induction false} PushAllGrows(t: seq<u16>, ps: seq<Pulse>)
    ensures |t| <= |PushAllW(t, ps)| <= |t| + |ps|
  {
    if ps != [] {
      PushAllGrows(t, ps[..|ps| - 1]);
    }
  }

  lemma {:induction false} GroupsGrow(t: seq<u16>, groups: seq<seq<Pulse>>, i: nat)
    requires i <= |groups|
    ensures |PushAllW(t, Flatten(groups[..i]))| <= |PushAllW(t, Flatten(groups))|
    decreases |groups| - i
  {
    if i < |groups| {
      var ps := Flatten(groups[..i]);
      assert groups[..i + 1][..i] == groups[..i];
      PushAllAppend(t, ps, groups[i]);
      PushAllGrows(PushAllW(t, ps), groups[i]);
      GroupsGrow(t, groups, i + 1);
    } else {
      assert groups[..i] == groups;
    }
  }

  lemma NextGroup(t: seq<u16>, groups: seq<seq<Pulse>>, i: nat)
    requires i < |groups|
    ensures |PushAllW(t, Flatten(groups[..i + 1]))| <= |PushAllW(t, Flatten(groups))|
    ensures PushAllW(t, Flatten(groups[..i + 1])) == PushAllW(PushAllW(t, Flatten(groups[..i])), groups[i])
  {
    assert groups[..i + 1][..i] == groups[..i];
    GroupsGrow(t, groups, i + 1);
    PushAllAppend(t, Flatten(groups[..i]), groups[i]);
  }

  // ---- meaning ----------------------------------------------------------------

  function Hold(high: bool, n: nat): seq<bool> {
    seq(n, _ => high)
  }

  /** The signal a train stands for: one level per tick. */
  function Expand(t: seq<nat>): seq<bool> {
    if t == [] then [] else Expand(t[..|t| - 1]) + Hold(|t| % 2 == 1, t[|t| - 1])
  }

  /** The signal a list of pulses asks for: plain concatenation. */
  function Signal(ps: seq<Pulse>): seq<bool> {
    if ps == [] then [] else Signal(ps[..|ps| - 1]) + Hold(ps[|ps| - 1].Mark?, ps[|ps| - 1].ticks)
  }

  /** The pulses that are heard: spaces before the first mark are silence anyway. */
  function Heard(ps: seq<Pulse>): seq<Pulse> {
    if ps == [] then [] else if ps[0].Space? then Heard(ps[1..]) else ps
  }

  lemma {:induction false} HeardSnoc(ps: seq<Pulse>, p: Pulse)
    ensures Heard(ps + [p]) == if Heard(ps) == [] && p.Space? then [] else Heard(ps) + [p]
  {
    if ps == [] {
      assert ps + [p] == [p] && [p][1..] == [];
    } else if ps[0].Space? {
      HeardSnoc(ps[1..], p);
      assert (ps + [p])[1..] == ps[1..] + [p];
    }
  }

  lemma {:induction false} ExpandAppend(t: seq<nat>, n: nat)
    ensures Expand(t + [n]) == Expand(t) + Hold(|t| % 2 == 0, n)
  {
    var u := t + [n];
    assert u[..|u| - 1] == t && u[|u| - 1] == n;
    assert (|u| % 2 == 1) == (|t| % 2 == 0);
  }

  lemma {:induction false} ExpandMerge(t: seq<nat>, n: nat)
    requires t != []
    ensures Expand(t[|t| - 1 := t[|t| - 1] + n]) == Expand(t) + Hold(|t| % 2 == 1, n)
  {
    var k, high := |t| - 1, |t| % 2 == 1;
    assert t[k := t[k] + n][..k] == t[..k];
    assert Hold(high, t[k] + n) == Hold(high, t[k]) + Hold(high, n);
  }

  lemma {:induction false} ExpandPush(t: seq<nat>, p: Pulse)
    requires t != [] || p.Mark?
    ensures Expand(Push(t, p)) == Expand(t) + Hold(p.Mark?, p.ticks)
  {
    if p.Mark? == (|t| % 2 == 0) {
      ExpandAppend(t, p.ticks);
    } else {
      ExpandMerge(t, p.ticks);
    }
  }

  lemma PushAllSnoc(t: seq<nat>, ps: seq<Pulse>, p: Pulse)
    ensures PushAll(t, ps + [p]) == Push(PushAll(t, ps), p)
  {
    assert (ps + [p])[..|ps|] == ps;
  }

  lemma SignalSnoc(ps: seq<Pulse>, p: Pulse)
    ensures Signal(ps + [p]) == Signal(ps) + Hold(p.Mark?, p.ticks)
  {
    assert (ps + [p])[..|ps|] == ps;
  }

  /** The merge machine refines concatenation of level signals. */
  lemma {:induction false} ExactEmitterRefinesConcatenation(ps: seq<Pulse>)
    ensures Expand(PushAll([], ps)) == Signal(Heard(ps))
    ensures PushAll([], ps) == [] <==> Heard(ps) == []
  {
    if ps != [] {
      var init, p := ps[..|ps| - 1], ps[|ps| - 1];
      assert ps == init + [p];
      ExactEmitterRefinesConcatenation(init);
      EmitterStep(init, p);
    }
  }

  lemma EmitterStep(init: seq<Pulse>, p: Pulse)
    requires Expand(PushAll([], init)) == Signal(Heard(init))
    requires PushAll([], init) == [] <==> Heard(init) == []
    ensures Expand(PushAll([], init + [p])) == Signal(Heard(init + [p]))
    ensures PushAll([], init + [p]) == [] <==> Heard(init + [p]) == []
  {
    hide PushAll, Signal, Heard, Expand;
    PushAllSnoc([], init, p);
    HeardSnoc(init, p);
    SignalSnoc(Heard(init), p);
    if Heard(init) != [] || p.Mark? {
      ExpandPush(PushAll([], init), p);
    }
  }

  // ---- sixteen bits -----------------------------------------------------------

  function Wrap(t: seq<nat>): (w: seq<u16>)
    ensures |w| == |t|
  {
    seq(|t|, i requires 0 <= i < |t| => t[i] % WORD)
  }

  predicate Fits(t: seq<nat>) {
    forall i :: 0 <= i < |t| ==> t[i] < WORD
  }

  lemma WrapPush(t: seq<nat>, p: Pulse)
    ensures Wrap(Push(t, p)) == PushW(Wrap(t), p)
  {
    var w := Wrap(t);
    if p.Mark? != (|t| % 2 == 0) && t != [] {
      var n := |t| - 1;
      assert (t[n] + p.ticks) % WORD == (t[n] % WORD + p.ticks) % WORD;
      assert Wrap(Push(t, p)) == w[n := (w[n] + p.ticks) % WORD];
    } else {
      assert Wrap(Push(t, p)) == PushW(w, p);
    }
  }

  /** The buffer always holds the exact train, entry by entry, modulo 2^16. */
  lemma {:induction false} BufferIsExactTrainModuloWord(ps: seq<Pulse>)
    ensures PushAllW([], ps) == Wrap(PushAll([], ps))
  {
    if ps != [] {
      var n := |ps| - 1;
      BufferIsExactTrainModuloWord(ps[..n]);
      WrapPush(PushAll([], ps[..n]), ps[n]);
    }
  }

  function Total(t: seq<nat>): nat {
    if t == [] then 0 else Total(t[..|t| - 1]) + t[|t| - 1]
  }

  lemma {:induction false} ExpandLength(t: seq<nat>)
    ensures |Expand(t)| == Total(t)
  {
    if t != [] {
      ExpandLength(t[..|t| - 1]);
    }
  }

  lemma {:induction false} WrapTotal(t: seq<nat>)
    ensures Total(Wrap(t)) <= Total(t)
    ensures Total(Wrap(t)) == Total(t) <==> Fits(t)
  {
    if t != [] {
      var n := |t| - 1;
      WrapTotal(t[..n]);
      assert Wrap(t)[..n] == Wrap(t[..n]);
      assert t[n] % WORD <= t[n] && (t[n] % WORD == t[n] <==> t[n] < WORD);
      assert Fits(t) <==> Fits(t[..n]) && t[n] < WORD;
    }
  }

  lemma ExpandWrap(t: seq<nat>)
    ensures Expand(Wrap(t)) == Expand(t) <==> Fits(t)
  {
    WrapTotal(t);
    ExpandLength(t);
    ExpandLength(Wrap(t));
    if Fits(t) {
      assert Wrap(t) == t;
    }
  }

  /** What the buffer expands to is the requested signal exactly when no run of one
      level is longer than a 16-bit entry can hold. */
  lemma BufferIsFaithfulIffRunsFit(ps: seq<Pulse>)
    ensures Expand(PushAllW([], ps)) == Signal(Heard(ps)) <==> Fits(PushAll([], ps))
  {
    var t := PushAll([], ps);
    ExactEmitterRefinesConcatenation(ps);
    BufferIsExactTrainModuloWord(ps);
    ExpandWrap(t);
  }

  // ---- run-length codes are canonical ---------------------------------------------

  predicate Positive(t: seq<nat>) {
    forall i :: 0 <= i < |t| ==> t[i] > 0
  }

  /** The length of the last run of one level. */
  function LastRun(s: seq<bool>): nat {
    var n := |s|;
    if n < 2 then n else if s[n - 1] != s[n - 2] then 1 else 1 + LastRun(s[..n - 1])
  }

  lemma {:induction false} LastRunHold(s: seq<bool>, high: bool, n: nat)
    requires n > 0 && (s == [] || s[|s| - 1] != high)
    ensures LastRun(s + Hold(high, n)) == n
  {
    if n > 1 {
      LastRunHold(s, high, n - 1);
      assert (s + Hold(high, n))[..|s| + n - 1] == s + Hold(high, n - 1);
    }
  }

  lemma {:induction false} ExpandEnds(t: seq<nat>)
    requires t != [] && Positive(t)
    ensures Expand(t) == Expand(t[..|t| - 1]) + Hold(|t| % 2 == 1, t[|t| - 1])
    ensures Expand(t) != [] && Expand(t)[|Expand(t)| - 1] == (|t| % 2 == 1)
    ensures LastRun(Expand(t)) == t[|t| - 1]
  {
    hide LastRun;
    var n := |t| - 1;
    if n > 0 {
      ExpandEnds(t[..n]);
    }
    LastRunHold(Expand(t[..n]), |t| % 2 == 1, t[n]);
  }

  lemma ExpandEmpty()
    ensures Expand([]) == []
  {
  }

  lemma LastRunIsLastEntry(t: seq<nat>, u: seq<nat>)
    requires Positive(t) && Positive(u) && Expand(t) == Expand(u) && t != []
    ensures u != [] && t[|t| - 1] == u[|u| - 1]
    ensures Expand(t[..|t| - 1]) == Expand(u[..|u| - 1])
  {
    hide Expand, LastRun;
    ExpandEnds(t);
    ExpandEmpty();
    if u != [] {
      ExpandEnds(u);
      var n, e := t[|t| - 1], Expand(t);
      assert Expand(t[..|t| - 1]) == e[..|e| - n];
      assert Expand(u[..|u| - 1]) == e[..|e| - n];
    }
  }

  /** No two trains of positive durations stand for the same signal. */
  lemma {:induction false} SignalDeterminesTrain(t: seq<nat>, u: seq<nat>)
    requires Positive(t) && Positive(u)
    requires Expand(t) == Expand(u)
    ensures t == u
    decreases |t|
  {
    if t != [] {
      LastRunIsLastEntry(t, u);
      SignalDeterminesTrain(t[..|t| - 1], u[..|u| - 1]);
    } else if u != [] {
      ExpandEnds(u);
    }
  }
}

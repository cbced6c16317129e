/**
 How deep a number stands below smaller ones it depends on: the length of the longest
 chain of dependencies that leads up to it.
 */
module Depths {

  /** Whether a larger number depends on a smaller one. */
  type Relation = (nat, nat) -> bool

  ghost function Depth(r: Relation, i: nat): nat
    decreases i, i + 1
  {
    DepthBelow(r, i, i)
  }

  ghost function DepthBelow(r: Relation, i: nat, j: nat): nat
    requires j <= i
    decreases i, j
  {
    if j == 0 then 0
    else
      var d := DepthBelow(r, i, j - 1);
      if r(j - 1, i) && Depth(r, j - 1) >= d then Depth(r, j - 1) + 1 else d
  }

  lemma {:induction false} DepthBelowBounds(r: Relation, i: nat, j: nat, a: nat)
    requires a < j <= i && r(a, i)
    ensures Depth(r, a) < DepthBelow(r, i, j)
  {
    if a < j - 1 {
      DepthBelowBounds(r, i, j - 1, a);
    }
  }

  lemma {:induction false} DepthBelowReached(r: Relation, i: nat, j: nat) returns (a: nat)
    requires j <= i && DepthBelow(r, i, j) > 0
    ensures a < j && r(a, i) && Depth(r, a) + 1 == DepthBelow(r, i, j)
  {
    var d := DepthBelow(r, i, j - 1);
    if r(j - 1, i) && Depth(r, j - 1) >= d {
      a := j - 1;
    } else {
      a := DepthBelowReached(r, i, j - 1);
    }
  }

  lemma {:induction false} DepthBelowIsSmall(r: Relation, i: nat, j: nat)
    requires j <= i
    ensures DepthBelow(r, i, j) <= j
    decreases i, j
  {
    if j > 0 {
      DepthBelowIsSmall(r, i, j - 1);
      DepthBelowIsSmall(r, j - 1, j - 1);
    }
  }

  /** Whoever depends on a number stands strictly deeper. */
  lemma Deepens(r: Relation, a: nat, i: nat)
    requires a < i && r(a, i)
    ensures Depth(r, a) < Depth(r, i)
  {
    DepthBelowBounds(r, i, i, a);
  }

  /** A number below the surface depends on one just above it. */
  lemma Reached(r: Relation, i: nat) returns (a: nat)
    requires Depth(r, i) > 0
    ensures a < i && r(a, i) && Depth(r, a) + 1 == Depth(r, i)
  {
    a := DepthBelowReached(r, i, i);
  }

  lemma DepthIsSmall(r: Relation, i: nat)
    ensures Depth(r, i) <= i
  {
    DepthBelowIsSmall(r, i, i);
  }

  // ---------------------------------------------------------------- chains

  /** Ever larger numbers, each depending on the one before. */
  ghost predicate Chain(r: Relation, c: seq<nat>) {
    forall i :: 0 <= i < |c| - 1 ==> c[i] < c[i + 1] && r(c[i], c[i + 1])
  }

  lemma {:induction false} ChainIsNoLonger(r: Relation, c: seq<nat>)
    requires Chain(r, c) && c != []
    ensures |c| - 1 <= Depth(r, c[|c| - 1])
  {
    hide Depth;
    if |c| > 1 {
      var n := |c| - 1;
      ChainIsNoLonger(r, c[..n]);
      assert c[n - 1] < c[n - 1 + 1] && r(c[n - 1], c[n - 1 + 1]);
      Deepens(r, c[n - 1], c[n]);
    }
  }

  /** The depth is the length of a longest chain leading up to it. */
  lemma {:induction false} DepthIsLongestChain(r: Relation, i: nat) returns (c: seq<nat>)
    ensures Chain(r, c) && |c| == Depth(r, i) + 1 && c[|c| - 1] == i
    ensures forall d :: Chain(r, d) && d != [] && d[|d| - 1] == i ==> |d| <= |c|
    decreases i
  {
    hide Depth;
    if Depth(r, i) == 0 {
      c := [i];
    } else {
      var a := Reached(r, i);
      var c' := DepthIsLongestChain(r, a);
      c := c' + [i];
    }
    forall d | Chain(r, d) && d != [] && d[|d| - 1] == i ensures |d| <= |c| {
      ChainIsNoLonger(r, d);
    }
  }

  /** Any other numbering that puts what depends on a number on a later level needs at
      least as many. */
  lemma {:induction false} NoLevellingIsShorter(r: Relation, level: seq<nat>, i: nat)
    requires i < |level| && forall a, b :: 0 <= a < b < |level| && r(a, b) ==> level[a] < level[b]
    ensures level[i] >= Depth(r, i)
    decreases i
  {
    hide Depth;
    if Depth(r, i) > 0 {
      var a := Reached(r, i);
      NoLevellingIsShorter(r, level, a);
    }
  }
}

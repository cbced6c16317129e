/**
 The order the cycle-tolerant sort determines: there is one for given lists of arcs, and
 it depends on how the arcs of a vertex are listed exactly if some vertex frees two
 others at once.
 */
module SortOrder {
  import opened Sequences
  import opened Digraph
  import opened TopologicalSort

  lemma NextFreed(g: Graph, done: seq<nat>, v: nat)
    requires IsNext(g, Marks(|g|, done), Counts(g, Marks(|g|, done)), v) && v !in done
    ensures Freed(g, done, v) || (IsChoice(g, Marks(|g|, done), Counts(g, Marks(|g|, done)), v) && forall u: nat :: !Freed(g, done, u))
  {
    hide InCount;
    var sorted := Marks(|g|, done);
    InCountZero(g, sorted, v, |g|);
    if IsChoice(g, sorted, Counts(g, sorted), v) {
      forall u: nat ensures !Freed(g, done, u) {
        if u < |g| && u !in done {
          InCountZero(g, sorted, u, |g|);
          assert Counts(g, sorted)[u] > 0;
        }
      }
    }
  }

  lemma StepAt(g: Graph, order: seq<nat>, n: nat)
    requires IsSortOrder(g, order) && n < |order|
    ensures order[n] !in order[..n] && IsNext(g, Marks(|g|, order[..n]), Counts(g, Marks(|g|, order[..n])), order[n])
  {
    hide IsNext, InLine;
  }

  lemma {:induction false} NotBoth(arcs: seq<nat>, u: nat, v: nat, i: nat)
    requires EndsBefore(arcs, u, v) && EndsBefore(arcs, v, u) && i < |arcs|
    ensures arcs[i] != u && arcs[i] != v
    decreases |arcs| - i
  {
    if arcs[i] == u || arcs[i] == v {
      var w := if arcs[i] == u then v else u;
      assert Later(arcs, i, w);
      var j :| i < j < |arcs| && arcs[j] == w;
      NotBoth(arcs, u, v, j);
    }
  }

  /** The vertex that frees another has an arc to it. */
  lemma FreedByArcTo(g: Graph, order: seq<nat>, n: nat, v: nat)
    requires JustFreed(g, order, n, v)
    ensures n < |order| && order[n] < |g| && v in g[order[n]]
  {
    assert order[..n + 1] == order[..n] + [order[n]];
  }

  /** Of two vertices free after `n` steps one order serves the same first as the other. */
  lemma FirstInLine(g: Graph, a: seq<nat>, b: seq<nat>, n: nat)
    requires IsSortOrder(g, a) && IsSortOrder(g, b) && n < |a| && n < |b| && a[..n] == b[..n]
    requires Freed(g, a[..n], a[n]) && Freed(g, a[..n], b[n])
    ensures a[n] == b[n]
  {
    hide Stepwise, Freed, EndsBefore;
    var u, v := a[n], b[n];
    if u != v {
      FreedIsOut(g, a[..n], u);
      FreedIsOut(g, a[..n], v);
      var j := LaterIn(g, a, n, v);
      var i := LaterIn(g, b, n, u);
      forall m: nat | m <= n ensures Freed(g, a[..m], u) <==> Freed(g, a[..m], v) {
        assert a[..m] == a[..n][..m] == b[..m];
      }
      assert a[..0] == [];
      if Freed(g, a[..0], u) {
        assert false;
      }
      var m := FirstFreed(g, a, n, u);
      assert a[..m] == a[..n][..m] == b[..m] && a[..m + 1] == a[..n][..m + 1] == b[..m + 1];
      assert a[m] == a[..n][m] == b[m];
      assert JustFreed(g, a, m, a[n]) && JustFreed(g, a, m, a[j]) && JustFreed(g, b, m, b[n]) && JustFreed(g, b, m, b[i]);
      FreedByArcTo(g, a, m, u);
      var x :| 0 <= x < |g[a[m]]| && g[a[m]][x] == u;
      NotBoth(g[a[m]], u, v, x);
    }
  }

  lemma FreedIsOut(g: Graph, done: seq<nat>, v: nat)
    requires Freed(g, done, v)
    ensures v < |g| && v !in done
  {
  }

  lemma LaterIn(g: Graph, a: seq<nat>, n: nat, v: nat) returns (j: nat)
    requires IsSortOrder(g, a) && n < |a| && v < |g| && v !in a[..n] && v != a[n]
    ensures n < j < |a| && a[j] == v
  {
    hide InLine, Stepwise;
    assert v in a;
    assert forall x :: 0 <= x < n ==> a[x] == a[..n][x] && a[..n][x] in a[..n];
    j :| 0 <= j < |a| && a[j] == v;
  }

  lemma {:induction false} FirstFreed(g: Graph, a: seq<nat>, n: nat, u: nat) returns (m: nat)
    requires n <= |a| && Freed(g, a[..n], u) && !Freed(g, a[..0], u)
    ensures m < n && JustFreed(g, a, m, u)
  {
    hide Freed;
    m := n - 1;
    if Freed(g, a[..m], u) {
      m := FirstFreed(g, a, m, u);
    }
  }

  /** There is one such order. */
  lemma {:induction false} OrderIsOne(g: Graph, a: seq<nat>, b: seq<nat>, n: nat)
    requires IsSortOrder(g, a) && IsSortOrder(g, b) && n <= |a| == |b|
    ensures a[..n] == b[..n]
  {
    hide InCount, Freed, InLine, Stepwise;
    if n > 0 {
      var m := n - 1;
      OrderIsOne(g, a, b, m);
      StepAt(g, a, m);
      StepAt(g, b, m);
      NextFreed(g, a[..m], a[m]);
      NextFreed(g, b[..m], b[m]);
      if Freed(g, a[..m], a[m]) {
        FirstInLine(g, a, b, m);
      }
      assert a[..n] == a[..m] + [a[m]] && b[..n] == b[..m] + [b[m]];
    }
  }

  // ------------------------------------------------ the arcs in any order

  /** The same arcs, without parallel ones, listed in any order. */
  ghost predicate Alike(g: Graph, g': Graph) {
    |g| == |g'| && forall u :: 0 <= u < |g| ==> SameArcs(g[u], g'[u])
  }

  ghost predicate SameArcs(a: seq<nat>, b: seq<nat>) {
    Distinct(a) && Distinct(b) && forall v :: v in a <==> v in b
  }

  /** No vertex of the order frees two others. */
  ghost predicate NoTies(g: Graph, order: seq<nat>) {
    forall n: nat, u: nat, v: nat :: JustFreed(g, order, n, u) && JustFreed(g, order, n, v) ==> u == v
  }

  lemma {:induction false} OccursOnce(arcs: seq<nat>, v: nat)
    requires Distinct(arcs)
    ensures Occurrences(arcs, v) == if v in arcs then 1 else 0
  {
    if arcs != [] {
      var n := |arcs| - 1;
      OccursOnce(arcs[..n], v);
      OccursIff(arcs[..n], v);
      assert arcs == arcs[..n] + [arcs[n]];
    }
  }

  lemma {:induction false} SameCount(g: Graph, g': Graph, sorted: seq<bool>, v: nat, n: nat)
    requires Alike(g, g') && n <= |g| == |sorted|
    ensures InCount(g, sorted, v, n) == InCount(g', sorted, v, n)
  {
    if n > 0 {
      SameCount(g, g', sorted, v, n - 1);
      assert SameArcs(g[n - 1], g'[n - 1]);
      OccursOnce(g[n - 1], v);
      OccursOnce(g'[n - 1], v);
    }
  }

  lemma SameFreed(g: Graph, g': Graph, done: seq<nat>, v: nat)
    requires Alike(g, g')
    ensures Freed(g, done, v) <==> Freed(g', done, v)
  {
    assert forall u :: 0 <= u < |g| ==> SameArcs(g[u], g'[u]);
  }

  lemma SameNext(g: Graph, g': Graph, sorted: seq<bool>, v: nat)
    requires Alike(g, g') && |sorted| == |g| && IsNext(g, sorted, Counts(g, sorted), v)
    ensures IsNext(g', sorted, Counts(g', sorted), v)
  {
    hide InCount, SameArcs, Distinct;
    forall u | 0 <= u < |g| ensures Counts(g, sorted)[u] == Counts(g', sorted)[u] && |g[u]| == |g'[u]| {
      SameCount(g, g', sorted, u, |g|);
      assert SameArcs(g[u], g'[u]);
      SameSize(g[u], g'[u]);
    }
  }

  lemma SameSize(a: seq<nat>, b: seq<nat>)
    requires SameArcs(a, b)
    ensures |a| == |b|
  {
    DistinctSize(a);
    DistinctSize(b);
    assert Elements(a) == Elements(b);
  }

  /** Without ties every listing of the arcs leads to the order. */
  lemma ListingIsFree(g: Graph, g': Graph, order: seq<nat>)
    requires IsSortOrder(g, order) && NoTies(g, order) && Alike(g, g')
    ensures IsSortOrder(g', order)
  {
    hide IsNext, Freed, SameArcs;
    forall i | 0 <= i < |order|
      ensures
        var sorted := Marks(|g'|, order[..i]);
        IsNext(g', sorted, Counts(g', sorted), order[i])
    {
      SameNext(g, g', Marks(|g|, order[..i]), order[i]);
    }
    forall done: seq<nat>, v: nat ensures Freed(g, done, v) <==> Freed(g', done, v) {
      SameFreed(g, g', done, v);
    }
    AlikeBack(g, g');
    forall n: nat, u: nat, v: nat | JustFreed(g', order, n, u) && JustFreed(g', order, n, v) ensures u == v {
      SameJustFreed(g', g, order, n, u);
      SameJustFreed(g', g, order, n, v);
    }
    NoTiesByArc(g', order);
  }

  lemma AlikeBack(g: Graph, g': Graph)
    requires Alike(g, g')
    ensures Alike(g', g)
  {
    assert forall u :: 0 <= u < |g| ==> SameArcs(g[u], g'[u]);
  }

  lemma NoTiesByArc(g: Graph, order: seq<nat>)
    requires NoTies(g, order) && Distinct(order)
    ensures ByArc(g, order, order)
  {
    hide JustFreed;
  }

  ghost function Turned(arcs: seq<nat>): seq<nat> {
    seq(|arcs|, i requires 0 <= i < |arcs| => arcs[|arcs| - 1 - i])
  }

  lemma TurnedIsSame(arcs: seq<nat>)
    requires Distinct(arcs)
    ensures SameArcs(arcs, Turned(arcs))
  {
    var back := Turned(arcs);
    forall v ensures v in arcs <==> v in back {
      if v in arcs {
        var i :| 0 <= i < |arcs| && arcs[i] == v;
        assert back[|arcs| - 1 - i] == v;
      }
    }
  }

  /** Without parallel arcs the last arc is the only one. */
  lemma EndsIs(arcs: seq<nat>, i: nat, j: nat)
    requires Distinct(arcs) && i < |arcs| && j < |arcs|
    ensures EndsBefore(arcs, arcs[i], arcs[j]) <==> i < j
  {
    if EndsBefore(arcs, arcs[i], arcs[j]) {
      assert Later(arcs, i, arcs[j]);
    }
    if i < j {
      assert forall x :: 0 <= x < |arcs| && arcs[x] == arcs[i] ==> x == i;
    }
  }

  lemma TurnedEnds(arcs: seq<nat>, u: nat, v: nat)
    requires Distinct(arcs) && u in arcs && v in arcs && u != v
    ensures EndsBefore(arcs, u, v) <==> EndsBefore(Turned(arcs), v, u)
    ensures EndsBefore(arcs, u, v) <==> !EndsBefore(arcs, v, u)
  {
    hide EndsBefore;
    var n := |arcs| - 1;
    var i :| 0 <= i < |arcs| && arcs[i] == u;
    var j :| 0 <= j < |arcs| && arcs[j] == v;
    TurnedIsSame(arcs);
    EndsIs(arcs, i, j);
    EndsIs(arcs, j, i);
    EndsIs(Turned(arcs), n - j, n - i);
  }

  /** With a tie another listing of the arcs does not lead to the order. */
  lemma ListingMatters(g: Graph, order: seq<nat>, n: nat, u: nat, v: nat) returns (g': Graph)
    requires IsSortOrder(g, order) && forall w :: 0 <= w < |g| ==> Distinct(g[w])
    requires JustFreed(g, order, n, u) && JustFreed(g, order, n, v) && u != v
    ensures Alike(g, g') && !IsSortOrder(g', order)
  {
    hide IsSortOrder, JustFreed, SameArcs, EndsBefore;
    FreedByArcTo(g, order, n, u);
    FreedByArcTo(g, order, n, v);
    var arcs := g[order[n]];
    g' := g[order[n] := Turned(arcs)];
    TurnedIsSame(arcs);
    forall w | 0 <= w < |g| ensures SameArcs(g[w], g'[w]) {
      ArcsAreSame(g[w]);
    }
    SameJustFreed(g, g', order, n, u);
    SameJustFreed(g, g', order, n, v);
    var i := FreedStands(g, order, n, u);
    var j := FreedStands(g, order, n, v);
    TieIsBroken(g, order, n, i, j);
    TurnedEnds(arcs, u, v);
    TurnedEnds(arcs, v, u);
    if IsSortOrder(g', order) {
      TieIsBroken(g', order, n, i, j);
    }
  }

  lemma ArcsAreSame(arcs: seq<nat>)
    requires Distinct(arcs)
    ensures SameArcs(arcs, arcs)
  {
  }

  lemma SameJustFreed(g: Graph, g': Graph, order: seq<nat>, n: nat, v: nat)
    requires Alike(g, g') && JustFreed(g, order, n, v)
    ensures JustFreed(g', order, n, v)
  {
    hide Freed, Alike;
    SameFreed(g, g', order[..n], v);
    SameFreed(g, g', order[..n + 1], v);
  }

  /** Two that one vertex frees stand in the order of its arcs. */
  lemma TieIsBroken(g: Graph, order: seq<nat>, n: nat, i: nat, j: nat)
    requires IsSortOrder(g, order) && n < i < |order| && n < j < |order| && i != j
    requires JustFreed(g, order, n, order[i]) && JustFreed(g, order, n, order[j])
    ensures order[n] < |g|
    ensures if i < j then EndsBefore(g[order[n]], order[i], order[j]) else EndsBefore(g[order[n]], order[j], order[i])
  {
    hide JustFreed, EndsBefore, Stepwise, InTurn, ByIndex;
  }

  lemma FreedStands(g: Graph, order: seq<nat>, n: nat, v: nat) returns (i: nat)
    requires IsSortOrder(g, order) && JustFreed(g, order, n, v)
    ensures n < i < |order| && order[i] == v
  {
    hide InLine, Stepwise;
    assert v in order && v !in order[..n + 1];
    assert forall x :: 0 <= x <= n ==> order[x] == order[..n + 1][x] && order[..n + 1][x] in order[..n + 1];
    i :| 0 <= i < |order| && order[i] == v;
  }

  /** Every listing of the arcs leads to the order exactly if no vertex frees two others. */
  lemma ListingIsFreeIff(g: Graph, order: seq<nat>)
    requires IsSortOrder(g, order) && forall w :: 0 <= w < |g| ==> Distinct(g[w])
    ensures NoTies(g, order) <==> forall g' :: Alike(g, g') ==> IsSortOrder(g', order)
  {
    hide IsSortOrder, JustFreed, Alike;
    if NoTies(g, order) {
      forall g' | Alike(g, g') ensures IsSortOrder(g', order) {
        ListingIsFree(g, g', order);
      }
    } else {
      var n: nat, u: nat, v: nat :| JustFreed(g, order, n, u) && JustFreed(g, order, n, v) && u != v;
      var g' := ListingMatters(g, order, n, u, v);
    }
  }
}

/**
 The cycle-tolerant topological sort that ranks address queues: vertices without
 unsorted predecessors go first; when there are none, the cycle is broken at the
 unsorted vertex with the fewest of them.
 */
module TopologicalSort {
  import opened Sequences
  import opened Digraph

  const MAX_INT64: int := 0x7FFF_FFFF_FFFF_FFFF

  // ------------------------------------------------------- counting arcs

  function Occurrences(arcs: seq<nat>, v: nat): nat {
    if arcs == [] then 0
    else Occurrences(arcs[..|arcs| - 1], v) + if arcs[|arcs| - 1] == v then 1 else 0
  }

  lemma {:induction false} OccursIff(arcs: seq<nat>, v: nat)
    ensures Occurrences(arcs, v) > 0 <==> v in arcs
  {
    if arcs != [] {
      var n := |arcs| - 1;
      OccursIff(arcs[..n], v);
      assert arcs == arcs[..n] + [arcs[n]];
    }
  }

  /** How many arcs lead to `v` from unsorted vertices among the first `n`. */
  function InCount(g: Graph, sorted: seq<bool>, v: nat, n: nat): nat
    requires n <= |g| == |sorted|
  {
    if n == 0 then 0
    else InCount(g, sorted, v, n - 1) + if sorted[n - 1] then 0 else Occurrences(g[n - 1], v)
  }

  /** Sorting `top` takes its arcs out of the count. */
  lemma {:induction false} InCountMark(g: Graph, sorted: seq<bool>, v: nat, n: nat, top: nat)
    requires n <= |g| == |sorted| && top < |g| && !sorted[top]
    ensures InCount(g, sorted[top := true], v, n)
         == InCount(g, sorted, v, n) - if top < n then Occurrences(g[top], v) else 0
  {
    if n > 0 {
      InCountMark(g, sorted, v, n - 1, top);
    }
  }

  lemma {:induction false} InCountZero(g: Graph, sorted: seq<bool>, v: nat, n: nat)
    requires n <= |g| == |sorted|
    ensures InCount(g, sorted, v, n) == 0 <==> forall u :: 0 <= u < n && !sorted[u] ==> v !in g[u]
  {
    if n > 0 {
      InCountZero(g, sorted, v, n - 1);
      OccursIff(g[n - 1], v);
    }
  }

  ghost predicate NoSelfLoops(g: Graph) {
    forall u :: 0 <= u < |g| ==> u !in g[u]
  }

  /** Every vertex's in-degree counts its arcs from unsorted vertices, and no
      count exceeds what the program's integers hold. */
  ghost predicate Degrees(g: Graph, sorted: seq<bool>, inDegree: seq<int>) {
    && |sorted| == |inDegree| == |g|
    && (forall v :: 0 <= v < |g| && !sorted[v] ==> inDegree[v] == InCount(g, sorted, v, |g|))
    && (forall v :: 0 <= v < |g| && !sorted[v] ==> inDegree[v] < MAX_INT64)
  }

  ghost function InDegreeOf(g: Graph, v: nat): nat {
    InCount(g, seq(|g|, _ => false), v, |g|)
  }

  ghost predicate FitsInt64(g: Graph) {
    forall v :: 0 <= v < |g| ==> InDegreeOf(g, v) < MAX_INT64
  }

  /** Exactly the unsorted vertices without unsorted predecessors. */
  ghost predicate AreSources(sorted: seq<bool>, inDegree: seq<int>, zero: seq<nat>) {
    && |sorted| == |inDegree| && Distinct(zero)
    && (forall v: nat :: v in zero <==> v < |sorted| && !sorted[v] && inDegree[v] == 0)
  }

  /** Every vertex stands after all its predecessors. */
  ghost predicate Topological(g: Graph, order: seq<nat>) {
    forall i, u :: 0 <= i < |order| && Edge(g, u, order[i]) ==> u in order[..i]
  }

  /** Where a cycle is broken: no unsorted vertex is a source, and among those with the
      fewest arcs from unsorted ones this is the first of those with the most arcs. */
  ghost predicate IsChoice(g: Graph, sorted: seq<bool>, inDegree: seq<int>, v: nat) {
    && |sorted| == |inDegree| == |g| && v < |g| && !sorted[v]
    && (forall u: nat :: u < |g| && !sorted[u] ==>
          0 < inDegree[v] <= inDegree[u] &&
          (inDegree[u] == inDegree[v] ==> |g[u]| < |g[v]| || (|g[u]| == |g[v]| && v <= u)))
  }

  /** The next vertex: a source, or the choice when there is none. */
  ghost predicate IsNext(g: Graph, sorted: seq<bool>, inDegree: seq<int>, v: nat) {
    && |sorted| == |inDegree| == |g| && v < |g| && !sorted[v]
    && (inDegree[v] == 0 || IsChoice(g, sorted, inDegree, v))
  }

  ghost function Marks(n: nat, order: seq<nat>): seq<bool> {
    seq(n, v => v in order)
  }

  /** The arcs that lead to each vertex from those not marked. */
  ghost function Counts(g: Graph, sorted: seq<bool>): seq<int>
    requires |sorted| == |g|
  {
    seq(|g|, v requires 0 <= v < |g| => InCount(g, sorted, v, |g|))
  }

  /** Every vertex is next after those before it. */
  ghost predicate Stepwise(g: Graph, order: seq<nat>) {
    forall i :: 0 <= i < |order| ==>
                  var sorted := Marks(|g|, order[..i]);
                  IsNext(g, sorted, Counts(g, sorted), order[i])
  }

  lemma StepwiseMore(g: Graph, sorted: seq<bool>, inDegree: seq<int>, order: seq<nat>, v: nat)
    requires Degrees(g, sorted, inDegree) && Stepwise(g, order) && IsNext(g, sorted, inDegree, v)
    requires forall u: nat :: u in order <==> u < |g| && sorted[u]
    ensures Stepwise(g, order + [v])
  {
    hide InCount;
    var order' := order + [v];
    assert sorted == Marks(|g|, order);
    forall i | 0 <= i < |order'|
      ensures
        var sorted := Marks(|g|, order'[..i]);
        IsNext(g, sorted, Counts(g, sorted), order'[i])
    {
      assert i < |order| ==> order'[..i] == order[..i];
      assert order'[..|order|] == order;
    }
  }

  lemma NoSteps(g: Graph)
    ensures Stepwise(g, [])
  {
  }

  // ---------------------------------------------------- first in, first out

  /** After `done` the vertex is a source. */
  ghost predicate Freed(g: Graph, done: seq<nat>, v: nat) {
    v < |g| && v !in done && forall u: nat :: u < |g| && v in g[u] ==> u in done
  }

  /** The `n`-th vertex of the order makes it one. */
  ghost predicate JustFreed(g: Graph, order: seq<nat>, n: nat, v: nat) {
    n < |order| && !Freed(g, order[..n], v) && Freed(g, order[..n + 1], v)
  }

  /** The last arc to `u` comes before the last one to `v`. */
  ghost predicate EndsBefore(arcs: seq<nat>, u: nat, v: nat) {
    forall i :: 0 <= i < |arcs| && arcs[i] == u ==> Later(arcs, i, v)
  }

  ghost predicate Later(arcs: seq<nat>, i: nat, v: nat) {
    exists j :: i < j < |arcs| && arcs[j] == v
  }

  /** Whoever stands in front was a source no later. */
  ghost predicate InTurn(g: Graph, order: seq<nat>, line: seq<nat>) {
    forall n: nat, i, j :: n <= |order| && n <= i < j < |line| && Freed(g, order[..n], line[j]) ==> Freed(g, order[..n], line[i])
  }

  /** The sources of the graph stand by index. */
  ghost predicate ByIndex(g: Graph, line: seq<nat>) {
    forall i, j :: 0 <= i < j < |line| && Freed(g, [], line[i]) && Freed(g, [], line[j]) ==> line[i] < line[j]
  }

  /** Those freed by one vertex stand in the order of its arcs. */
  ghost predicate ByArc(g: Graph, order: seq<nat>, line: seq<nat>) {
    forall n: nat, i, j ::
      n < |order| && n < i < j < |line| && JustFreed(g, order, n, line[i]) && JustFreed(g, order, n, line[j]) ==>
        order[n] < |g| && EndsBefore(g[order[n]], line[i], line[j])
  }

  /** The order so far, continued by the work list, is served first in, first out. */
  ghost predicate InLine(g: Graph, order: seq<nat>, line: seq<nat>) {
    order <= line && InTurn(g, order, line) && ByIndex(g, line) && ByArc(g, order, line)
  }

  lemma FreedIff(g: Graph, sorted: seq<bool>, inDegree: seq<int>, order: seq<nat>, v: nat)
    requires Degrees(g, sorted, inDegree) && v < |g| && !sorted[v]
    requires forall u: nat :: u in order <==> u < |g| && sorted[u]
    ensures inDegree[v] == 0 <==> Freed(g, order, v)
  {
    InCountZero(g, sorted, v, |g|);
  }

  lemma StaysFreed(g: Graph, order: seq<nat>, n: nat, v: nat)
    requires n <= |order| && v !in order && Freed(g, order[..n], v)
    ensures Freed(g, order, v)
  {
  }

  /** The work list moves on: its head is served, those it frees join at the end. */
  lemma InLineMore(g: Graph, order: seq<nat>, work: seq<nat>, freed: seq<nat>)
    requires InLine(g, order, order + work) && work != [] && work[0] < |g|
    requires forall v :: v in work[1..] ==> Freed(g, order, v) && Freed(g, order + [work[0]], v)
    requires forall v :: v in freed ==> v !in order && !Freed(g, order, v) && Freed(g, order + [work[0]], v)
    requires forall i, j :: 0 <= i < j < |freed| ==> EndsBefore(g[work[0]], freed[i], freed[j])
    ensures InLine(g, order + [work[0]], order + [work[0]] + (work[1..] + freed))
  {
    hide Freed, EndsBefore;
    var order', rest := order + [work[0]], work[1..] + freed;
    var line, line' := order + work, order' + rest;
    assert line' == line + freed;
    forall v, n: nat | v in freed && n <= |order| ensures !Freed(g, order'[..n], v) {
      NotFreedBefore(g, order, order', n, v);
    }
    forall i | |order'| <= i < |line'| ensures Freed(g, order', line'[i]) {
      assert line'[i] == rest[i - |order'|] && rest[i - |order'|] in rest;
    }
    forall n: nat | n <= |order| ensures order'[..n] == order[..n] {
    }
    assert order'[..|order'|] == order';
    forall i | |line| <= i < |line'| ensures line'[i] in freed {
    }
    MoreInTurn(g, order, order', line, line', freed);
    MoreByIndex(g, order', line, line', freed);
    forall i | |order'| <= i < |line| ensures Freed(g, order, line'[i]) {
      assert line'[i] == work[1..][i - |order'|] && work[1..][i - |order'|] in work[1..];
    }
    MoreByArc(g, order, order', line, line', freed);
  }

  lemma NotFreedBefore(g: Graph, order: seq<nat>, order': seq<nat>, n: nat, v: nat)
    requires n <= |order| && order <= order' && v !in order && !Freed(g, order, v)
    ensures !Freed(g, order'[..n], v)
  {
    assert order'[..n] == order[..n];
    if Freed(g, order[..n], v) {
      StaysFreed(g, order, n, v);
    }
  }

  lemma MoreInTurn(g: Graph, order: seq<nat>, order': seq<nat>, line: seq<nat>, line': seq<nat>, freed: seq<nat>)
    requires InTurn(g, order, line) && line <= line' && |order'| == |order| + 1 && order <= order'
    requires forall v, n: nat :: v in freed && n <= |order| ==> !Freed(g, order'[..n], v)
    requires forall i :: |order'| <= i < |line'| ==> Freed(g, order'[..|order'|], line'[i])
    requires forall n: nat :: n <= |order| ==> order'[..n] == order[..n]
    requires forall i :: |line| <= i < |line'| ==> line'[i] in freed
    ensures InTurn(g, order', line')
  {
    hide Freed;
    forall n: nat, i, j | n <= |order'| && n <= i < j < |line'| && Freed(g, order'[..n], line'[j])
      ensures Freed(g, order'[..n], line'[i])
    {
      if n <= |order| {
        assert j < |line| && line'[i] == line[i] && line'[j] == line[j];
      }
    }
  }

  lemma MoreByIndex(g: Graph, order': seq<nat>, line: seq<nat>, line': seq<nat>, freed: seq<nat>)
    requires ByIndex(g, line) && line <= line'
    requires forall v, n: nat :: v in freed && n < |order'| ==> !Freed(g, order'[..n], v)
    requires |order'| > 0 && forall i :: |line| <= i < |line'| ==> line'[i] in freed
    ensures ByIndex(g, line')
  {
    hide Freed;
    assert order'[..0] == [];
  }

  lemma MoreByArc(g: Graph, order: seq<nat>, order': seq<nat>, line: seq<nat>, line': seq<nat>, freed: seq<nat>)
    requires ByArc(g, order, line) && line <= line' && |order'| == |order| + 1 && order <= order' && |order'| <= |line|
    requires forall v, n: nat :: v in freed && n <= |order| ==> !Freed(g, order'[..n], v)
    requires forall n: nat :: n <= |order| ==> order'[..n] == order[..n]
    requires line' == line + freed && order'[|order|] < |g|
    requires forall i :: |order'| <= i < |line| ==> Freed(g, order, line'[i])
    requires forall i, j :: 0 <= i < j < |freed| ==> EndsBefore(g[order'[|order|]], freed[i], freed[j])
    ensures ByArc(g, order', line')
  {
    hide Freed, EndsBefore;
    forall n: nat, i, j |
      n < |order'| && n < i < j < |line'| && JustFreed(g, order', n, line'[i]) && JustFreed(g, order', n, line'[j])
      ensures order'[n] < |g| && EndsBefore(g[order'[n]], line'[i], line'[j])
    {
      if n < |order| {
        assert line'[j] !in freed;
        assert line'[i] == line[i] && line'[j] == line[j];
        assert JustFreed(g, order, n, line[i]) && JustFreed(g, order, n, line[j]);
      } else {
        assert order'[..n] == order;
        assert line'[i] == freed[i - |line|] && line'[j] == freed[j - |line|];
      }
    }
  }

  /** Those left on the work list are sources before and after its head is served; the freed
      ones are sources only after. */
  lemma SourcesWait(g: Graph, sorted: seq<bool>, inDegree: seq<int>, sorted': seq<bool>, inDegree': seq<int>, order: seq<nat>,
                    work: seq<nat>, freed: seq<nat>)
    requires Degrees(g, sorted, inDegree) && Degrees(g, sorted', inDegree') && work != [] && work[0] < |g|
    requires AreSources(sorted, inDegree, work) || |work| == 1
    requires AreSources(sorted', inDegree', work[1..] + freed) && sorted' == sorted[work[0] := true]
    requires forall u: nat :: u in order <==> u < |g| && sorted[u]
    requires forall v :: v in freed ==> v < |g| && !sorted'[v] && inDegree[v] > 0
    ensures forall v :: v in work[1..] ==> Freed(g, order, v) && Freed(g, order + [work[0]], v)
    ensures forall v :: v in freed ==> v !in order && !Freed(g, order, v) && Freed(g, order + [work[0]], v)
  {
    hide InCount, Freed;
    var order', rest := order + [work[0]], work[1..] + freed;
    forall v | v in rest ensures Freed(g, order', v) {
      FreedIff(g, sorted', inDegree', order', v);
    }
    forall v | v in work[1..] ensures Freed(g, order, v) {
      assert v in rest && v in work;
      FreedIff(g, sorted, inDegree, order, v);
    }
    forall v | v in freed ensures !Freed(g, order, v) {
      FreedIff(g, sorted, inDegree, order, v);
    }
    assert forall v :: v in work[1..] ==> v in rest;
    assert forall v :: v in freed ==> v in rest;
  }

  /** A vertex that breaks a cycle waits in line alone. */
  lemma InLineChoice(g: Graph, order: seq<nat>, v: nat)
    requires InLine(g, order, order) && v !in order && !Freed(g, order, v)
    ensures InLine(g, order, order + [v])
  {
    hide Freed, EndsBefore;
    forall n: nat | n <= |order| ensures !Freed(g, order[..n], v) {
      NotFreedBefore(g, order, order, n, v);
    }
    assert order[..0] == [];
  }

  lemma InLineStart(g: Graph, zero: seq<nat>)
    requires forall i, j :: 0 <= i < j < |zero| ==> zero[i] < zero[j]
    requires forall v :: v in zero ==> Freed(g, [], v)
    ensures InLine(g, [], zero)
  {
    hide Freed;
    var none: seq<nat> := [];
    assert none[..0] == none;
  }

  /** Every vertex once, each the next one, served first in, first out. */
  ghost predicate IsSortOrder(g: Graph, order: seq<nat>) {
    && Distinct(order) && (forall v: nat :: v in order <==> v < |g|) && Stepwise(g, order) && InLine(g, order, order)
  }

  ghost predicate SomeUnsorted(sorted: seq<bool>) {
    exists v :: 0 <= v < |sorted| && !sorted[v]
  }

  /** Without sources among the unsorted vertices there is a cycle. */
  lemma NoSourceMeansCycle(g: Graph, sorted: seq<bool>, inDegree: seq<int>)
    requires Degrees(g, sorted, inDegree) && SomeUnsorted(sorted) && AreSources(sorted, inDegree, [])
    ensures !Acyclic(g)
  {
    hide Acyclic, InCount;
    if Acyclic(g) {
      var s := set v | v in UpTo(|g|) && !sorted[v];
      var w :| 0 <= w < |sorted| && !sorted[w];
      assert w in s;
      var v := SourceExists(g, s);
      InCountZero(g, sorted, v, |g|);
      assert forall u :: 0 <= u < |g| && !sorted[u] ==> u in s && !Edge(g, u, v);
    }
  }

  /** The last unsorted vertex has no arc left leading to it. */
  lemma LastIsSource(g: Graph, sorted: seq<bool>, inDegree: seq<int>, v: nat)
    requires Degrees(g, sorted, inDegree) && NoSelfLoops(g) && v < |g| && !sorted[v]
    requires forall u :: 0 <= u < |g| && u != v ==> sorted[u]
    ensures inDegree[v] == 0
  {
    InCountZero(g, sorted, v, |g|);
  }

  lemma DegreesNonNegative(g: Graph, sorted: seq<bool>, inDegree: seq<int>)
    requires Degrees(g, sorted, inDegree)
    ensures forall v :: 0 <= v < |g| && !sorted[v] ==> inDegree[v] >= 0
  {
  }

  lemma NoneSorted(sorted: seq<bool>)
    requires forall v :: 0 <= v < |sorted| ==> !sorted[v]
    ensures forall v: nat :: v in [] <==> v < |sorted| && sorted[v]
  {
  }

  lemma EmptyTopological(g: Graph)
    ensures Topological(g, []) && Distinct<nat>([])
  {
  }

  lemma ListedMore(sorted: seq<bool>, order: seq<nat>, top: nat)
    requires Distinct(order) && forall v: nat :: v in order <==> v < |sorted| && sorted[v]
    requires top < |sorted| && !sorted[top]
    ensures Distinct(order + [top])
    ensures forall v: nat :: v in order + [top] <==> v < |sorted| && sorted[top := true][v]
  {
  }

  /** A list of the sorted vertices is full exactly when all are sorted. */
  lemma ListedCount(sorted: seq<bool>, order: seq<nat>)
    requires Distinct(order) && forall v: nat :: v in order <==> v < |sorted| && sorted[v]
    ensures |order| <= |sorted| && (|order| < |sorted| <==> SomeUnsorted(sorted))
    ensures |order| + 1 == |sorted| ==>
              forall a, b :: 0 <= a < |sorted| && 0 <= b < |sorted| && !sorted[a] && !sorted[b] ==> a == b
  {
    var e, all := Elements(order), UpTo(|sorted|);
    DistinctSize(order);
    assert e <= all && |all| == |sorted|;
    assert |all - e| == |all| - |e|;
    var rest := all - e;
    assert forall v :: 0 <= v < |sorted| ==> (v in rest <==> !sorted[v]);
    if |rest| == 0 {
      assert forall v :: 0 <= v < |sorted| ==> v !in rest;
    } else {
      var v :| v in rest;
      assert !sorted[v];
      if |rest| == 1 {
        assert |rest - {v}| == 0;
        assert forall a :: a in rest ==> a == v || a in rest - {v};
      }
    }
  }

  lemma TopologicalMore(g: Graph, sorted: seq<bool>, inDegree: seq<int>, order: seq<nat>, top: nat)
    requires Degrees(g, sorted, inDegree) && Topological(g, order)
    requires forall v: nat :: v in order <==> v < |sorted| && sorted[v]
    requires top < |g| && !sorted[top] && inDegree[top] == 0
    ensures Topological(g, order + [top])
  {
    hide InCount;
    InCountZero(g, sorted, top, |g|);
    var more := order + [top];
    forall i, u | 0 <= i < |more| && Edge(g, u, more[i]) ensures u in more[..i] {
      if i < |order| {
        assert more[..i] == order[..i];
      } else {
        assert more[..i] == order && u in order;
      }
    }
  }

  /** Visiting the head of a list of sources leaves the rest and those it frees. */
  lemma SourcesAfter(sorted: seq<bool>, inDegree: seq<int>, zero: seq<nat>, top: nat,
                     after: seq<int>, freed: seq<nat>)
    requires |sorted| == |inDegree| == |after| && top < |sorted| && !sorted[top] && Distinct(freed)
    requires AreSources(sorted, inDegree, zero) && (zero != [] ==> zero[0] == top)
    requires forall v: nat :: v in freed <==>
               v < |sorted| && !sorted[top := true][v] && after[v] == 0 && inDegree[v] > 0
    requires forall v :: 0 <= v < |sorted| && !sorted[top := true][v] && inDegree[v] == 0 ==> after[v] == 0
    requires forall v :: 0 <= v < |sorted| && !sorted[v] ==> inDegree[v] >= 0
    ensures AreSources(sorted[top := true], after, (if zero == [] then [] else zero[1..]) + freed)
  {
    var rest := if zero == [] then [] else zero[1..];
    assert zero != [] ==> zero == [top] + rest;
    forall v: nat ensures v in rest <==> v < |sorted| && !sorted[v] && inDegree[v] == 0 && v != top {
      assert v in zero <==> v < |sorted| && !sorted[v] && inDegree[v] == 0;
    }
    forall i | 0 <= i < |freed| ensures freed[i] !in rest { assert freed[i] in freed; }
  }

  /** Marking `top` and lowering the in-degrees of its heads keeps the counts. */
  lemma DegreesMark(g: Graph, sorted: seq<bool>, inDegree: seq<int>, top: nat, after: seq<int>)
    requires Degrees(g, sorted, inDegree) && top < |g| && !sorted[top] && |after| == |g|
    requires forall v :: 0 <= v < |g| && v != top && !sorted[v] ==> after[v] == inDegree[v] - Occurrences(g[top], v)
    ensures Degrees(g, sorted[top := true], after)
    ensures forall v :: 0 <= v < |g| && v != top && !sorted[v] ==> after[v] >= 0
  {
    var marked := sorted[top := true];
    forall v | 0 <= v < |g| && !marked[v] ensures after[v] == InCount(g, marked, v, |g|) {
      InCountMark(g, sorted, v, |g|, top);
    }
  }

  class AlGraph {
    const vertices: Graph
    const outDegree: seq<int>
    const isSorted: array<bool>
    const inDegree: array<int>

    ghost predicate Valid()
      reads this, isSorted, inDegree
    {
      && isSorted.Length == inDegree.Length == |vertices| == |outDegree|
      && (forall v :: 0 <= v < |vertices| ==> outDegree[v] == |vertices[v]|)
      && InRange(vertices) && NoSelfLoops(vertices) && vertices != []
      && Degrees(vertices, isSorted[..], inDegree[..])
    }

    /** `Init`: counts the arcs into and out of every vertex. */
    constructor (gSlice: Graph)
      requires InRange(gSlice) && NoSelfLoops(gSlice) && gSlice != [] && FitsInt64(gSlice)
      ensures Valid() && vertices == gSlice && fresh(isSorted) && fresh(inDegree)
      ensures forall v :: 0 <= v < |gSlice| ==> !isSorted[v]
    {
      vertices := gSlice;
      outDegree := seq(|gSlice|, i requires 0 <= i < |gSlice| => |gSlice[i]|);
      var n := |gSlice|;
      isSorted := new bool[n](_ => false);
      inDegree := new int[n](_ => 0);
      new;
      var none := isSorted[..];
      assert none == seq(n, _ => false);
      var u := 0;
      while u < n
        invariant 0 <= u <= n && isSorted[..] == none
        invariant forall v :: 0 <= v < n ==> inDegree[v] == InCount(vertices, none, v, u)
      {
        CountArcs(vertices[u]);
        u := u + 1;
      }
      assert forall v :: 0 <= v < n ==> inDegree[v] == InDegreeOf(vertices, v);
    }

    /** Adds a vertex's arcs to the in-degrees of their heads. */
    method CountArcs(arcs: seq<nat>)
      requires forall v: nat :: v in arcs ==> v < inDegree.Length
      modifies inDegree
      ensures forall v :: 0 <= v < inDegree.Length ==> inDegree[v] == old(inDegree[v]) + Occurrences(arcs, v)
    {
      var i := 0;
      while i < |arcs|
        invariant 0 <= i <= |arcs|
        invariant forall v :: 0 <= v < inDegree.Length ==> inDegree[v] == old(inDegree[v]) + Occurrences(arcs[..i], v)
      {
        assert arcs[..i + 1][..i] == arcs[..i];
        assert arcs[i] in arcs;
        inDegree[arcs[i]] := inDegree[arcs[i]] + 1;
        i := i + 1;
      }
      assert arcs[..i] == arcs;
    }

    /** Marks `top` as sorted and lowers the in-degrees behind it; returns those
        that thereby came down to zero. */
    method Visit(top: nat) returns (freed: seq<nat>)
      requires Valid() && top < |vertices| && !isSorted[top]
      modifies isSorted, inDegree
      ensures Valid() && isSorted[..] == old(isSorted[..])[top := true] && Distinct(freed)
      ensures forall v: nat :: v in freed <==>
                v < |vertices| && !isSorted[v] && inDegree[v] == 0 && old(inDegree[v]) > 0
      ensures forall v :: 0 <= v < |vertices| && !isSorted[v] && old(inDegree[v]) == 0 ==> inDegree[v] == 0
      ensures forall i, j :: 0 <= i < j < |freed| ==> EndsBefore(vertices[top], freed[i], freed[j])
    {
      hide InCount, NoSelfLoops, InDegreeOf, EndsBefore;
      ghost var sorted0, degree0 := isSorted[..], inDegree[..];
      var arcs := vertices[top];
      isSorted[top] := true;
      ghost var goal := seq(|vertices|, v requires 0 <= v < |vertices| => degree0[v] - Occurrences(arcs, v));
      DegreesMark(vertices, sorted0, degree0, top, goal);
      freed := [];
      var i := 0;
      while i < |arcs|
        invariant 0 <= i <= |arcs| && isSorted[..] == sorted0[top := true] && Distinct(freed)
        invariant forall v :: 0 <= v < |vertices| && !isSorted[v] ==>
                    inDegree[v] == degree0[v] - Occurrences(arcs[..i], v)
        invariant forall v: nat :: v in freed <==> v < |vertices| && !isSorted[v] && inDegree[v] == 0 && degree0[v] > 0
        invariant forall a, b :: 0 <= a < b < |freed| ==> EndsBefore(arcs, freed[a], freed[b])
      {
        assert arcs[..i + 1][..i] == arcs[..i];
        var adj := arcs[i];
        assert adj in arcs;
        OccurrencesRest(arcs, i, adj);
        forall a | 0 <= a < |freed| ensures EndsBefore(arcs, freed[a], adj) {
          assert freed[a] in freed && goal[freed[a]] >= 0;
          EndsAt(arcs, i, freed[a]);
        }
        if !isSorted[adj] {
          inDegree[adj] := inDegree[adj] - 1;
          if inDegree[adj] == 0 {
            freed := freed + [adj];
          }
        }
        i := i + 1;
      }
      assert arcs[..i] == arcs;
      DegreesMark(vertices, sorted0, degree0, top, inDegree[..]);
    }

    /** The least in-degree of an unsorted vertex. */
    method MinDegree() returns (min: int)
      requires Valid() && SomeUnsorted(isSorted[..])
      ensures exists v :: 0 <= v < |vertices| && !isSorted[v] && inDegree[v] == min
      ensures forall v :: 0 <= v < |vertices| && !isSorted[v] ==> min <= inDegree[v]
    {
      assert exists v :: 0 <= v < |vertices| && !isSorted[v];
      min := MAX_INT64;
      var i := 0;
      while i < |vertices|
        invariant 0 <= i <= |vertices|
        invariant forall v :: 0 <= v < i && !isSorted[v] ==> min <= inDegree[v]
        invariant (min == MAX_INT64 && forall v :: 0 <= v < i ==> isSorted[v])
                  || exists v :: 0 <= v < i && !isSorted[v] && inDegree[v] == min
      {
        if !isSorted[i] && inDegree[i] < min {
          min := inDegree[i];
        }
        i := i + 1;
      }
    }

    /** `findMaxNode`: among the unsorted vertices of in-degree `min`, the first of
        those with the most arcs. */
    method FindMaxNode(min: int) returns (node: nat)
      requires Valid() && exists v :: 0 <= v < |vertices| && !isSorted[v] && inDegree[v] == min
      ensures node < |vertices| && !isSorted[node] && inDegree[node] == min
      ensures forall v :: 0 <= v < |vertices| && !isSorted[v] && inDegree[v] == min ==>
                outDegree[v] < outDegree[node] || (outDegree[v] == outDegree[node] && node <= v)
    {
      var candidates := Candidates(min);
      assert forall j :: 0 <= j < |candidates| ==> candidates[j] in candidates;
      var max := 0;
      for i := 0 to |candidates|
        invariant 0 <= max && forall j :: 0 <= j < i ==> outDegree[candidates[j]] <= max
        invariant (max == 0) || exists j :: 0 <= j < i && outDegree[candidates[j]] == max
      {
        if outDegree[candidates[i]] > max {
          max := outDegree[candidates[i]];
        }
      }
      assert max == 0 ==> outDegree[candidates[0]] == max;
      var i := 0;
      while outDegree[candidates[i]] != max
        invariant 0 <= i < |candidates| && forall j :: 0 <= j < i ==> outDegree[candidates[j]] < max
        invariant exists j :: 0 <= j < |candidates| && outDegree[candidates[j]] == max
        decreases |candidates| - i
      {
        i := i + 1;
      }
      node := candidates[i];
    }

    ghost predicate Listed(order: seq<nat>)
      reads isSorted
    {
      && Distinct(order)
      && (forall v: nat :: v in order <==> v < isSorted.Length && isSorted[v])
    }

    /** The first round of the main loop's choice. */
    method Begin() returns (zero: seq<nat>, min: int)
      requires Valid() && forall v :: 0 <= v < |vertices| ==> !isSorted[v]
      ensures WorkList(zero) && zero != [] && InLine(vertices, [], zero)
      ensures |vertices| == 1 ==> min == 0
    {
      hide InCount, Degrees, Acyclic, InLine, Freed;
      zero := Sources();
      NoneSorted(isSorted[..]);
      forall v | v in zero ensures Freed(vertices, [], v) {
        FreedIff(vertices, isSorted[..], inDegree[..], [], v);
      }
      InLineStart(vertices, zero);
      assert !isSorted[..][0];
      min := MinDegree();
      if |vertices| == 1 {
        LastIsSource(vertices, isSorted[..], inDegree[..], 0);
      }
      if zero == [] {
        NoSourceMeansCycle(vertices, isSorted[..], inDegree[..]);
        var top := FindMaxNode(min);
        DegreesNonNegative(vertices, isSorted[..], inDegree[..]);
        FreedIff(vertices, isSorted[..], inDegree[..], [], top);
        InLineChoice(vertices, [], top);
        zero := [top];
        assert [] + zero == zero;
      }
    }

    /** `AdvancedTopologicalSort`: every vertex exactly once, whatever cycles the
        graph has; in an acyclic graph every arc leads forward. */
    method AdvancedTopologicalSort() returns (order: seq<nat>)
      requires Valid() && forall v :: 0 <= v < |vertices| ==> !isSorted[v]
      modifies isSorted, inDegree
      ensures IsSortOrder(vertices, order) && |order| == |vertices|
      ensures Acyclic(vertices) ==> Topological(vertices, order)
    {
      hide InCount, Degrees, Acyclic, Edge, AreSources, Topological, IsChoice, Stepwise, InLine;
      order := [];
      NoneSorted(isSorted[..]);
      EmptyTopological(vertices);
      assert Stepwise(vertices, []) by { NoSteps(vertices); }
      var zero, min := Begin();
      assert [] + zero == zero;
      while zero != []
        invariant Valid() && Listed(order)
        invariant zero != [] ==> WorkList(zero)
        invariant zero == [] ==> |order| == |vertices|
        invariant |order| + 1 == |vertices| ==> min == 0
        invariant Acyclic(vertices) ==> Topological(vertices, order)
        invariant Stepwise(vertices, order) && InLine(vertices, order, order + zero)
        decreases |vertices| - |order|
      {
        ListedCount(isSorted[..], order);
        zero, min, order := Round(zero, min, order);
      }
      assert order + zero == order;
      ListedCount(isSorted[..], order);
    }

    /** One round of the main loop. */
    method Round(work: seq<nat>, min0: int, sofar: seq<nat>) returns (zero: seq<nat>, min: int, order: seq<nat>)
      requires Valid() && Listed(sofar) && work != [] && WorkList(work)
      requires |sofar| + 1 == |vertices| ==> min0 == 0
      requires Acyclic(vertices) ==> Topological(vertices, sofar)
      requires Stepwise(vertices, sofar) && InLine(vertices, sofar, sofar + work)
      modifies isSorted, inDegree
      ensures Valid() && Listed(order) && |order| == |sofar| + 1
      ensures zero != [] ==> WorkList(zero)
      ensures zero == [] ==> |order| == |vertices|
      ensures |order| + 1 == |vertices| ==> min == 0
      ensures Acyclic(vertices) ==> Topological(vertices, order)
      ensures Stepwise(vertices, order) && InLine(vertices, order, order + zero)
    {
      hide InCount, Degrees, Acyclic, Edge, Topological, IsChoice, Stepwise, IsNext, InLine, Freed, EndsBefore;
      var top := work[0];
      min := min0;
      WorkListHead(work);
      ghost var sources := if AreSources(isSorted[..], inDegree[..], work) then work else [];
      ghost var sorted0, degree0 := isSorted[..], inDegree[..];
      if Acyclic(vertices) {
        TopologicalMore(vertices, sorted0, degree0, sofar, top);
      }
      StepwiseMore(vertices, sorted0, degree0, sofar, top);
      order := sofar + [top];
      ListedMore(sorted0, sofar, top);
      var freed := Visit(top);
      DegreesNonNegative(vertices, sorted0, degree0);
      SourcesAfter(sorted0, degree0, sources, top, inDegree[..], freed);
      SourcesWait(vertices, sorted0, degree0, isSorted[..], inDegree[..], sofar, work, freed);
      InLineMore(vertices, sofar, work, freed);
      zero := work[1..] + freed;
      zero, min := Refill(zero, min, order);
    }

    /** Fills an empty work list while vertices remain. */
    method Refill(work: seq<nat>, min0: int, order: seq<nat>) returns (zero: seq<nat>, min: int)
      requires Valid() && Listed(order) && AreSources(isSorted[..], inDegree[..], work)
      requires |order| == |vertices| ==> min0 == 0
      requires InLine(vertices, order, order + work)
      ensures InLine(vertices, order, order + zero)
      ensures zero != [] ==> WorkList(zero)
      ensures zero == [] ==> |order| == |vertices|
      ensures |order| + 1 == |vertices| ==> min == 0
    {
      hide InCount, Degrees, Acyclic, Edge, Topological, InLine, Freed;
      zero, min := work, min0;
      ListedCount(isSorted[..], order);
      if |order| < |vertices| {
        min := MinDegree();
        DegreesNonNegative(vertices, isSorted[..], inDegree[..]);
        if |order| + 1 == |vertices| {
          var v :| 0 <= v < |vertices| && !isSorted[v];
          assert !isSorted[..][v];
          LastIsSource(vertices, isSorted[..], inDegree[..], v);
        }
      }
      if min > 0 {
        if zero != [] { HasMember(zero); }
        NoSourceMeansCycle(vertices, isSorted[..], inDegree[..]);
        var top := FindMaxNode(min);
        FreedIff(vertices, isSorted[..], inDegree[..], order, top);
        assert order + zero == order;
        InLineChoice(vertices, order, top);
        zero := zero + [top];
        assert order + zero == order + [top];
      }
    }

    lemma WorkListHead(work: seq<nat>)
      requires Valid() && work != [] && WorkList(work)
      ensures work[0] < |vertices| && !isSorted[work[0]]
      ensures Acyclic(vertices) ==> inDegree[work[0]] == 0
      ensures IsNext(vertices, isSorted[..], inDegree[..], work[0])
      ensures AreSources(isSorted[..], inDegree[..], work) || (AreSources(isSorted[..], inDegree[..], []) && |work| == 1)
    {
      hide Acyclic;
      assert work[0] in work;
    }

    method Sources() returns (zero: seq<nat>)
      requires Valid()
      ensures AreSources(isSorted[..], inDegree[..], zero) && forall i, j :: 0 <= i < j < |zero| ==> zero[i] < zero[j]
    {
      zero := [];
      for i := 0 to |vertices|
        invariant forall a, b :: 0 <= a < b < |zero| ==> zero[a] < zero[b]
        invariant forall a :: 0 <= a < |zero| ==> zero[a] < i
        invariant forall v: nat :: v in zero <==> v < i && v < |vertices| && !isSorted[v] && inDegree[v] == 0
      {
        if !isSorted[i] && inDegree[i] == 0 {
          zero := zero + [i];
        }
      }
    }

    /** The work list: all sources, or, if there are none, one vertex of a cycle. */
    ghost predicate WorkList(zero: seq<nat>)
      reads this, isSorted, inDegree
    {
      || AreSources(isSorted[..], inDegree[..], zero)
      || (|zero| == 1 && zero[0] < isSorted.Length && !isSorted[zero[0]]
          && !Acyclic(vertices) && AreSources(isSorted[..], inDegree[..], [])
          && IsChoice(vertices, isSorted[..], inDegree[..], zero[0]))
    }

    method Candidates(min: int) returns (c: seq<nat>)
      requires Valid() && exists v :: 0 <= v < |vertices| && !isSorted[v] && inDegree[v] == min
      ensures c != [] && forall i, j :: 0 <= i < j < |c| ==> c[i] < c[j]
      ensures forall v: nat :: v in c <==> v < |vertices| && !isSorted[v] && inDegree[v] == min
    {
      c := [];
      for i := 0 to |vertices|
        invariant forall a, b :: 0 <= a < b < |c| ==> c[a] < c[b]
        invariant forall a :: 0 <= a < |c| ==> c[a] < i
        invariant forall v: nat :: v in c <==> v < i && v < |vertices| && !isSorted[v] && inDegree[v] == min
      {
        if !isSorted[i] && inDegree[i] == min {
          c := c + [i];
        }
      }
    }
  }

  /** All arcs to `u` lie before place `i`. */
  lemma EndsAt(arcs: seq<nat>, i: nat, u: nat)
    requires i < |arcs| && Occurrences(arcs, u) <= Occurrences(arcs[..i], u)
    ensures EndsBefore(arcs, u, arcs[i])
  {
    forall j | 0 <= j < |arcs| && arcs[j] == u ensures Later(arcs, j, arcs[i]) {
      OccurrencesRest(arcs, j, u);
      if j >= i {
        OccurrencesMore(arcs, i, j, u);
      }
    }
  }

  lemma {:induction false} OccurrencesMore(arcs: seq<nat>, i: nat, j: nat, v: nat)
    requires i <= j <= |arcs|
    ensures Occurrences(arcs[..i], v) <= Occurrences(arcs[..j], v)
  {
    if i < j {
      assert arcs[..j][..i] == arcs[..i];
      OccurrencesRest(arcs[..j], i, v);
    }
  }

  lemma {:induction false} OccurrencesRest(arcs: seq<nat>, i: nat, v: nat)
    requires i < |arcs|
    ensures Occurrences(arcs[..i], v) <= Occurrences(arcs, v)
    ensures arcs[i] == v ==> Occurrences(arcs[..i], v) < Occurrences(arcs, v)
    decreases |arcs|
  {
    var n := |arcs| - 1;
    if i < n {
      OccurrencesRest(arcs[..n], i, v);
      assert arcs[..n][..i] == arcs[..i];
    } else {
      assert arcs[..i] == arcs[..n];
    }
  }
}

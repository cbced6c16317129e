/**
 The conflict graphs of `core/classical_graph.go`: the plain construction and the
 light one, which looks writers up in an index.
 */
module ConflictGraph {
  import opened Sequences
  import opened Deltas
  import opened AddressQueues
  import opened Digraph
  import opened CycleBreaking

  type Block = seq<seq<RWNode>>

  ghost predicate Touches(v: seq<RWNode>, k: Key, kind: Label) {
    exists rw :: rw in v && rw.key == k && rw.kind == kind
  }

  ghost predicate Share(a: seq<RWNode>, kind: Label, b: seq<RWNode>) {
    exists k :: Touches(a, k, kind) && Touches(b, k, Write)
  }

  /** `i` must precede `j`: it reads what `j` writes, or both write and `i` is first. */
  ghost predicate MustPrecede(txs: Block, i: nat, j: nat) {
    i < |txs| && j < |txs| && i != j && (Share(txs[i], Read, txs[j]) || (i < j && Share(txs[i], Write, txs[j])))
  }

  ghost predicate Realises(txs: Block, g: Graph) {
    |g| == |txs| && forall i, j: nat :: 0 <= i < |g| ==> (j in g[i] <==> MustPrecede(txs, i, j))
  }

  /** The two constructions agree on every arc, and neither has a loop. */
  lemma SameArcs(txs: Block, g: Graph, g': Graph)
    requires Realises(txs, g) && Realises(txs, g')
    ensures forall i: nat, j: nat :: Edge(g, i, j) <==> Edge(g', i, j)
    ensures InRange(g) && forall i: nat :: !Edge(g, i, i)
  {
    forall i: nat, j: nat ensures Edge(g, i, j) <==> Edge(g', i, j) ensures Edge(g, i, j) ==> i != j && j < |g| {
      if i < |g| {
        assert j in g[i] <==> MustPrecede(txs, i, j);
        assert j in g'[i] <==> MustPrecede(txs, i, j);
      }
    }
  }

  /** With the flagged transactions taken out, the survivors' conflicts have no
      cycle of any length. */
  lemma SurvivorsHaveNoCycle(txs: Block, g: Graph, flagged: set<nat>, p: seq<nat>)
    requires Realises(txs, g) && AcyclicWithout(g, flagged)
    requires Walk(g, p) && |p| >= 2 && !Hit(p, flagged)
    ensures p[0] != p[|p| - 1]
  {
    SameArcs(txs, g, g);
    assert Edge(g, p[0], p[0 + 1]);
    assert p[1] != p[0];
  }

  // ----------------------------------------------------- the keys of one list

  ghost predicate AreKeys(v: seq<RWNode>, rKeys: seq<Key>, wKeys: seq<Key>) {
    forall k :: (k in rKeys <==> Touches(v, k, Read)) && (k in wKeys <==> Touches(v, k, Write))
  }

  lemma TouchesMore(v: seq<RWNode>, rw: RWNode)
    ensures forall k, kind :: Touches(v + [rw], k, kind) <==> Touches(v, k, kind) || (rw.key == k && rw.kind == kind)
  {
    forall k, kind ensures Touches(v + [rw], k, kind) <==> Touches(v, k, kind) || (rw.key == k && rw.kind == kind) {
      if Touches(v, k, kind) {
        var x :| x in v && x.key == k && x.kind == kind;
        assert x in v + [rw];
      } else if rw.key == k && rw.kind == kind {
        assert rw in v + [rw];
      }
    }
  }

  method CollectKeys(v: seq<RWNode>) returns (rKeys: seq<Key>, wKeys: seq<Key>)
    ensures AreKeys(v, rKeys, wKeys)
  {
    rKeys, wKeys := [], [];
    for i := 0 to |v|
      invariant AreKeys(v[..i], rKeys, wKeys)
    {
      assert v[..i + 1] == v[..i] + [v[i]];
      TouchesMore(v[..i], v[i]);
      if v[i].kind == Read {
        rKeys := rKeys + [v[i].key];
      } else {
        wKeys := wKeys + [v[i].key];
      }
    }
    assert v[..|v|] == v;
  }

  /** Whether a write of `v` is among `keys`. */
  ghost predicate WritesInto(v: seq<RWNode>, keys: seq<Key>) {
    exists rw :: rw in v && rw.kind == Write && rw.key in keys
  }

  lemma WritesMore(v: seq<RWNode>, i: nat, keys: seq<Key>)
    requires i < |v|
    ensures WritesInto(v[..i + 1], keys) <==> WritesInto(v[..i], keys) || (v[i].kind == Write && v[i].key in keys)
  {
    assert v[..i + 1] == v[..i] + [v[i]];
    if WritesInto(v[..i], keys) {
      var rw :| rw in v[..i] && rw.kind == Write && rw.key in keys;
      assert rw in v[..i + 1];
    } else if v[i].kind == Write && v[i].key in keys {
      assert v[i] in v[..i + 1];
    }
  }

  /** Adds the arc to `j`, once, if `j`'s transaction writes one of the keys. */
  method AddArc(arcs0: seq<nat>, j: nat, v: seq<RWNode>, rKeys: seq<Key>, wKeys: seq<Key>) returns (arcs: seq<nat>)
    requires Distinct(arcs0) && j !in arcs0
    ensures Distinct(arcs)
    ensures forall x :: x in arcs <==> x in arcs0 || (x == j && (WritesInto(v, rKeys) || WritesInto(v, wKeys)))
  {
    hide WritesInto;
    arcs := arcs0;
    NothingWritten(v, rKeys, wKeys);
    for i := 0 to |v|
      invariant Distinct(arcs)
      invariant forall x :: x in arcs <==> x in arcs0 || (x == j && (WritesInto(v[..i], rKeys) || WritesInto(v[..i], wKeys)))
    {
      var rw := v[i];
      WritesMore(v, i, rKeys);
      WritesMore(v, i, wKeys);
      if rw.kind == Write && rw.key in rKeys {
        if j !in arcs {
          arcs := arcs + [j];
        }
      } else if rw.kind == Write && rw.key in wKeys {
        if j !in arcs {
          arcs := arcs + [j];
        }
      }
    }
    assert v[..|v|] == v;
  }

  lemma NothingWritten(v: seq<RWNode>, rKeys: seq<Key>, wKeys: seq<Key>)
    ensures !WritesInto(v[..0], rKeys) && !WritesInto(v[..0], wKeys)
  {
  }

  lemma NoWritten(v: seq<RWNode>)
    ensures !WritesInto(v, [])
  {
  }

  lemma WritesMeansShare(a: seq<RWNode>, b: seq<RWNode>, rKeys: seq<Key>, wKeys: seq<Key>)
    requires AreKeys(a, rKeys, wKeys)
    ensures WritesInto(b, rKeys) <==> Share(a, Read, b)
    ensures WritesInto(b, wKeys) <==> Share(a, Write, b)
  {
    forall kind, keys | keys == (if kind == Read then rKeys else wKeys) ensures WritesInto(b, keys) <==> Share(a, kind, b) {
      if WritesInto(b, keys) {
        var rw :| rw in b && rw.kind == Write && rw.key in keys;
        assert Touches(a, rw.key, kind) && Touches(b, rw.key, Write);
      }
      if Share(a, kind, b) {
        var k :| Touches(a, k, kind) && Touches(b, k, Write);
        assert k in keys;
      }
    }
    assert WritesInto(b, rKeys) <==> Share(a, Read, b);
  }

  // ------------------------------------------------------ the plain construction

  /** The arcs out of transaction `i`. */
  method ArcsOf(txs: Block, i: nat) returns (arcs: seq<nat>)
    requires i < |txs|
    ensures Distinct(arcs) && forall j: nat :: j in arcs <==> MustPrecede(txs, i, j)
  {
    hide Share, WritesInto, AreKeys;
    var rKeys, wKeys := CollectKeys(txs[i]);
    arcs := [];
    var j := i + 1;
    while j < |txs|
      invariant i < j <= |txs| && Distinct(arcs)
      invariant forall x: nat :: x in arcs <==> i < x < j && MustPrecede(txs, i, x)
    {
      WritesMeansShare(txs[i], txs[j], rKeys, wKeys);
      arcs := AddArc(arcs, j, txs[j], rKeys, wKeys);
      j := j + 1;
    }
    var k := i - 1;
    while k >= 0
      invariant -1 <= k < i && Distinct(arcs)
      invariant forall x: nat :: x in arcs <==> k < x && MustPrecede(txs, i, x)
    {
      WritesMeansShare(txs[i], txs[k], rKeys, wKeys);
      NoWritten(txs[k]);
      arcs := AddArc(arcs, k, txs[k], rKeys, []);
      k := k - 1;
    }
  }

  /** `BuildConflictGraph`: exactly the arcs a serial order must respect, each once. */
  method BuildConflictGraph(txs: Block) returns (g: Graph)
    ensures Realises(txs, g) && forall i :: 0 <= i < |g| ==> Distinct(g[i])
  {
    hide MustPrecede;
    g := [];
    for i := 0 to |txs|
      invariant |g| == i && forall u :: 0 <= u < i ==> Distinct(g[u]) && forall j: nat :: j in g[u] <==> MustPrecede(txs, u, j)
    {
      var arcs := ArcsOf(txs, i);
      g := g + [arcs];
    }
  }

  // ------------------------------------------------------ the light construction

  type Index = map<Key, seq<nat>>

  ghost predicate Lists(wSet: Index, k: Key, x: nat) {
    k in wSet && x in wSet[k]
  }

  /** For each key, exactly the transactions before `n` that write it. */
  ghost predicate IsIndex(txs: Block, n: nat, wSet: Index) {
    n <= |txs| && forall k, i: nat :: Lists(wSet, k, i) <==> i < n && Touches(txs[i], k, Write)
  }

  lemma ListsMore(wSet: Index, k0: Key, i: nat)
    ensures
      var wSet' := wSet[k0 := (if k0 in wSet then wSet[k0] else []) + [i]];
      forall k, x: nat :: Lists(wSet', k, x) <==> Lists(wSet, k, x) || (k == k0 && x == i)
  {
    var list := if k0 in wSet then wSet[k0] else [];
    var wSet' := wSet[k0 := list + [i]];
    forall k: Key, x: nat ensures Lists(wSet', k, x) <==> Lists(wSet, k, x) || (k == k0 && x == i) {
      if k == k0 {
        assert x in list + [i] <==> x in list || x == i;
      }
    }
  }

  /** `wSet` is `wSet0` with `i` under every key that `v` writes. */
  ghost predicate Entered(v: seq<RWNode>, i: nat, wSet0: Index, wSet: Index) {
    forall k, x: nat :: Lists(wSet, k, x) <==> Lists(wSet0, k, x) || (x == i && Touches(v, k, Write))
  }

  lemma EnterOne(v: seq<RWNode>, i: nat, wSet0: Index, wSet: Index, rw: RWNode)
    requires Entered(v, i, wSet0, wSet)
    ensures
      var wSet' := if rw.kind == Write then wSet[rw.key := (if rw.key in wSet then wSet[rw.key] else []) + [i]] else wSet;
      Entered(v + [rw], i, wSet0, wSet')
  {
    var wSet' := if rw.kind == Write then wSet[rw.key := (if rw.key in wSet then wSet[rw.key] else []) + [i]] else wSet;
    TouchesMore(v, rw);
    ListsMore(wSet, rw.key, i);
    forall k: Key, x: nat
      ensures Lists(wSet', k, x) <==> Lists(wSet0, k, x) || (x == i && Touches(v + [rw], k, Write))
    {
      assert Lists(wSet, k, x) <==> Lists(wSet0, k, x) || (x == i && Touches(v, k, Write));
      assert Touches(v + [rw], k, Write) <==> Touches(v, k, Write) || (rw.key == k && rw.kind == Write);
    }
  }

  /** Enters the writes of `v`, transaction `i`, into the index. */
  method IndexWrites(v: seq<RWNode>, i: nat, wSet0: Index) returns (wSet: Index)
    ensures Entered(v, i, wSet0, wSet)
  {
    hide Entered;
    wSet := wSet0;
    NothingEntered(v, i, wSet);
    for a := 0 to |v|
      invariant Entered(v[..a], i, wSet0, wSet)
    {
      var rw := v[a];
      EnterOne(v[..a], i, wSet0, wSet, rw);
      if rw.kind == Write {
        wSet := wSet[rw.key := (if rw.key in wSet then wSet[rw.key] else []) + [i]];
      }
      assert v[..a + 1] == v[..a] + [rw];
    }
    assert v[..|v|] == v;
  }

  lemma NothingEntered(v: seq<RWNode>, i: nat, wSet: Index)
    ensures Entered(v[..0], i, wSet, wSet)
  {
  }

  /** Appends `j` for every write of its transaction among the keys. */
  method AppendArcs(arcs0: seq<nat>, j: nat, v: seq<RWNode>, wKeys: seq<Key>) returns (arcs: seq<nat>)
    ensures forall x :: x in arcs <==> x in arcs0 || (x == j && WritesInto(v, wKeys))
  {
    hide WritesInto;
    arcs := arcs0;
    NothingWritten(v, wKeys, wKeys);
    for i := 0 to |v|
      invariant forall x :: x in arcs <==> x in arcs0 || (x == j && WritesInto(v[..i], wKeys))
    {
      WritesMore(v, i, wKeys);
      if v[i].kind == Write && v[i].key in wKeys {
        arcs := arcs + [j];
      }
    }
    assert v[..|v|] == v;
  }

  /** The later transactions that write what `i` writes. */
  ghost predicate AreLater(txs: Block, i: nat, arcs: seq<nat>) {
    i < |txs| && forall j: nat :: j in arcs <==> i < j < |txs| && Share(txs[i], Write, txs[j])
  }

  method WriteWriteArcs(txs: Block, i: nat, wKeys: seq<Key>, ghost rKeys: seq<Key>) returns (arcs: seq<nat>)
    requires i < |txs| && AreKeys(txs[i], rKeys, wKeys)
    ensures AreLater(txs, i, arcs)
  {
    hide Share, WritesInto, AreKeys;
    arcs := [];
    var j := i + 1;
    while j < |txs|
      invariant i < j <= |txs|
      invariant forall x: nat :: x in arcs <==> i < x < j && Share(txs[i], Write, txs[x])
    {
      WritesMeansShare(txs[i], txs[j], rKeys, wKeys);
      arcs := AppendArcs(arcs, j, txs[j], wKeys);
      j := j + 1;
    }
  }

  /** The writers of a key, other than `i`, that are not yet among the arcs. */
  method AddWriters(arcs0: seq<nat>, i: nat, writers: seq<nat>) returns (arcs: seq<nat>)
    ensures forall x :: x in arcs <==> x in arcs0 || (x != i && x in writers)
  {
    arcs := arcs0;
    for a := 0 to |writers|
      invariant forall x :: x in arcs <==> x in arcs0 || (x != i && x in writers[..a])
    {
      assert writers[..a + 1] == writers[..a] + [writers[a]];
      if writers[a] != i && writers[a] !in arcs {
        arcs := arcs + [writers[a]];
      }
    }
    assert writers[..|writers|] == writers;
  }

  ghost predicate ReadsFromWriter(v: seq<RWNode>, wSet: Index, x: nat) {
    exists rw :: rw in v && rw.kind == Read && Lists(wSet, rw.key, x)
  }

  lemma ReadsMore(v: seq<RWNode>, i: nat, wSet: Index)
    requires i < |v|
    ensures forall x: nat :: ReadsFromWriter(v[..i + 1], wSet, x) <==>
                             ReadsFromWriter(v[..i], wSet, x) || (v[i].kind == Read && Lists(wSet, v[i].key, x))
  {
    assert v[..i + 1] == v[..i] + [v[i]];
    forall x: nat ensures ReadsFromWriter(v[..i + 1], wSet, x) <==>
                          ReadsFromWriter(v[..i], wSet, x) || (v[i].kind == Read && Lists(wSet, v[i].key, x))
    {
      if ReadsFromWriter(v[..i], wSet, x) {
        var rw :| rw in v[..i] && rw.kind == Read && Lists(wSet, rw.key, x);
        assert rw in v[..i + 1];
      } else if v[i].kind == Read && Lists(wSet, v[i].key, x) {
        assert v[i] in v[..i + 1];
      }
    }
  }

  method ReadWriteArcs(arcs0: seq<nat>, i: nat, v: seq<RWNode>, wSet: Index) returns (arcs: seq<nat>)
    ensures forall x: nat :: x in arcs <==> x in arcs0 || (x != i && ReadsFromWriter(v, wSet, x))
  {
    hide ReadsFromWriter;
    arcs := arcs0;
    NothingRead(v, wSet);
    for a := 0 to |v|
      invariant forall x: nat :: x in arcs <==> x in arcs0 || (x != i && ReadsFromWriter(v[..a], wSet, x))
    {
      ReadsMore(v, a, wSet);
      var rw := v[a];
      if rw.kind == Read && rw.key in wSet {
        arcs := AddWriters(arcs, i, wSet[rw.key]);
      }
    }
    assert v[..|v|] == v;
  }

  lemma NothingRead(v: seq<RWNode>, wSet: Index)
    ensures forall x: nat :: !ReadsFromWriter(v[..0], wSet, x)
  {
  }

  /** The index answers what the plain construction searches for. */
  lemma IndexMeansShare(txs: Block, i: nat, wSet: Index, x: nat)
    requires i < |txs| && IsIndex(txs, |txs|, wSet)
    ensures ReadsFromWriter(txs[i], wSet, x) <==> x < |txs| && Share(txs[i], Read, txs[x])
  {
    if ReadsFromWriter(txs[i], wSet, x) {
      var rw :| rw in txs[i] && rw.kind == Read && Lists(wSet, rw.key, x);
      assert Touches(txs[i], rw.key, Read) && Touches(txs[x], rw.key, Write);
    }
    if x < |txs| && Share(txs[i], Read, txs[x]) {
      var k :| Touches(txs[i], k, Read) && Touches(txs[x], k, Write);
      assert Lists(wSet, k, x);
    }
  }

  /** `NewBuildConflictGraph`: the same arcs, found through an index of writers. */
  method NewBuildConflictGraph(txs: Block) returns (g: Graph)
    ensures Realises(txs, g)
  {
    hide Entered, Share, IsIndex, AreKeys, ReadsFromWriter, AreLater, MustPrecede;
    var g0: Graph, wSet: Index := [], map[];
    EmptyIndex(txs);
    for i := 0 to |txs|
      invariant |g0| == i && IsIndex(txs, i, wSet)
      invariant forall u :: 0 <= u < i ==> AreLater(txs, u, g0[u])
    {
      var rKeys, wKeys := CollectKeys(txs[i]);
      var before := wSet;
      wSet := IndexWrites(txs[i], i, wSet);
      IndexNext(txs, i, before, wSet);
      var arcs := WriteWriteArcs(txs, i, wKeys, rKeys);
      g0 := g0 + [arcs];
    }
    g := [];
    for i := 0 to |txs|
      invariant |g| == i && forall u, j: nat :: 0 <= u < i ==> (j in g[u] <==> MustPrecede(txs, u, j))
    {
      var arcs := ReadWriteArcs(g0[i], i, txs[i], wSet);
      ArcsComplete(txs, i, wSet, g0[i], arcs);
      g := g + [arcs];
    }
  }

  lemma ArcsComplete(txs: Block, i: nat, wSet: Index, later: seq<nat>, arcs: seq<nat>)
    requires i < |txs| && IsIndex(txs, |txs|, wSet) && AreLater(txs, i, later)
    requires forall x: nat :: x in arcs <==> x in later || (x != i && ReadsFromWriter(txs[i], wSet, x))
    ensures forall j: nat :: j in arcs <==> MustPrecede(txs, i, j)
  {
    hide Share, IsIndex, ReadsFromWriter;
    forall j: nat ensures j in arcs <==> MustPrecede(txs, i, j) {
      IndexMeansShare(txs, i, wSet, j);
    }
  }

  lemma EmptyIndex(txs: Block)
    ensures IsIndex(txs, 0, map[])
  {
  }

  lemma IndexNext(txs: Block, i: nat, wSet: Index, wSet': Index)
    requires i < |txs| && IsIndex(txs, i, wSet)
    requires Entered(txs[i], i, wSet, wSet')
    ensures IsIndex(txs, i + 1, wSet')
  {
    hide Lists, Touches;
  }
}

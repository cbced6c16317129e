/**
 Is the sequence of queues determined by the block? The dependencies of a queue are
 collected in a map, so their arcs come in any order. The sequence is the same for all of
 these orders exactly if no queue is the last that two others wait for.
 */
module Ranking {
  import opened Sequences
  import opened Deltas
  import opened AddressQueues
  import opened Sorting
  import opened Nezha
  import opened SortOrder
  import G = Digraph
  import TS = TopologicalSort

  lemma {:induction false} ListingIsOne(a: seq<Key>, b: seq<Key>)
    requires Distinct(a) && Distinct(b) && Alphabetical(a) && Alphabetical(b) && forall k :: k in a <==> k in b
    ensures a == b
    decreases |a|
  {
    hide InDictionary;
    if a == [] {
      if b != [] {
        HasMember(b);
      }
    } else {
      assert a[0] in a && a[0] in b && b != [] && b[0] in b && b[0] in a;
      var i :| 0 <= i < |b| && b[i] == a[0];
      var j :| 0 <= j < |a| && a[j] == b[0];
      DictionaryOnce(a[0], b[0]);
      assert a[0] == b[0];
      assert a == [a[0]] + a[1..] && b == [b[0]] + b[1..];
      forall k ensures k in a[1..] <==> k in b[1..] {
        assert k in a <==> k == a[0] || k in a[1..];
        assert k in b <==> k == b[0] || k in b[1..];
      }
      ListingIsOne(a[1..], b[1..]);
    }
  }

  lemma DictionaryOnce(a: string, b: string)
    ensures InDictionary(a, b) && InDictionary(b, a) ==> a == b
  {
    hide InDictionary;
    StringLeIs(a, b);
    StringLeIs(b, a);
    StringLeTotal(a, b);
  }

  lemma DepsAreAlike(edges: Edges, names: seq<Key>, deps: G.Graph, deps': G.Graph)
    requires IsDeps(edges, names, deps)
    ensures Alike(deps, deps') <==> IsDeps(edges, names, deps')
    ensures forall u :: 0 <= u < |deps| ==> Distinct(deps[u])
  {
    hide Depends;
    forall u | 0 <= u < |deps| ensures Distinct(deps[u]) {
      assert IsDepsOf(edges, names, names[u], deps[u]);
    }
    if Alike(deps, deps') {
      forall u | 0 <= u < |names| ensures IsDepsOf(edges, names, names[u], deps'[u]) {
        assert IsDepsOf(edges, names, names[u], deps[u]) && SameArcs(deps[u], deps'[u]);
      }
    }
    if IsDeps(edges, names, deps') {
      forall u | 0 <= u < |deps| ensures SameArcs(deps[u], deps'[u]) {
        assert IsDepsOf(edges, names, names[u], deps[u]) && IsDepsOf(edges, names, names[u], deps'[u]);
      }
    }
  }

  lemma SameNames(names: seq<Key>, order: seq<nat>, order': seq<nat>, sequence: seq<Key>)
    requires Distinct(names) && Named(names, order, sequence) && Named(names, order', sequence)
    ensures order == order'
  {
  }

  lemma SameLength(g: G.Graph, a: seq<nat>, b: seq<nat>)
    requires TS.IsSortOrder(g, a) && TS.IsSortOrder(g, b)
    ensures |a| == |b|
  {
    hide TS.Stepwise, TS.InLine;
    DistinctSize(a);
    DistinctSize(b);
    assert Elements(a) == Elements(b);
  }

  /** Without ties there is one sequence. */
  lemma RankingIsOne(edges: Edges, queues: Queues, names: seq<Key>, deps: G.Graph, order: seq<nat>, sequence: seq<Key>,
                     names': seq<Key>, deps': G.Graph, order': seq<nat>, sequence': seq<Key>)
    requires IsRanking(edges, queues, names, deps, order, sequence) && NoTies(deps, order)
    requires IsRanking(edges, queues, names', deps', order', sequence')
    ensures sequence == sequence'
  {
    hide NoTies, Alphabetical, TS.IsSortOrder, Alike, IsDeps;
    ListingIsOne(names, names');
    DepsAreAlike(edges, names, deps, deps');
    ListingIsFree(deps, deps', order);
    SameLength(deps', order, order');
    OrderIsOne(deps', order, order', |order|);
    assert order == order[..|order|] == order'[..|order|] == order';
  }

  /** With a tie some order of the arcs leads to no sequence but another one. */
  lemma RankingVaries(edges: Edges, queues: Queues, names: seq<Key>, deps: G.Graph, order: seq<nat>, sequence: seq<Key>)
    returns (deps': G.Graph)
    requires IsRanking(edges, queues, names, deps, order, sequence) && !NoTies(deps, order)
    ensures IsDeps(edges, names, deps')
    ensures forall order', sequence' :: IsRanking(edges, queues, names, deps', order', sequence') ==> sequence' != sequence
  {
    hide Alphabetical, TS.IsSortOrder, Alike, IsDeps, TS.JustFreed, Named;
    var n: nat, u: nat, v: nat :| TS.JustFreed(deps, order, n, u) && TS.JustFreed(deps, order, n, v) && u != v;
    DepsAreAlike(edges, names, deps, deps);
    deps' := ListingMatters(deps, order, n, u, v);
    DepsAreAlike(edges, names, deps, deps');
    forall order', sequence' | IsRanking(edges, queues, names, deps', order', sequence') ensures sequence' != sequence {
      if sequence' == sequence {
        SameNames(names, order, order', sequence);
      }
    }
  }

  // ------------------------------------------------------------- an example

  const NAMES: seq<Key> := ["a", "b", "c"]

  /** One transaction writes a and reads b and c. */
  const EDGES: Edges := map["t" := [RWNode("t", "a", Write), RWNode("t", "b", Read), RWNode("t", "c", Read)]]

  lemma StepsOfSources(g: G.Graph, order: seq<nat>)
    requires forall i :: 0 <= i < |order| ==> TS.Freed(g, order[..i], order[i])
    ensures TS.Stepwise(g, order)
  {
    hide TS.InCount;
    forall i | 0 <= i < |order|
      ensures
        var sorted := TS.Marks(|g|, order[..i]);
        TS.IsNext(g, sorted, TS.Counts(g, sorted), order[i])
    {
      TS.InCountZero(g, TS.Marks(|g|, order[..i]), order[i], |g|);
    }
  }

  lemma ForkFreed(x: nat, y: nat, v: nat)
    requires (x == 1 && y == 2) || (x == 2 && y == 1)
    ensures TS.Freed([[x, y], [], []], [], v) <==> v == 0
    ensures TS.Freed([[x, y], [], []], [0], v) <==> v == x || v == y
    ensures TS.Freed([[x, y], [], []], [0, x], v) <==> v == y
    ensures !TS.Freed([[x, y], [], []], [0, x, y], v)
  {
    var g: G.Graph := [[x, y], [], []];
    assert x in g[0] && y in g[0];
  }

  lemma ForkArcs(x: nat, y: nat)
    requires x != y
    ensures TS.EndsBefore([x, y], x, y)
  {
    var arcs := [x, y];
    assert arcs[1] == y;
    assert TS.Later(arcs, 0, y);
  }

  /** A vertex with two arcs is followed by their heads, in the order of the arcs. */
  lemma ForkOrder(x: nat, y: nat)
    requires (x == 1 && y == 2) || (x == 2 && y == 1)
    ensures TS.IsSortOrder([[x, y], [], []], [0, x, y])
  {
    hide TS.Freed, TS.EndsBefore, TS.Stepwise;
    var g: G.Graph, order := [[x, y], [], []], [0, x, y];
    assert order[..0] == [] && order[..1] == [0] && order[..2] == [0, x] && order[..3] == order;
    forall v: nat
      ensures (TS.Freed(g, [], v) <==> v == 0) && (TS.Freed(g, [0], v) <==> v == x || v == y)
      ensures (TS.Freed(g, [0, x], v) <==> v == y) && !TS.Freed(g, order, v)
    {
      ForkFreed(x, y, v);
    }
    StepsOfSources(g, order);
    ForkArcs(x, y);
  }

  lemma ForkDeps(x: nat, y: nat)
    requires (x == 1 && y == 2) || (x == 2 && y == 1)
    ensures IsDeps(EDGES, NAMES, [[x, y], [], []])
  {
    var g: G.Graph := [[x, y], [], []];
    assert forall a, b :: Depends(EDGES, a, b) <==> a == "a" && (b == "b" || b == "c") by {
      ForkDepends();
    }
    hide Depends;
    assert IsDepsOf(EDGES, NAMES, NAMES[0], g[0]);
  }

  lemma ForkDepends()
    ensures forall a, b :: Depends(EDGES, a, b) <==> a == "a" && (b == "b" || b == "c")
  {
    var nodes := EDGES["t"];
    assert nodes[0] in nodes && nodes[1] in nodes && nodes[2] in nodes;
    assert HasNode(EDGES, RWNode("t", "a", Write)) && HasNode(EDGES, RWNode("t", "b", Read)) && HasNode(EDGES, RWNode("t", "c", Read));
  }

  /** One block, two sequences. */
  lemma TwoSequences(queues: Queues)
    requires queues.Keys == {"a", "b", "c"}
    ensures IsRanking(EDGES, queues, NAMES, [[1, 2], [], []], [0, 1, 2], ["a", "b", "c"])
    ensures IsRanking(EDGES, queues, NAMES, [[2, 1], [], []], [0, 2, 1], ["a", "c", "b"])
  {
    hide TS.IsSortOrder, IsDeps;
    ForkOrder(1, 2);
    ForkOrder(2, 1);
    ForkDeps(1, 2);
    ForkDeps(2, 1);
    assert Alphabetical(NAMES) by {
      assert Differ("a", "b", 0) && Differ("a", "c", 0) && Differ("b", "c", 0);
    }
    assert forall k :: k in NAMES <==> k in queues.Keys;
  }
}

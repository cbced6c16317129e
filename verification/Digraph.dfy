/**
 Directed graphs as adjacency lists: walks, reachability, cycles.
 */
module Digraph {
  import opened Sequences

  type Graph = seq<seq<nat>>

  ghost predicate InRange(g: Graph) {
    forall u, v :: 0 <= u < |g| && v in g[u] ==> v < |g|
  }

  ghost predicate Edge(g: Graph, u: nat, v: nat) {
    u < |g| && v in g[u]
  }

  /** A nonempty sequence of vertices, each with an arc to the next. */
  ghost predicate Walk(g: Graph, p: seq<nat>) {
    && p != []
    && (forall i :: 0 <= i < |p| ==> p[i] < |g|)
    && (forall i :: 0 <= i < |p| - 1 ==> Edge(g, p[i], p[i + 1]))
  }

  ghost predicate WalkFromTo(g: Graph, p: seq<nat>, a: nat, b: nat) {
    Walk(g, p) && p[0] == a && p[|p| - 1] == b
  }

  ghost predicate Reach(g: Graph, a: nat, b: nat) {
    exists p :: WalkFromTo(g, p, a, b)
  }

  /** No walk with at least one arc comes back to its start. */
  ghost predicate Acyclic(g: Graph) {
    forall p :: Walk(g, p) && |p| >= 2 ==> p[0] != p[|p| - 1]
  }

  // ---------------------------------------------------------- reachability

  lemma ReachSelf(g: Graph, a: nat)
    requires a < |g|
    ensures Reach(g, a, a)
  {
    assert WalkFromTo(g, [a], a, a);
  }

  lemma JoinWalks(g: Graph, p: seq<nat>, q: seq<nat>)
    requires Walk(g, p) && Walk(g, q) && p[|p| - 1] == q[0]
    ensures Walk(g, p + q[1..]) && (p + q[1..])[|p + q[1..]| - 1] == q[|q| - 1]
  {
    hide Edge;
    var r := p + q[1..];
    forall i | 0 <= i < |r| - 1 ensures Edge(g, r[i], r[i + 1]) {
      if i < |p| - 1 {
        assert r[i] == p[i] && r[i + 1] == p[i + 1];
      } else {
        var j := i - (|p| - 1);
        assert r[i] == q[j] && r[i + 1] == q[j + 1];
      }
    }
  }

  lemma ReachTransitive(g: Graph, a: nat, b: nat, c: nat)
    requires Reach(g, a, b) && Reach(g, b, c)
    ensures Reach(g, a, c)
  {
    hide Walk;
    var p :| WalkFromTo(g, p, a, b);
    var q :| WalkFromTo(g, q, b, c);
    assert p != [] && q != [] by { NonEmpty(g, p); NonEmpty(g, q); }
    JoinWalks(g, p, q);
    assert WalkFromTo(g, p + q[1..], a, c);
  }

  lemma NonEmpty(g: Graph, p: seq<nat>)
    requires Walk(g, p)
    ensures p != []
  {
  }

  lemma ReachEdge(g: Graph, a: nat, b: nat)
    requires InRange(g) && Edge(g, a, b)
    ensures Reach(g, a, b)
  {
    assert WalkFromTo(g, [a, b], a, b);
  }

  /** A walk that starts in `inside` and ends outside leaves it by some arc, and
      the arc's head still reaches the end. */
  lemma {:induction false} WalkLeaves(g: Graph, p: seq<nat>, inside: set<nat>) returns (x: nat, y: nat)
    requires Walk(g, p) && p[0] in inside && p[|p| - 1] !in inside
    ensures x in inside && y !in inside && Edge(g, x, y) && Reach(g, y, p[|p| - 1])
    decreases |p|
  {
    hide Edge;
    if p[1] in inside {
      WalkTail(g, p);
      x, y := WalkLeaves(g, p[1..], inside);
    } else {
      x, y := p[0], p[1];
      WalkTail(g, p);
      assert WalkFromTo(g, p[1..], y, p[|p| - 1]);
    }
  }

  lemma WalkTail(g: Graph, p: seq<nat>)
    requires Walk(g, p) && |p| > 1
    ensures Walk(g, p[1..])
  {
    hide Edge;
    var q := p[1..];
    forall i | 0 <= i < |q| - 1 ensures Edge(g, q[i], q[i + 1]) {
      assert Edge(g, p[i + 1], p[i + 1 + 1]);
    }
  }

  lemma LeavesOnReach(g: Graph, a: nat, b: nat, inside: set<nat>) returns (x: nat, y: nat)
    requires Reach(g, a, b) && a in inside && b !in inside
    ensures x in inside && y !in inside && Edge(g, x, y) && Reach(g, y, b)
  {
    hide Edge;
    var p :| WalkFromTo(g, p, a, b);
    x, y := WalkLeaves(g, p, inside);
  }

  /** What is closed under arcs is closed under reachability. */
  lemma ClosedUnderReach(g: Graph, s: set<nat>, a: nat, b: nat)
    requires Reach(g, a, b) && a in s
    requires forall u, v :: u in s && Edge(g, u, v) ==> v in s
    ensures b in s
  {
    hide Edge, Reach;
    if b !in s {
      var x, y := LeavesOnReach(g, a, b, s);
    }
  }

  // ------------------------------------------------------------- pigeonhole

  ghost predicate Repeats(p: seq<nat>, i: nat, j: nat) {
    i < j < |p| && p[i] == p[j]
  }

  ghost function UpTo(n: nat): (s: set<nat>)
    ensures |s| == n && forall i :: i in s <==> 0 <= i < n
  {
    if n == 0 then {} else UpTo(n - 1) + {n - 1}
  }

  lemma Pigeonhole(p: seq<nat>, n: nat)
    requires |p| > n && forall x :: x in p ==> x < n
    ensures exists i: nat, j: nat :: Repeats(p, i, j)
  {
    if forall i: nat, j: nat :: !Repeats(p, i, j) {
      forall i, j | 0 <= i < j < |p| ensures p[i] != p[j] { assert !Repeats(p, i, j); }
      DistinctSize(p);
      SubsetSize(Elements(p), UpTo(n));
    }
  }

  // ------------------------------------------------------ sources exist

  ghost predicate HasPredecessorIn(g: Graph, s: set<nat>, v: nat) {
    exists u :: u in s && Edge(g, u, v)
  }

  /** Walking backwards inside a set where everyone has a predecessor. */
  lemma {:induction false} WalkBack(g: Graph, s: set<nat>, v: nat, n: nat) returns (p: seq<nat>)
    requires v in s && forall u :: u in s ==> u < |g| && HasPredecessorIn(g, s, u)
    ensures Walk(g, p) && |p| == n + 1 && p[n] == v && forall x :: x in p ==> x in s
    decreases n
  {
    hide Edge, Walk, HasPredecessorIn;
    if n == 0 {
      p := [v];
      TrivialWalk(g, v);
    } else {
      var u := APredecessor(g, s, v);
      var q := WalkBack(g, s, u, n - 1);
      p := q + [v];
      WalkExtends(g, q, v);
    }
  }

  lemma APredecessor(g: Graph, s: set<nat>, v: nat) returns (u: nat)
    requires HasPredecessorIn(g, s, v)
    ensures u in s && Edge(g, u, v)
  {
    u :| u in s && Edge(g, u, v);
  }

  lemma TrivialWalk(g: Graph, v: nat)
    requires v < |g|
    ensures Walk(g, [v])
  {
  }

  lemma WalkExtends(g: Graph, q: seq<nat>, v: nat)
    requires Walk(g, q) && v < |g| && Edge(g, q[|q| - 1], v)
    ensures Walk(g, q + [v])
  {
    hide Edge;
    var p := q + [v];
    forall i | 0 <= i < |p| - 1 ensures Edge(g, p[i], p[i + 1]) {
      assert p[i] == q[i];
    }
  }

  lemma WalkSlice(g: Graph, p: seq<nat>, i: nat, j: nat)
    requires Walk(g, p) && i < j < |p|
    ensures Walk(g, p[i..j + 1])
  {
    hide Edge;
    var q := p[i..j + 1];
    forall k | 0 <= k < |q| - 1 ensures Edge(g, q[k], q[k + 1]) {
      assert Edge(g, p[i + k], p[i + k + 1]);
    }
  }

  /** In an acyclic graph every nonempty set of vertices has a member without a
      predecessor in the set. */
  lemma SourceExists(g: Graph, s: set<nat>) returns (v: nat)
    requires Acyclic(g) && s != {} && forall u :: u in s ==> u < |g|
    ensures v in s && !HasPredecessorIn(g, s, v)
  {
    hide Edge, Walk;
    if forall u :: u in s ==> HasPredecessorIn(g, s, u) {
      hide HasPredecessorIn;
      var w :| w in s;
      var p := WalkBack(g, s, w, |g|);
      Pigeonhole(p, |g|);
      var i: nat, j: nat :| Repeats(p, i, j);
      WalkSlice(g, p, i, j);
      assert false;
    } else {
      v :| v in s && !HasPredecessorIn(g, s, v);
    }
  }
}

/**
 Tarjan's strongly connected components.
 */
module Tarjan {
  import opened Sequences
  import opened Digraph
  import opened Sorting

  datatype Scc = Scc(vertices: seq<nat>, member: seq<bool>)

  ghost predicate Mutual(g: Graph, u: nat, v: nat) {
    Reach(g, u, v) && Reach(g, v, u)
  }

  /** A component: strictly increasing vertices, their characteristic vector, and
      exactly the vertices that reach, and are reached by, any one of them. */
  ghost predicate IsComponent(g: Graph, c: Scc) {
    && c.vertices != [] && |c.member| == |g|
    && (forall i, j :: 0 <= i < j < |c.vertices| ==> c.vertices[i] < c.vertices[j])
    && (forall v :: v in c.vertices ==> v < |g|)
    && (forall v :: 0 <= v < |g| ==> (c.member[v] <==> v in c.vertices))
    && (forall u, v :: u in c.vertices ==> (v in c.vertices <==> Mutual(g, u, v)))
  }

  ghost predicate Contains(c: Scc, v: nat) {
    v in c.vertices
  }

  /** `sccs` are components that divide up the vertices of `done`. */
  ghost predicate Divides(g: Graph, sccs: seq<Scc>, done: set<nat>) {
    && (forall i :: 0 <= i < |sccs| ==> IsComponent(g, sccs[i]))
    && (forall i, v :: 0 <= i < |sccs| && Contains(sccs[i], v) ==> v in done)
    && (forall v :: v in done ==> exists i :: 0 <= i < |sccs| && Contains(sccs[i], v))
    && (forall i, j, v :: 0 <= i < j < |sccs| && Contains(sccs[i], v) ==> !Contains(sccs[j], v))
  }

  // ------------------------------------------------------------ invariant

  /** Where a search stands: discovery times (-1 for unvisited), the stack, the
      vertices on the current path, and those whose component is complete. */
  datatype Search = Search(disc: seq<int>, st: seq<nat>, path: set<nat>, done: set<nat>)

  ghost predicate Visited(s: Search, v: nat) {
    v < |s.disc| && s.disc[v] != -1
  }

  ghost predicate Earlier(s: Search, u: nat, v: nat) {
    u < |s.disc| && v < |s.disc| && s.disc[u] < s.disc[v]
  }

  ghost predicate NoLater(s: Search, u: nat, v: nat) {
    u < |s.disc| && v < |s.disc| && s.disc[u] <= s.disc[v]
  }

  ghost predicate Stacked(g: Graph, s: Search) {
    && |s.disc| == |g|
    && (forall v: nat :: v in s.st <==> Visited(s, v) && v !in s.done)
    && (forall i, j :: 0 <= i < j < |s.st| ==> Earlier(s, s.st[i], s.st[j]))
    && (forall v :: v in s.path ==> v in s.st)
    && (forall v :: v in s.done ==> Visited(s, v))
    && (forall v :: 0 <= v < |g| ==> s.disc[v] >= -1)
  }

  /** Completed vertices lead only to completed ones; those off the current path
      lead only to visited ones. */
  ghost predicate Explored(g: Graph, s: Search) {
    && (forall u, v :: u in s.done && Edge(g, u, v) ==> v in s.done)
    && (forall u, v :: u in s.st && u !in s.path && Edge(g, u, v) ==> Visited(s, v))
  }

  /** The path reaches everything stacked later; everything stacked reaches back
      to the path. */
  ghost predicate Connected(g: Graph, s: Search) {
    && (forall x, y :: x in s.path && y in s.st && NoLater(s, x, y) ==> Reach(g, x, y))
    && (forall y :: y in s.st ==> exists x :: x in s.path && NoLater(s, x, y) && Reach(g, y, x))
  }

  ghost predicate SearchInv(g: Graph, s: Search) {
    InRange(g) && Stacked(g, s) && Explored(g, s) && Connected(g, s)
  }

  // ------------------------------------------------------- entering a vertex

  ghost function Entered(s: Search, u: nat, time: int): Search
    requires u < |s.disc|
  {
    Search(s.disc[u := time], s.st + [u], s.path + {u}, s.done)
  }

  ghost predicate Before(s: Search, time: int) {
    time >= 0 && forall v :: 0 <= v < |s.disc| ==> s.disc[v] < time
  }

  lemma EnterStacked(g: Graph, s: Search, u: nat, time: int)
    requires Stacked(g, s) && Before(s, time) && u < |g| && !Visited(s, u)
    ensures |s.disc| == |g|
    ensures Stacked(g, Entered(s, u, time)) && Before(Entered(s, u, time), time + 1)
    ensures forall v: nat :: Visited(Entered(s, u, time), v) <==> Visited(s, v) || v == u
  {
    assert forall i :: 0 <= i < |s.st| ==> s.st[i] in s.st;
  }

  lemma EnterConnected(g: Graph, s: Search, u: nat, time: int)
    requires Stacked(g, s) && Connected(g, s) && Before(s, time) && u < |g| == |s.disc| && !Visited(s, u)
    requires forall x :: x in s.path ==> Reach(g, x, u)
    requires Reach(g, u, u)
    ensures Connected(g, Entered(s, u, time))
  {
    hide Reach, NoLater, Stacked, Before, Entered, Visited;
    EnterOrder(g, s, u, time);
    var s' := Entered(s, u, time);
    forall x, y | x in s'.path && y in s'.st && NoLater(s', x, y) ensures Reach(g, x, y) {
      if x != u && y != u {
        assert NoLater(s, x, y);
      }
    }
    forall y | y in s'.st ensures exists x :: x in s'.path && NoLater(s', x, y) && Reach(g, y, x) {
      EnterReachesBack(g, s, u, time, y);
    }
  }

  lemma EnterReachesBack(g: Graph, s: Search, u: nat, time: int, y: nat)
    requires Stacked(g, s) && Connected(g, s) && Before(s, time) && u < |g| == |s.disc| && !Visited(s, u) && Reach(g, u, u)
    requires y in Entered(s, u, time).st
    ensures exists x :: x in Entered(s, u, time).path && NoLater(Entered(s, u, time), x, y) && Reach(g, y, x)
  {
    hide Reach, NoLater, Stacked, Before, Entered, Visited;
    EnterOrder(g, s, u, time);
    var s' := Entered(s, u, time);
    if y == u {
      assert u in s'.path && NoLater(s', u, y);
    } else {
      var x :| x in s.path && NoLater(s, x, y) && Reach(g, y, x);
      assert x in s'.path && NoLater(s', x, y);
    }
  }

  lemma EnterOrder(g: Graph, s: Search, u: nat, time: int)
    requires Stacked(g, s) && Before(s, time) && u < |g| && !Visited(s, u)
    ensures var s' := Entered(s, u, time);
            && u !in s.st && u !in s.path && NoLater(s', u, u) && s'.path == s.path + {u}
            && (forall y :: y in s'.st <==> y in s.st || y == u)
            && (forall y :: y in s.st ==> !NoLater(s', u, y))
            && (forall x, y :: x in s.path && y in s.st ==> x in s.st && (NoLater(s', x, y) <==> NoLater(s, x, y)))
  {
  }

  lemma EnterKeeps(g: Graph, s: Search, u: nat, time: int)
    requires SearchInv(g, s) && Before(s, time) && u < |g| && !Visited(s, u)
    requires forall x :: x in s.path ==> Reach(g, x, u)
    ensures SearchInv(g, Entered(s, u, time)) && Before(Entered(s, u, time), time + 1)
  {
    hide Reach, Edge, Connected, Stacked, NoLater, Earlier;
    ReachSelf(g, u);
    EnterStacked(g, s, u, time);
    EnterConnected(g, s, u, time);
  }

  // ------------------------------------------------------ leaving a vertex

  /** `u`, at index `base`, is the last vertex of the path; all its arcs have been
      followed. */
  ghost predicate Finishing(g: Graph, s: Search, u: nat, base: nat) {
    && SearchInv(g, s) && base < |s.st| && s.st[base] == u && u in s.path && |s.disc| == |g|
    && (forall x :: x in s.path && x != u ==> x in s.st[..base])
    && (forall v :: Edge(g, u, v) ==> Visited(s, v))
  }

  ghost function Above(s: Search, base: nat): set<nat>
    requires base <= |s.st|
  {
    Elements(s.st[base..])
  }

  /** No arc leads from the top of the stack to below `base`. */
  ghost predicate NoWayDown(g: Graph, s: Search, base: nat)
    requires base <= |s.st|
  {
    forall x, y :: x in s.st[base..] && y in s.st[..base] ==> !Edge(g, x, y)
  }

  lemma SplitStack(s: Search, base: nat)
    requires base <= |s.st|
    ensures forall v :: v in s.st <==> v in s.st[..base] || v in Above(s, base)
  {
    assert s.st == s.st[..base] + s.st[base..];
  }

  lemma StackOrder(g: Graph, s: Search, base: nat)
    requires Stacked(g, s) && base < |s.st|
    ensures forall x, y :: x in s.st[..base] && y in Above(s, base) ==> Earlier(s, x, y) && x != y
    ensures forall y :: y in Above(s, base) ==> NoLater(s, s.st[base], y)
  {
    assert s.st[base] in s.st;
    forall x, y | x in s.st[..base] && y in Above(s, base) ensures Earlier(s, x, y) && x != y {
      var i :| 0 <= i < base && s.st[i] == x;
      var j :| base <= j < |s.st| && s.st[j] == y;
    }
    forall y | y in Above(s, base) ensures NoLater(s, s.st[base], y) {
      var j :| base <= j < |s.st| && s.st[j] == y;
      assert j == base || Earlier(s, s.st[base], s.st[j]);
    }
  }

  /** What stands above `base`, with what is done, leads nowhere else. */
  lemma ComponentClosed(g: Graph, s: Search, u: nat, base: nat)
    requires Finishing(g, s, u, base) && NoWayDown(g, s, base)
    ensures forall x, y :: x in s.done + Above(s, base) && Edge(g, x, y) ==> y in s.done + Above(s, base)
  {
    hide Edge, Connected, Reach;
    SplitStack(s, base);
    StackOrder(g, s, base);
    forall x, y | x in Above(s, base) && Edge(g, x, y) ensures y in s.done + Above(s, base) {
      assert x in s.st && x in s.st[base..];
      assert Visited(s, y);
    }
  }

  lemma ComponentReaches(g: Graph, s: Search, u: nat, base: nat, x: nat)
    requires Finishing(g, s, u, base) && NoWayDown(g, s, base) && x in Above(s, base)
    ensures Mutual(g, u, x)
  {
    hide Edge, Reach, NoWayDown;
    SplitStack(s, base);
    StackOrder(g, s, base);
    assert Reach(g, u, x);
    var z :| z in s.path && NoLater(s, z, x) && Reach(g, x, z);
    if z != u {
      ComponentClosed(g, s, u, base);
      ClosedUnderReach(g, s.done + Above(s, base), x, z);
    }
  }

  lemma ComponentIsExact(g: Graph, s: Search, u: nat, base: nat, v: nat)
    requires Finishing(g, s, u, base) && NoWayDown(g, s, base) && Mutual(g, u, v)
    ensures v in Above(s, base)
  {
    hide Edge, Reach, NoWayDown, Connected;
    SplitStack(s, base);
    ComponentClosed(g, s, u, base);
    assert u in s.st[base..];
    ClosedUnderReach(g, s.done + Above(s, base), u, v);
    if v in s.done {
      ClosedUnderReach(g, s.done, v, u);
    }
  }

  /** The vertices above `base` are one strongly connected component. */
  lemma ComponentFound(g: Graph, s: Search, u: nat, base: nat)
    requires base < |s.st| && Finishing(g, s, u, base) && NoWayDown(g, s, base)
    ensures forall w, v :: w in Above(s, base) ==> (v in Above(s, base) <==> Mutual(g, w, v))
  {
    hide Reach, Finishing, NoWayDown, Above;
    forall w, v | w in Above(s, base) ensures v in Above(s, base) <==> Mutual(g, w, v) {
      ComponentReaches(g, s, u, base, w);
      if v in Above(s, base) {
        ComponentReaches(g, s, u, base, v);
        ReachTransitive(g, w, u, v);
        ReachTransitive(g, v, u, w);
      } else if Mutual(g, w, v) {
        ReachTransitive(g, u, w, v);
        ReachTransitive(g, v, w, u);
        ComponentIsExact(g, s, u, base, v);
      }
    }
  }

  ghost function Completed(s: Search, u: nat, base: nat): Search
    requires base <= |s.st|
  {
    Search(s.disc, s.st[..base], s.path - {u}, s.done + Above(s, base))
  }

  lemma CompleteStacked(g: Graph, s: Search, u: nat, base: nat)
    requires Finishing(g, s, u, base)
    ensures Stacked(g, Completed(s, u, base))
  {
    hide Edge, Reach, Connected, Explored;
    SplitStack(s, base);
    StackOrder(g, s, base);
    var s' := Completed(s, u, base);
    forall v: nat ensures v in s'.st <==> Visited(s', v) && v !in s'.done {
      assert Visited(s', v) <==> Visited(s, v);
    }
  }

  lemma EarlierIsNotLater(s: Search, a: nat, b: nat)
    requires Earlier(s, a, b)
    ensures !NoLater(s, b, a) && NoLater(s, a, b)
  {
  }

  lemma CompleteConnected(g: Graph, s: Search, u: nat, base: nat)
    requires base < |s.st| && s.st[base] == u && Stacked(g, s) && Connected(g, s)
    ensures Connected(g, Completed(s, u, base))
  {
    hide Reach, Stacked, Earlier, NoLater, Above;
    SplitStack(s, base);
    StackOrder(g, s, base);
    assert u in Above(s, base) by { BaseIsAbove(s, base); }
    var s' := Completed(s, u, base);
    SameOrder(s, s');
    forall y | y in s'.st ensures exists x :: x in s'.path && NoLater(s', x, y) && Reach(g, y, x) {
      var x :| x in s.path && NoLater(s, x, y) && Reach(g, y, x);
      EarlierIsNotLater(s, y, u);
      assert x in s'.path && NoLater(s', x, y);
    }
  }

  lemma BaseIsAbove(s: Search, base: nat)
    requires base < |s.st|
    ensures s.st[base] in Above(s, base)
  {
    assert s.st[base..][0] == s.st[base];
  }

  lemma SameOrder(s: Search, s': Search)
    requires s'.disc == s.disc
    ensures forall a, b :: NoLater(s', a, b) <==> NoLater(s, a, b)
    ensures forall a, b :: Earlier(s', a, b) <==> Earlier(s, a, b)
    ensures forall a :: Visited(s', a) <==> Visited(s, a)
  {
  }

  /** Taking a complete component off the stack. */
  lemma CompleteKeeps(g: Graph, s: Search, u: nat, base: nat)
    requires Finishing(g, s, u, base) && NoWayDown(g, s, base)
    ensures SearchInv(g, Completed(s, u, base))
  {
    hide Edge, Reach, Connected, Stacked, NoWayDown;
    ComponentClosed(g, s, u, base);
    CompleteStacked(g, s, u, base);
    CompleteConnected(g, s, u, base);
    SplitStack(s, base);
    var s' := Completed(s, u, base);
    assert forall v: nat :: Visited(s', v) <==> Visited(s, v);
    forall w, v | w in s'.st && w !in s'.path && Edge(g, w, v) ensures Visited(s', v) {
      assert w in s.st;
    }
  }

  /** Leaving a vertex that reaches below itself: it stays on the stack. */
  lemma StayKeeps(g: Graph, s: Search, u: nat, base: nat, y: nat)
    requires Finishing(g, s, u, base) && y in s.st[..base] && Reach(g, u, y)
    ensures SearchInv(g, s.(path := s.path - {u}))
  {
    hide Edge, Reach, Connected, Earlier, NoLater;
    var s' := s.(path := s.path - {u});
    SameOrder(s, s');
    StayConnected(g, s, u, base, y);
    assert Stacked(g, s');
  }

  lemma StayConnected(g: Graph, s: Search, u: nat, base: nat, y: nat)
    requires base < |s.st| && s.st[base] == u && Stacked(g, s) && Connected(g, s)
    requires y in s.st[..base] && Reach(g, u, y)
    ensures Connected(g, s.(path := s.path - {u}))
  {
    hide Reach, Stacked, Earlier, NoLater, Above;
    SplitStack(s, base);
    StackOrder(g, s, base);
    BaseIsAbove(s, base);
    var s' := s.(path := s.path - {u});
    SameOrder(s, s');
    var z :| z in s.path && NoLater(s, z, y) && Reach(g, y, z);
    EarlierIsNotLater(s, y, u);
    forall x | x in s'.st ensures exists p :: p in s'.path && NoLater(s', p, x) && Reach(g, x, p) {
      var p :| p in s.path && NoLater(s, p, x) && Reach(g, x, p);
      if p == u {
        ReachTransitive(g, x, u, y);
        ReachTransitive(g, x, y, z);
        OrderTransitive(s, z, y, u);
        OrderTransitive(s, z, u, x);
        assert z in s'.path && NoLater(s', z, x);
      } else {
        assert p in s'.path && NoLater(s', p, x);
      }
    }
  }

  lemma OrderTransitive(s: Search, a: nat, b: nat, c: nat)
    requires NoLater(s, a, b) && NoLater(s, b, c)
    ensures NoLater(s, a, c)
  {
  }

  // --------------------------------------------------- following the arcs

  /** `low` is the time of `u` itself or of an earlier stacked vertex `u` reaches. */
  ghost predicate LowReached(g: Graph, s: Search, u: nat, base: nat, low: int)
    requires base <= |s.st|
  {
    || (u < |s.disc| && low == s.disc[u])
    || exists y :: y in s.st[..base] && y < |s.disc| && s.disc[y] == low && Reach(g, u, y)
  }

  /** `low` is no later than anything below `base` that an arc from `x` leads to. */
  ghost predicate LowCovers(g: Graph, s: Search, base: nat, x: nat, low: int)
    requires base <= |s.st|
  {
    forall y :: y in s.st[..base] && Edge(g, x, y) ==> y < |s.disc| && low <= s.disc[y]
  }

  /** Part-way through the arcs of `u`, which stands at `base`. */
  ghost predicate Following(g: Graph, s: Search, u: nat, base: nat, i: nat, low: int) {
    && SearchInv(g, s) && base < |s.st| && s.st[base] == u && u in s.path && u < |g| == |s.disc| && i <= |g[u]|
    && (forall x :: x in s.path && x != u ==> x in s.st[..base])
    && low <= s.disc[u] && LowReached(g, s, u, base, low)
    && (forall x :: x in s.st[base + 1..] ==> LowCovers(g, s, base, x, low))
    && (forall j :: 0 <= j < i ==> Visited(s, g[u][j]))
    && (forall j :: 0 <= j < i && g[u][j] in s.st[..base] ==> low <= s.disc[g[u][j]])
  }

  function Min(x: int, y: int): int {
    if x < y then x else y
  }

  lemma LowerCovers(g: Graph, s: Search, base: nat, x: nat, low: int, lower: int)
    requires base <= |s.st| && LowCovers(g, s, base, x, low) && lower <= low
    ensures LowCovers(g, s, base, x, lower)
  {
  }

  /** An arc to a visited vertex: only one still stacked can lower `low`. */
  lemma FollowVisited(g: Graph, s: Search, u: nat, base: nat, i: nat, low: int)
    requires Following(g, s, u, base, i, low) && i < |g[u]| && Visited(s, g[u][i])
    ensures var v := g[u][i];
            Following(g, s, u, base, i + 1, if v in s.st then Min(low, s.disc[v]) else low)
  {
    hide SearchInv, LowCovers, Reach;
    var v := g[u][i];
    var low' := if v in s.st then Min(low, s.disc[v]) else low;
    forall x | x in s.st[base + 1..] ensures LowCovers(g, s, base, x, low') {
      LowerCovers(g, s, base, x, low, low');
    }
    assert s.st == s.st[..base] + s.st[base..];
    if v in s.st && s.disc[v] < low {
      assert v in s.st[..base] by { BelowIfEarlier(g, s, base, v); }
      assert Reach(g, u, v) by { ArcReaches(g, s, u, i); }
      assert v in s.st[..base] && s.disc[v] == low';
    }
  }

  lemma ArcReaches(g: Graph, s: Search, u: nat, i: nat)
    requires SearchInv(g, s) && u < |g| && i < |g[u]|
    ensures Reach(g, u, g[u][i]) && g[u][i] < |g|
  {
    hide Reach, Connected, Stacked, Explored;
    ReachEdge(g, u, g[u][i]);
  }

  lemma BelowIfEarlier(g: Graph, s: Search, base: nat, v: nat)
    requires SearchInv(g, s) && base < |s.st| && v in s.st && Earlier(s, v, s.st[base])
    ensures v in s.st[..base]
  {
    hide Reach, Connected, Explored;
    SplitStack(s, base);
    StackOrder(g, s, base);
  }

  /** What a call for `v` leaves, seen by its caller. */
  ghost predicate Returned(g: Graph, s: Search, s': Search, v: nat, low: int) {
    && SearchInv(g, s') && |s.disc| == |s'.disc| == |g| && v < |g| && s'.path == s.path && s.st <= s'.st
    && s.done <= s'.done && Visited(s', v) && !Visited(s, v)
    && (forall x: nat :: Visited(s, x) ==> s'.disc[x] == s.disc[x] && s.disc[x] < s'.disc[v])
    && low <= s'.disc[v]
    && (forall x :: x in s'.st[|s.st|..] ==> LowCovers(g, s', |s.st|, x, low))
    && (v in s'.st ==> low < s'.disc[v] && s'.st[|s.st|..] != [] && s'.st[|s.st|] == v && LowReached(g, s', v, |s.st|, low))
    && (v !in s'.st ==> s'.st == s.st && low == s'.disc[v])
  }

  lemma CoversPrefix(g: Graph, s: Search, s': Search, base: nat, x: nat, low: int)
    requires base <= |s.st| && s.st <= s'.st && |s.disc| == |s'.disc|
    requires forall y :: y in s.st ==> y < |s.disc| && s'.disc[y] == s.disc[y]
    requires LowCovers(g, s, base, x, low)
    ensures LowCovers(g, s', base, x, low)
  {
    hide Edge;
    assert s'.st[..base] == s.st[..base];
    assert forall y :: y in s.st[..base] ==> y in s.st;
  }

  lemma CoversBelow(g: Graph, s: Search, base: nat, top: nat, x: nat, low: int)
    requires base <= top <= |s.st| && LowCovers(g, s, top, x, low)
    ensures LowCovers(g, s, base, x, low)
  {
    hide Edge;
    assert forall y :: y in s.st[..base] ==> y in s.st[..top];
  }

  lemma ReturnedCovers(g: Graph, s: Search, s': Search, u: nat, base: nat, i: nat, low: int, lowV: int, x: nat)
    requires Following(g, s, u, base, i, low) && i < |g[u]| && Returned(g, s, s', g[u][i], lowV)
    requires x in s'.st[base + 1..]
    ensures LowCovers(g, s', base, x, Min(low, lowV))
  {
    hide SearchInv, LowCovers, Reach, LowReached;
    StackIsVisited(g, s);
    assert s'.st == s.st + s'.st[|s.st|..];
    assert s'.st[base + 1..] == s.st[base + 1..] + s'.st[|s.st|..];
    if x in s.st[base + 1..] {
      CoversPrefix(g, s, s', base, x, low);
      LowerCovers(g, s', base, x, low, Min(low, lowV));
    } else {
      CoversBelow(g, s', base, |s.st|, x, lowV);
      LowerCovers(g, s', base, x, lowV, Min(low, lowV));
    }
  }

  lemma StackIsVisited(g: Graph, s: Search)
    requires SearchInv(g, s)
    ensures forall v :: v in s.st ==> Visited(s, v)
    ensures |s.disc| == |g| && InRange(g)
  {
    hide Reach, Connected, Explored;
  }

  lemma ReturnedReaches(g: Graph, s: Search, s': Search, u: nat, base: nat, i: nat, low: int, lowV: int)
    requires Following(g, s, u, base, i, low) && i < |g[u]| && Returned(g, s, s', g[u][i], lowV)
    ensures base <= |s'.st| && LowReached(g, s', u, base, Min(low, lowV))
  {
    hide SearchInv, LowCovers, Reach;
    StackIsVisited(g, s);
    var v := g[u][i];
    assert s'.st[..base] == s.st[..base] && s'.st[..|s.st|] == s.st;
    assert s.st[base] in s.st && forall y :: y in s.st[..base] ==> y in s.st;
    if lowV < low {
      var y :| y in s.st && s'.disc[y] == lowV && Reach(g, v, y);
      BelowIfEarlier(g, s, base, y);
      ArcReaches(g, s, u, i);
      ReachTransitive(g, u, v, y);
      assert y in s'.st[..base] && s'.disc[y] == Min(low, lowV);
    } else if low != s.disc[u] {
      var y :| y in s.st[..base] && y < |s.disc| && s.disc[y] == low && Reach(g, u, y);
      assert y in s'.st[..base] && s'.disc[y] == Min(low, lowV);
    }
  }

  /** An arc to an unvisited vertex, after the call for it. */
  lemma FollowReturned(g: Graph, s: Search, s': Search, u: nat, base: nat, i: nat, low: int, lowV: int)
    requires Following(g, s, u, base, i, low) && i < |g[u]| && Returned(g, s, s', g[u][i], lowV)
    ensures Following(g, s', u, base, i + 1, Min(low, lowV))
  {
    hide SearchInv, LowCovers, Reach, LowReached;
    StackIsVisited(g, s);
    ReturnedReaches(g, s, s', u, base, i, low, lowV);
    forall x | x in s'.st[base + 1..] ensures LowCovers(g, s', base, x, Min(low, lowV)) {
      ReturnedCovers(g, s, s', u, base, i, low, lowV, x);
    }
    assert s'.st[..base] == s.st[..base] && s.st[base] in s.st;
    assert forall y :: y in s.st[..base] ==> y in s.st;
  }

  /** All arcs followed. */
  lemma FollowedAll(g: Graph, s: Search, u: nat, base: nat, low: int)
    requires u < |g| && Following(g, s, u, base, |g[u]|, low)
    ensures Finishing(g, s, u, base)
    ensures low == s.disc[u] ==> NoWayDown(g, s, base)
    ensures low < s.disc[u] ==> exists y :: y in s.st[..base] && y < |s.disc| && s.disc[y] == low && Reach(g, u, y)
  {
    hide SearchInv, Reach;
    StackIsVisited(g, s);
    forall v | Edge(g, u, v) ensures Visited(s, v) {
      var j :| 0 <= j < |g[u]| && g[u][j] == v;
    }
    if low == s.disc[u] {
      StackOrder(g, s, base) by { SearchIsStacked(g, s); }
      forall x, y | x in s.st[base..] && y in s.st[..base] ensures !Edge(g, x, y) {
        assert u in Above(s, base) by { BaseIsAbove(s, base); }
        assert Earlier(s, y, u);
        if x == u {
          assert forall j :: 0 <= j < |g[u]| ==> g[u][j] != y;
        } else {
          assert s.st[base..] == [u] + s.st[base + 1..];
          assert LowCovers(g, s, base, x, low);
        }
      }
    }
  }

  lemma SearchIsStacked(g: Graph, s: Search)
    requires SearchInv(g, s)
    ensures Stacked(g, s)
  {
  }

  // ------------------------------------------------------------- emission

  predicate NatLe(a: nat, b: nat) {
    a <= b
  }

  /** Emitting the component found above `base`. */
  lemma DividesMore(g: Graph, s: Search, u: nat, base: nat, sccs: seq<Scc>, c: Scc)
    requires base < |s.st| && Finishing(g, s, u, base) && NoWayDown(g, s, base) && Divides(g, sccs, s.done)
    requires |c.member| == |g| && (forall i, j :: 0 <= i < j < |c.vertices| ==> c.vertices[i] < c.vertices[j])
    requires forall v: nat :: v in c.vertices <==> v in Above(s, base)
    requires forall v :: 0 <= v < |g| ==> (c.member[v] <==> v in c.vertices)
    ensures Divides(g, sccs + [c], s.done + Above(s, base))
  {
    hide Reach, NoWayDown, IsComponent;
    ComponentFound(g, s, u, base);
    BaseIsAbove(s, base);
    AboveIsNew(g, s, base);
    assert IsComponent(g, c) by { ComponentFrom(g, s, base, c); }
    hide Finishing, Mutual, Above;
    DividesAppend(g, sccs, s.done, c, Above(s, base));
  }

  lemma AboveIsNew(g: Graph, s: Search, base: nat)
    requires SearchInv(g, s) && base <= |s.st|
    ensures forall v :: v in Above(s, base) ==> v < |g| && v !in s.done
  {
    hide Reach, Connected, Explored;
    SplitStack(s, base);
  }

  lemma ComponentFrom(g: Graph, s: Search, base: nat, c: Scc)
    requires base < |s.st| && |c.member| == |g|
    requires forall i, j :: 0 <= i < j < |c.vertices| ==> c.vertices[i] < c.vertices[j]
    requires forall v: nat :: v in c.vertices <==> v in Above(s, base)
    requires forall v :: 0 <= v < |g| ==> (c.member[v] <==> v in c.vertices)
    requires forall v :: v in Above(s, base) ==> v < |g|
    requires forall w, v :: w in Above(s, base) ==> (v in Above(s, base) <==> Mutual(g, w, v))
    ensures IsComponent(g, c)
  {
    hide Mutual;
    BaseIsAbove(s, base);
    assert s.st[base] in c.vertices;
    hide Above;
  }

  lemma DividesAppend(g: Graph, sccs: seq<Scc>, done: set<nat>, c: Scc, above: set<nat>)
    requires Divides(g, sccs, done) && IsComponent(g, c)
    requires forall v: nat :: Contains(c, v) <==> v in above
    requires above !! done
    ensures Divides(g, sccs + [c], done + above)
  {
    hide IsComponent, Contains;
    var more := sccs + [c];
    forall v | v in done + above ensures exists i :: 0 <= i < |more| && Contains(more[i], v) {
      if v in done {
        var i :| 0 <= i < |sccs| && Contains(sccs[i], v);
        assert Contains(more[i], v);
      } else {
        assert Contains(more[|sccs|], v);
      }
    }
  }

  // ------------------------------------------------ a whole call, start to end

  /** What no call disturbs: the stack it found, completed components, and the
      times of visited vertices. */
  ghost predicate Extends(s: Search, s': Search) {
    && |s.disc| == |s'.disc| && s.st <= s'.st && s.done <= s'.done
    && (forall x: nat :: Visited(s, x) ==> s'.disc[x] == s.disc[x])
  }

  lemma ExtendsTransitive(a: Search, b: Search, c: Search)
    requires Extends(a, b) && Extends(b, c)
    ensures Extends(a, c)
  {
    forall x: nat | Visited(a, x) ensures c.disc[x] == a.disc[x] {
      assert Visited(b, x);
    }
  }

  lemma FollowStart(g: Graph, s: Search, u: nat, time: int)
    requires SearchInv(g, s) && Before(s, time) && u < |g| == |s.disc| && !Visited(s, u)
    requires ReachedFrom(g, s.path, u)
    ensures Following(g, Entered(s, u, time), u, |s.st|, 0, time) && Extends(s, Entered(s, u, time))
    ensures Before(Entered(s, u, time), time + 1) && u !in s.path
  {
    hide Reach, Explored, Connected, LowCovers;
    EnterKeeps(g, s, u, time);
    var s' := Entered(s, u, time);
    assert s'.st[..|s.st|] == s.st && s'.st[|s.st| + 1..] == [];
  }

  lemma ReturnedExtends(g: Graph, s: Search, s': Search, v: nat, low: int)
    requires Returned(g, s, s', v, low)
    ensures Extends(s, s')
  {
    hide SearchInv, LowCovers, LowReached;
  }

  /** The call's last step when `u` closes a component. */
  lemma EndComplete(g: Graph, s0: Search, s: Search, u: nat, low: int, time: int)
    requires u < |g| == |s0.disc| && !Visited(s0, u) && u !in s0.path && Before(s0, time)
    requires Extends(Entered(s0, u, time), s) && s.path == s0.path + {u}
    requires Following(g, s, u, |s0.st|, |g[u]|, low) && low == s.disc[u]
    ensures var s' := Completed(s, u, |s0.st|); Returned(g, s0, s', u, low) && s'.path == s0.path
  {
    hide SearchInv, LowCovers, LowReached, Reach, Above;
    var base := |s0.st|;
    FollowedAll(g, s, u, base, low);
    CompleteKeeps(g, s, u, base);
    var s' := Completed(s, u, base);
    ReturnOrder(s0, s, u, time);
    assert s'.st == s0.st;
    assert u !in s0.st by { CompletedTop(g, s, u, base); }
    assert s'.path == s0.path;
    assert s'.st[|s0.st|..] == [];
  }

  lemma CompletedTop(g: Graph, s: Search, u: nat, base: nat)
    requires SearchInv(g, s) && base < |s.st| && s.st[base] == u
    ensures u !in s.st[..base]
  {
    StackDistinct(g, s);
  }

  /** Everything visited before the call has an earlier time than `u`. */
  lemma ReturnOrder(s0: Search, s: Search, u: nat, time: int)
    requires u < |s0.disc| && !Visited(s0, u) && Before(s0, time) && Extends(Entered(s0, u, time), s)
    ensures Extends(s0, s) && s.disc[u] == time && Visited(s, u)
    ensures s.st[..|s0.st|] == s0.st
    ensures forall x: nat :: Visited(s0, x) ==> s.disc[x] == s0.disc[x] && s0.disc[x] < s.disc[u]
  {
    var e := Entered(s0, u, time);
    assert Visited(e, u);
    forall x: nat | Visited(s0, x) ensures s.disc[x] == s0.disc[x] {
      assert Visited(e, x);
    }
    assert e.st[..|s0.st|] == s0.st;
  }

  /** The call's last step when `u` reaches below itself. */
  lemma EndStay(g: Graph, s0: Search, s: Search, u: nat, low: int, time: int)
    requires u < |g| == |s0.disc| && !Visited(s0, u) && u !in s0.path && Before(s0, time)
    requires Extends(Entered(s0, u, time), s) && s.path == s0.path + {u}
    requires Following(g, s, u, |s0.st|, |g[u]|, low) && low < s.disc[u]
    ensures var s' := s.(path := s.path - {u}); Returned(g, s0, s', u, low) && s'.path == s0.path
  {
    hide SearchInv, Reach;
    var base := |s0.st|;
    FollowedAll(g, s, u, base, low);
    var y :| y in s.st[..base] && y < |s.disc| && s.disc[y] == low && Reach(g, u, y);
    StayKeeps(g, s, u, base, y);
    ReturnOrder(s0, s, u, time);
    var s' := s.(path := s.path - {u});
    assert s.st[base..] == [u] + s.st[base + 1..];
    assert u in s.st;
    forall x | x in s'.st[base..] ensures LowCovers(g, s', base, x, low) {
      if x == u {
        assert s'.st[..base] == s.st[..base];
      } else {
        assert LowCovers(g, s, base, x, low);
      }
    }
    assert s'.path == s0.path;
  }

  ghost predicate ReachedFrom(g: Graph, path: set<nat>, u: nat) {
    forall x :: x in path ==> Reach(g, x, u)
  }

  ghost function Unvisited(disc: seq<int>): set<nat> {
    set v | v in UpTo(|disc|) && disc[v] == -1
  }

  lemma UnvisitedLess(s0: Search, u: nat, time: int, s: Search)
    requires u < |s0.disc| && !Visited(s0, u) && Before(s0, time) && Extends(Entered(s0, u, time), s)
    ensures Unvisited(s.disc) < Unvisited(s0.disc)
  {
    ReturnOrder(s0, s, u, time);
    assert u in Unvisited(s0.disc) && u !in Unvisited(s.disc);
    assert forall v: nat :: v < |s0.disc| && s0.disc[v] != -1 ==> Visited(s0, v);
  }

  lemma VisitedStays(s0: Search, u: nat, time: int, s: Search)
    requires u < |s0.disc| && !Visited(s0, u) && Before(s0, time) && Extends(Entered(s0, u, time), s)
    ensures |s.disc| == |s0.disc| && forall v :: 0 <= v < |s0.disc| && s0.disc[v] != -1 ==> s.disc[v] != -1 && v != u
  {
    ReturnOrder(s0, s, u, time);
    assert forall v :: 0 <= v < |s0.disc| && s0.disc[v] != -1 ==> Visited(s0, v);
  }

  lemma ExtendsSelf(s: Search)
    ensures Extends(s, s)
  {
  }

  lemma SearchSize(g: Graph, s: Search)
    requires SearchInv(g, s)
    ensures |s.disc| == |g| && InRange(g)
  {
  }

  lemma FollowingInv(g: Graph, s: Search, u: nat, base: nat, i: nat, low: int)
    requires Following(g, s, u, base, i, low)
    ensures SearchInv(g, s)
  {
    hide SearchInv, LowReached, LowCovers;
  }

  lemma LowBound(g: Graph, s: Search, u: nat, base: nat, i: nat, low: int)
    requires Following(g, s, u, base, i, low)
    ensures u < |s.disc| && low <= s.disc[u]
  {
    hide SearchInv, LowReached, LowCovers;
  }

  lemma ReturnedInv(g: Graph, s: Search, s': Search, v: nat, low: int)
    requires Returned(g, s, s', v, low)
    ensures SearchInv(g, s')
  {
    hide SearchInv, LowReached, LowCovers;
  }

  /** What following the arc `u` -> `g[u][i]` may rely on. */
  lemma FollowFacts(g: Graph, s: Search, u: nat, base: nat, i: nat, low: int)
    requires Following(g, s, u, base, i, low) && i < |g[u]|
    ensures var v := g[u][i];
            v < |g| == |s.disc| && Visited(s, u) && ReachedFrom(g, s.path, v)
  {
    hide Reach, LowReached, LowCovers, Explored;
    StackIsVisited(g, s);
    StackOrder(g, s, base);
    ArcReaches(g, s, u, i);
    SplitStack(s, base);
    BaseIsAbove(s, base);
    forall x | x in s.path ensures Reach(g, x, g[u][i]) {
      assert x == u || Earlier(s, x, u);
      assert NoLater(s, x, u);
      ReachTransitive(g, x, u, g[u][i]);
    }
  }

  lemma NatOrder()
    ensures TotalOrder(NatLe)
  {
  }

  lemma SortNats(s: seq<nat>)
    requires TotalOrder(NatLe) && forall i, j :: 0 <= i < j < |s| ==> s[i] != s[j]
    ensures forall i, j :: 0 <= i < j < |Sort(NatLe, s)| ==> Sort(NatLe, s)[i] < Sort(NatLe, s)[j]
    ensures forall x :: x in Sort(NatLe, s) <==> x in s
  {
    hide Sort;
    SortKeeps(NatLe, s);
  }

  lemma StackDistinct(g: Graph, s: Search)
    requires SearchInv(g, s)
    ensures forall i, j :: 0 <= i < j < |s.st| ==> s.st[i] != s.st[j]
    ensures forall v :: v in s.st ==> v < |g|
  {
    hide Reach, Connected, Explored;
  }

  lemma FinishingAt(g: Graph, s: Search, u: nat, base: nat)
    requires Finishing(g, s, u, base)
    ensures base < |s.st| && s.st[base] == u
  {
  }

  lemma BeforeSame(s: Search, s': Search, time: int)
    requires Before(s, time) && s'.disc == s.disc
    ensures Before(s', time)
  {
  }

  /** A vector of flags for the members of a list. */
  ghost predicate Marks(flags: seq<bool>, st: seq<nat>) {
    forall v :: 0 <= v < |flags| ==> (flags[v] <==> v in st)
  }

  lemma MarkMore(flags: seq<bool>, st: seq<nat>, u: nat)
    requires Marks(flags, st) && u < |flags|
    ensures Marks(flags[u := true], st + [u])
  {
  }

  /** `low` has changed for vertices unvisited at `disc` at most, or for `u`. */
  ghost predicate SameLow(disc: seq<int>, low: seq<int>, low': seq<int>, u: nat) {
    |disc| == |low| == |low'| && forall v :: 0 <= v < |disc| && disc[v] != -1 && v != u ==> low'[v] == low[v]
  }

  class TarjanScc {
    const graph: Graph
    const low: array<int>
    const disc: array<int>
    const stackMember: array<bool>
    var nscc: nat
    var time: int
    var st: seq<nat>
    var sccList: seq<Scc>
    ghost var done: set<nat>

    ghost function Now(path: set<nat>): Search
      reads this, disc
    {
      Search(disc[..], st, path, done)
    }

    ghost predicate Shape()
      reads this
    {
      low.Length == disc.Length == stackMember.Length == |graph| && low != disc
    }

    ghost predicate Valid(path: set<nat>)
      reads this, disc, stackMember
    {
      && Shape() && SearchInv(graph, Now(path)) && Before(Now(path), time)
      && Marks(stackMember[..], st) && Divides(graph, sccList, done) && nscc == |sccList|
    }

    constructor (matrix: Graph)
      requires InRange(matrix)
      ensures graph == matrix && Shape() && fresh(low) && fresh(disc) && fresh(stackMember)
      ensures nscc == 0 && time == 0 && st == [] && sccList == [] && done == {}
      ensures forall v :: 0 <= v < |matrix| ==> !stackMember[v]
    {
      graph := matrix;
      var n := |matrix|;
      low, disc := new int[n](_ => 0), new int[n](_ => 0);
      stackMember := new bool[n](_ => false);
      nscc, time, st, sccList, done := 0, 0, [], [], {};
    }

    /** Takes everything from `u` upward off the stack as one component. */
    method Emit(u: nat, ghost path: set<nat>, ghost base: nat)
      requires Valid(path) && base < |st| && Finishing(graph, Now(path), u, base) && NoWayDown(graph, Now(path), base)
      modifies this`st, this`done, this`sccList, this`nscc, stackMember
      ensures Valid(path - {u}) && Now(path - {u}) == Completed(old(Now(path)), u, base)
    {
      hide Reach, SearchInv, Finishing, NoWayDown, Divides, Before, Sort;
      ghost var s := Now(path);
      StackDistinct(graph, s);
      FinishingAt(graph, s, u, base);
      CompleteKeeps(graph, s, u, base);
      var member := new bool[|graph|](_ => false);
      var vertices := PopComponent(u, base, member);
      NatOrder();
      SortNats(vertices);
      vertices := Sort(NatLe, vertices);
      var c := Scc(vertices, member[..]);
      DividesMore(graph, s, u, base, sccList, c);
      sccList := sccList + [c];
      nscc := nscc + 1;
      done := done + Above(s, base);
      BeforeSame(s, Now(path - {u}), time);
    }

    /** The popping loop: `u` and all above it, marked as members. */
    method PopComponent(u: nat, ghost base: nat, member: array<bool>) returns (vertices: seq<nat>)
      requires Shape() && base < |st| && st[base] == u && member.Length == |graph| && member != stackMember
      requires forall i, j :: 0 <= i < j < |st| ==> st[i] != st[j]
      requires forall v :: v in st ==> v < |graph|
      requires forall v :: 0 <= v < |graph| ==> !member[v]
      requires Marks(stackMember[..], st)
      modifies this`st, stackMember, member
      ensures st == old(st)[..base]
      ensures forall v: nat :: v in vertices <==> v in old(st)[base..]
      ensures forall i, j :: 0 <= i < j < |vertices| ==> vertices[i] != vertices[j]
      ensures forall v :: 0 <= v < |graph| ==> (member[v] <==> v in vertices)
      ensures Marks(stackMember[..], st)
    {
      vertices := [];
      ghost var all := st;
      var w: int := -1;
      while w != u
        invariant base <= |st| <= |all| && st == all[..|st|] && (|st| == base <==> w == u)
        invariant forall v: nat :: v in vertices <==> v in all[|st|..]
        invariant forall i, j :: 0 <= i < j < |vertices| ==> vertices[i] != vertices[j]
        invariant forall v :: 0 <= v < |graph| ==> (member[v] <==> v in vertices)
        invariant forall v :: 0 <= v < |graph| ==> (stackMember[v] <==> v in st)
        decreases |st|
      {
        var top := st[|st| - 1];
        assert top == all[|st| - 1] && top in all;
        assert all[|st| - 1..] == [top] + all[|st|..];
        assert st == st[..|st| - 1] + [top];
        assert top !in st[..|st| - 1] && top !in all[|st|..];
        st := st[..|st| - 1];
        vertices := vertices + [top];
        member[top] := true;
        stackMember[top] := false;
        w := top;
        assert w == u <==> |st| == base;
      }
    }

    method Push(u: nat)
      requires Shape() && u < |graph|
      modifies this`st, this`time, low, disc, stackMember
      ensures low[..] == old(low[..])[u := old(time)] && disc[..] == old(disc[..])[u := old(time)]
      ensures stackMember[..] == old(stackMember[..])[u := true] && st == old(st) + [u] && time == old(time) + 1
    {
      low[u] := time;
      disc[u] := time;
      time := time + 1;
      stackMember[u] := true;
      st := st + [u];
    }

    /** Enters `u`: a time, a place on the stack. */
    method Enter(u: nat, ghost path: set<nat>)
      requires Valid(path) && Unvisited?(u) && ReachedFrom(graph, path, u)
      modifies this`st, this`time, low, disc, stackMember
      ensures Valid(path + {u}) && Now(path + {u}) == Entered(old(Now(path)), u, old(time))
      ensures low[..] == old(low[..])[u := old(time)]
      ensures Following(graph, Now(path + {u}), u, |old(st)|, 0, old(time)) && u !in path
    {
      hide SearchInv, Divides, Following, Before, Marks, ReachedFrom;
      ghost var s := Now(path);
      SearchSize(graph, s);
      FollowStart(graph, s, u, time);
      MarkMore(stackMember[..], st, u);
      Push(u);
      FollowingInv(graph, Now(path + {u}), u, |s.st|, 0, old(time));
    }

    ghost predicate Unvisited?(u: nat)
      reads disc
    {
      u < disc.Length && disc[u] == -1
    }

    method LowerTo(u: nat, l: int)
      requires u < low.Length
      modifies low
      ensures low[..] == old(low[..])[u := Min(old(low[u]), l)]
    {
      low[u] := Min(low[u], l);
    }

    /** Follows one arc of `u`. */
    method Follow(u: nat, ghost path: set<nat>, ghost base: nat, i: nat)
      requires Valid(path) && u < |graph| && i < |graph[u]| && Following(graph, Now(path), u, base, i, low[u])
      modifies this`st, this`time, this`done, this`sccList, this`nscc, low, disc, stackMember
      ensures Valid(path) && Following(graph, Now(path), u, base, i + 1, low[u]) && Extends(old(Now(path)), Now(path))
      ensures SameLow(old(disc[..]), old(low[..]), low[..], u)
      decreases Unvisited(disc[..]), 2
    {
      hide SearchInv, Divides, Following, Before, Returned, Extends, Marks, ReachedFrom;
      var v := graph[u][i];
      ghost var s := Now(path);
      FollowFacts(graph, s, u, base, i, low[u]);
      if disc[v] == -1 {
        FollowNew(u, path, base, i);
      } else {
        ExtendsSelf(s);
        FollowVisited(graph, s, u, base, i, low[u]);
        MarkedIff(stackMember[..], st, v);
        if stackMember[v] {
          LowerTo(u, disc[v]);
        }
      }
    }

    method FollowNew(u: nat, ghost path: set<nat>, ghost base: nat, i: nat)
      requires Valid(path) && u < |graph| && i < |graph[u]| && Following(graph, Now(path), u, base, i, low[u])
      requires Unvisited?(graph[u][i])
      modifies this`st, this`time, this`done, this`sccList, this`nscc, low, disc, stackMember
      ensures Valid(path) && Following(graph, Now(path), u, base, i + 1, low[u]) && Extends(old(Now(path)), Now(path))
      ensures SameLow(old(disc[..]), old(low[..]), low[..], u)
      decreases Unvisited(disc[..]), 1
    {
      hide SearchInv, Divides, Following, Before, Returned, Extends, Marks, ReachedFrom;
      var v := graph[u][i];
      ghost var s := Now(path);
      FollowFacts(graph, s, u, base, i, low[u]);
      ghost var lowU := low[u];
      SccUtil(v, path);
      ReturnedExtends(graph, s, Now(path), v, low[v]);
      FollowReturned(graph, s, Now(path), u, base, i, lowU, low[v]);
      LowerTo(u, low[v]);
    }

    /** Leaves `u`, emitting its component if it closes one. */
    method Leave(u: nat, ghost path: set<nat>, ghost base: nat, ghost s0: Search, ghost time0: int)
      requires Valid(path + {u}) && u < |graph| == |s0.disc| && s0.path == path && base == |s0.st|
      requires !Visited(s0, u) && u !in path && Before(s0, time0)
      requires Extends(Entered(s0, u, time0), Now(path + {u}))
      requires Following(graph, Now(path + {u}), u, base, |graph[u]|, low[u])
      modifies this`st, this`done, this`sccList, this`nscc, stackMember
      ensures Valid(path) && Returned(graph, s0, Now(path), u, low[u])
    {
      hide Reach, SearchInv, Divides, Following, Before, Returned, Extends, Completed, Finishing, Marks;
      ghost var p := path + {u};
      ghost var s := Now(p);
      assert p - {u} == path;
      FollowedAll(graph, s, u, base, low[u]);
      LowBound(graph, s, u, base, |graph[u]|, low[u]);
      if low[u] == disc[u] {
        FinishingAt(graph, s, u, base);
        EndComplete(graph, s0, s, u, low[u], time0);
        Emit(u, p, base);
      } else {
        EndStay(graph, s0, s, u, low[u], time0);
        ReturnedInv(graph, s0, Now(path), u, low[u]);
        BeforeSame(s, Now(path), time);
      }
    }

    /** The recursive search from `u`. */
    method SccUtil(u: nat, ghost path: set<nat>)
      requires Valid(path) && Unvisited?(u) && ReachedFrom(graph, path, u)
      modifies this`st, this`time, this`done, this`sccList, this`nscc, low, disc, stackMember
      ensures Valid(path) && u < low.Length && Returned(graph, old(Now(path)), Now(path), u, low[u])
      ensures SameLow(old(disc[..]), old(low[..]), low[..], u)
      decreases Unvisited(disc[..]), 0
    {
      hide SearchInv, Divides, Following, Before, Returned, Extends, Completed, Marks, ReachedFrom;
      ghost var s0, time0, base := Now(path), time, |st|;
      ghost var low0 := low[..];
      ghost var p := path + {u};
      SearchSize(graph, s0);
      Enter(u, path);
      ExtendsSelf(Now(p));
      var i := 0;
      while i < |graph[u]|
        invariant 0 <= i <= |graph[u]| && Valid(p)
        invariant Following(graph, Now(p), u, base, i, low[u])
        invariant Extends(Entered(s0, u, time0), Now(p))
        invariant SameLow(s0.disc, low0, low[..], u)
        decreases |graph[u]| - i
      {
        ghost var before, low1 := Now(p), low[..];
        UnvisitedLess(s0, u, time0, before);
        VisitedStays(s0, u, time0, before);
        Follow(u, p, base, i);
        ExtendsTransitive(Entered(s0, u, time0), before, Now(p));
        SameLowTransitive(s0.disc, low0, before.disc, low1, low[..], u);
        i := i + 1;
      }
      Leave(u, path, base, s0, time0);
    }

    method Reset()
      requires Shape()
      modifies low, disc
      ensures forall v :: 0 <= v < |graph| ==> disc[v] == -1
    {
      for i := 0 to |graph|
        invariant forall v :: 0 <= v < i ==> disc[v] == -1
      {
        low[i] := -1;
        disc[i] := -1;
      }
    }

    /** `SCC`: the components emitted divide up all vertices. */
    method Run() returns (n: nat)
      requires InRange(graph) && Shape() && nscc == 0 && time == 0 && st == [] && sccList == [] && done == {}
      requires Marks(stackMember[..], [])
      modifies this, low, disc, stackMember
      ensures n == |sccList| && Divides(graph, sccList, UpTo(|graph|))
    {
      hide SearchInv, Divides, Before, Returned, Marks, ReachedFrom, Extends;
      Reset();
      FreshSearch(graph, Now({}));
      var i := 0;
      while i < |graph|
        invariant 0 <= i <= |graph| && Valid({})
        invariant forall v: nat :: v < i ==> Visited(Now({}), v)
      {
        if disc[i] == -1 {
          ghost var s := Now({});
          NobodyReaches(graph, i);
          SccUtil(i, {});
          ReturnedVisits(graph, s, Now({}), i, low[i]);
        }
        i := i + 1;
      }
      AllDone(graph, Now({}));
      n := nscc;
    }
  }

  lemma FreshSearch(g: Graph, s: Search)
    requires InRange(g) && |s.disc| == |g| && s.st == [] && s.path == {} && s.done == {}
    requires forall v :: 0 <= v < |g| ==> s.disc[v] == -1
    ensures SearchInv(g, s) && Before(s, 0) && Divides(g, [], {})
  {
  }

  lemma NobodyReaches(g: Graph, u: nat)
    ensures ReachedFrom(g, {}, u)
  {
  }

  lemma ReturnedVisits(g: Graph, s: Search, s': Search, v: nat, low: int)
    requires Returned(g, s, s', v, low)
    ensures Visited(s', v) && forall x: nat :: Visited(s, x) ==> Visited(s', x)
  {
    hide SearchInv, LowReached, LowCovers;
  }

  /** Between searches the stack is empty, so what is visited is done. */
  lemma AllDone(g: Graph, s: Search)
    requires SearchInv(g, s) && s.path == {} && forall v: nat :: v < |g| ==> Visited(s, v)
    ensures s.done == UpTo(|g|)
  {
    hide Reach;
    assert forall y :: y !in s.st;
    forall v: nat ensures v in s.done <==> v < |g| {
      assert v in s.st <==> Visited(s, v) && v !in s.done;
    }
  }

  lemma MarkedIff(flags: seq<bool>, st: seq<nat>, v: nat)
    requires Marks(flags, st) && v < |flags|
    ensures flags[v] <==> v in st
  {
  }

  lemma SameLowTransitive(disc: seq<int>, low: seq<int>, disc': seq<int>, low': seq<int>, low'': seq<int>, u: nat)
    requires SameLow(disc, low, low', u) && SameLow(disc', low', low'', u) && |disc| == |disc'|
    requires forall v :: 0 <= v < |disc| && disc[v] != -1 ==> disc'[v] != -1
    ensures SameLow(disc, low, low'', u)
  {
  }
}

/**
 Cycle removal: Johnson's blocked search records every elementary cycle of a
 strongly connected component, and a greedy loop then picks vertices until every
 recorded cycle has lost one.
 */
module Johnson {
  import opened Sequences
  import opened Digraph
  import T = Tarjan

  /** The vertices a search may enter, and the vertex it starts from. */
  datatype Scope = Scope(g: Graph, explore: seq<bool>, start: nat)

  ghost predicate May(c: Scope, v: nat) {
    v < |c.explore| && c.explore[v]
  }

  ghost predicate Arc(c: Scope, u: nat, v: nat) {
    Edge(c.g, u, v) && May(c, v)
  }

  /** The blocked flags, and for each vertex the list of those to unblock with it. */
  datatype Blocks = Blocks(blocked: seq<bool>, waiting: seq<seq<nat>>)

  ghost predicate Blocked(b: Blocks, v: nat) {
    v < |b.blocked| && b.blocked[v]
  }

  ghost predicate Waits(b: Blocks, u: nat, v: nat) {
    v < |b.waiting| && u in b.waiting[v]
  }

  ghost predicate WellSized(c: Scope, b: Blocks) {
    && InRange(c.g) && |c.explore| == |b.blocked| == |b.waiting| == |c.g| && May(c, c.start)
  }

  /** A blocked vertex off the stack has no arc to the start, its arcs lead only to
      blocked vertices, and it waits for each of them. */
  ghost predicate Settled(c: Scope, b: Blocks, stack: seq<nat>) {
    forall u, w :: Blocked(b, u) && u !in stack && Arc(c, u, w) ==> w != c.start && Blocked(b, w) && Waits(b, u, w)
  }

  /** Whoever waits for a vertex has an arc to it. */
  ghost predicate Listed(c: Scope, b: Blocks) {
    forall u, w :: Waits(b, u, w) ==> Arc(c, u, w)
  }

  /** Only blocked vertices are waited for. */
  ghost predicate Active(b: Blocks) {
    forall u, w :: Waits(b, u, w) ==> Blocked(b, w)
  }

  /** What a search below the stack `p` never does: unblock anything, or put a
      stacked vertex on a waiting list. */
  ghost predicate Keeps(b: Blocks, b': Blocks, p: seq<nat>) {
    && (forall u :: Blocked(b, u) ==> Blocked(b', u))
    && (forall u, w :: u in p && Waits(b', u, w) ==> Waits(b, u, w))
  }

  /** The stack: a repetition-free walk of blocked, explorable vertices from the
      start. */
  ghost predicate Stacked(c: Scope, b: Blocks, p: seq<nat>) {
    && Distinct(p) && (p != [] ==> p[0] == c.start && Walk(c.g, p))
    && (forall v :: v in p ==> Blocked(b, v) && May(c, v))
  }

  ghost predicate SearchInv(c: Scope, b: Blocks, p: seq<nat>) {
    WellSized(c, b) && Settled(c, b, p) && Listed(c, b) && Active(b) && Stacked(c, b, p)
  }

  // --------------------------------------------------------------- cycles

  /** A repetition-free cycle, written once around. */
  ghost predicate IsCycle(g: Graph, p: seq<nat>) {
    p != [] && Distinct(p) && Walk(g, p) && Edge(g, p[|p| - 1], p[0])
  }

  /** `q` leads from `v` back to the start, off the stack `p`. */
  ghost predicate Tail(c: Scope, v: nat, p: seq<nat>, q: seq<nat>) {
    && Distinct(q) && Walk(c.g, [v] + q)
    && (forall x :: x in q ==> May(c, x) && x !in p && x != v)
    && Edge(c.g, ([v] + q)[|q|], c.start)
  }

  ghost predicate Recorded(c: Scope, v: nat, p: seq<nat>, cycles: seq<seq<nat>>) {
    forall q :: Tail(c, v, p, q) ==> p + [v] + q in cycles
  }

  /** Nothing on a way back to the start, off the stack, is blocked. */
  lemma {:induction false} TailIsUnblocked(c: Scope, b: Blocks, v: nat, p: seq<nat>, q: seq<nat>, i: nat)
    requires Settled(c, b, p + [v]) && May(c, c.start) && Tail(c, v, p, q) && i < |q|
    ensures !Blocked(b, q[i])
    decreases |q| - i
  {
    hide Edge, Distinct, Waits;
    var w := [v] + q;
    assert q[i] in q && q[i] !in p + [v] && w[i + 1] == q[i];
    if i + 1 < |q| {
      TailIsUnblocked(c, b, v, p, q, i + 1);
      assert q[i + 1] in q && w[i + 2] == q[i + 1];
      assert Edge(c.g, w[i + 1], w[i + 1 + 1]);
      assert Arc(c, q[i], q[i + 1]);
    } else {
      assert w[|q|] == q[i];
      assert Arc(c, q[i], c.start);
    }
  }

  // ------------------------------------------------------------ push, pop

  ghost function BlockedSet(b: Blocks): set<nat> {
    set v | v in UpTo(|b.blocked|) && b.blocked[v]
  }

  ghost predicate MayPush(c: Scope, b: Blocks, p: seq<nat>, v: nat) {
    && May(c, v) && v < |b.blocked| && !b.blocked[v]
    && (if p == [] then v == c.start else Edge(c.g, p[|p| - 1], v))
  }

  ghost function Pushed(b: Blocks, v: nat): Blocks
    requires v < |b.blocked|
  {
    b.(blocked := b.blocked[v := true])
  }

  lemma PushKeeps(c: Scope, b: Blocks, p: seq<nat>, v: nat)
    requires SearchInv(c, b, p) && MayPush(c, b, p, v)
    ensures SearchInv(c, Pushed(b, v), p + [v]) && Keeps(b, Pushed(b, v), p) && v !in p
  {
    hide Edge, Walk;
    var b', p' := Pushed(b, v), p + [v];
    assert forall u :: Blocked(b', u) <==> Blocked(b, u) || u == v;
    assert forall u, w :: Waits(b', u, w) <==> Waits(b, u, w);
    PushWalk(c, p, v);
    assert forall i :: 0 <= i < |p| ==> p[i] in p;
  }

  lemma PushWalk(c: Scope, p: seq<nat>, v: nat)
    requires May(c, v) && |c.explore| == |c.g| && (p != [] ==> Walk(c.g, p) && Edge(c.g, p[|p| - 1], v))
    ensures Walk(c.g, p + [v])
  {
    if p == [] {
      assert p + [v] == [v];
    } else {
      WalkExtends(c.g, p, v);
    }
  }

  ghost predicate SameList(b: Blocks, b': Blocks, w: nat) {
    w < |b.waiting| == |b'.waiting| ==> b'.waiting[w] == b.waiting[w]
  }

  /** What unblocking `y` does: those it frees have everyone who waited for them
      freed too, and nothing else changes. */
  ghost predicate Freed(b: Blocks, b': Blocks, y: nat) {
    && |b'.blocked| == |b.blocked| && |b'.waiting| == |b.waiting| && !Blocked(b', y)
    && (forall u :: Blocked(b', u) ==> Blocked(b, u))
    && (forall u, w :: Waits(b', u, w) ==> Waits(b, u, w))
    && (forall u, w :: Waits(b, u, w) && (w == y || !Blocked(b', w)) && (w == y || Blocked(b, w)) ==>
          !Blocked(b', u) && !Waits(b', u, w))
    && (forall w :: w != y && (Blocked(b', w) || !Blocked(b, w)) ==> SameList(b, b', w))
  }

  /** Those in `d` are waited for, by others in `d`, only within `d`. */
  ghost predicate Guarded(b: Blocks, d: set<nat>) {
    forall u, w :: Waits(b, u, w) && u in d ==> w in d
  }

  /** What was blocked when a search was entered is guarded throughout it. */
  lemma EntryIsGuarded(c: Scope, b0: Blocks, b: Blocks, p: seq<nat>)
    requires SearchInv(c, b0, p) && Listed(c, b) && Keeps(b0, b, p)
    ensures Guarded(b, BlockedSet(b0))
  {
    hide Edge, Walk, Distinct;
    forall u, w | Waits(b, u, w) && u in BlockedSet(b0) ensures w in BlockedSet(b0) {
      assert Arc(c, u, w) && Blocked(b0, u);
      assert Blocked(b0, w);
    }
  }

  /** Leaving a vertex from which a cycle was found. */
  lemma FreeKeeps(c: Scope, b0: Blocks, b: Blocks, b': Blocks, p: seq<nat>, v: nat)
    requires SearchInv(c, b0, p) && SearchInv(c, b, p + [v]) && Keeps(b0, b, p)
    requires Freed(b, b', v) && forall u :: Blocked(b0, u) ==> Blocked(b', u)
    ensures SearchInv(c, b', p) && Keeps(b0, b', p)
  {
    hide Edge, Walk, Distinct, Arc;
    assert Settled(c, b', p) by {
      forall u, w | Blocked(b', u) && u !in p && Arc(c, u, w)
        ensures w != c.start && Blocked(b', w) && Waits(b', u, w)
      {
        assert u != v && Blocked(b, u) && u !in p + [v];
        assert Blocked(b, w) && Waits(b, u, w);
      }
    }
  }

  /** What leaving `v` without a cycle adds: `v` waits for all it leads to. */
  ghost predicate Enlisted(c: Scope, b: Blocks, b': Blocks, v: nat) {
    && b'.blocked == b.blocked && |b'.waiting| == |b.waiting|
    && (forall u, w :: Waits(b', u, w) <==> Waits(b, u, w) || (u == v && Arc(c, v, w)))
  }

  /** Leaving a vertex from which no cycle was found. */
  lemma EnlistKeeps(c: Scope, b0: Blocks, b: Blocks, b': Blocks, p: seq<nat>, v: nat)
    requires SearchInv(c, b0, p) && SearchInv(c, b, p + [v]) && Keeps(b0, b, p) && v !in p
    requires Enlisted(c, b, b', v) && forall w :: Arc(c, v, w) ==> w != c.start && Blocked(b, w)
    ensures SearchInv(c, b', p) && Keeps(b0, b', p) && Blocked(b', v)
  {
    hide Edge, Walk, Arc;
    assert forall u :: Blocked(b', u) <==> Blocked(b, u);
    assert v in p + [v] && forall u :: u in p ==> u in p + [v];
    assert Stacked(c, b0, p);
    assert forall u :: u in p ==> Blocked(b, u) && May(c, u);
  }

  lemma KeepsTransitive(b: Blocks, b': Blocks, b'': Blocks, p: seq<nat>, p': seq<nat>)
    requires Keeps(b, b', p) && Keeps(b', b'', p') && forall u :: u in p ==> u in p'
    ensures Keeps(b, b'', p)
  {
  }

  // ------------------------------------------------------------- unblocking

  /** Part-way through the waiting list of `y`. */
  ghost predicate Freeing(b0: Blocks, b: Blocks, y: nat, i: nat) {
    && |b.blocked| == |b0.blocked| && |b.waiting| == |b0.waiting| && y < |b.blocked| == |b.waiting|
    && !b.blocked[y] && b.waiting[y] == b0.waiting[y] && i <= |b.waiting[y]|
    && (forall u :: Blocked(b, u) ==> Blocked(b0, u))
    && (forall u, w :: Waits(b, u, w) ==> Waits(b0, u, w))
    && (forall u, w :: Waits(b0, u, w) && w != y && !Blocked(b, w) && Blocked(b0, w) ==>
          !Blocked(b, u) && !Waits(b, u, w))
    && (forall w :: w != y && (Blocked(b, w) || !Blocked(b0, w)) ==> SameList(b0, b, w))
    && (forall j :: 0 <= j < i ==> !Blocked(b, b.waiting[y][j]))
  }

  lemma FreeStart(b0: Blocks, y: nat)
    requires y < |b0.blocked| == |b0.waiting|
    ensures Freeing(b0, b0.(blocked := b0.blocked[y := false]), y, 0)
  {
    var b := b0.(blocked := b0.blocked[y := false]);
    assert forall u :: Blocked(b, u) <==> Blocked(b0, u) && u != y;
    assert forall u, w :: Waits(b, u, w) <==> Waits(b0, u, w);
  }

  lemma FreeRecursive(b0: Blocks, b: Blocks, b': Blocks, y: nat, i: nat)
    requires Freeing(b0, b, y, i) && i < |b.waiting[y]| && Blocked(b, b.waiting[y][i])
    requires Freed(b, b', b.waiting[y][i]) && b'.waiting[y] == b.waiting[y]
    ensures Freeing(b0, b', y, i + 1)
  {
    var n := b.waiting[y][i];
    assert n != y && !Blocked(b, y) && !Blocked(b', y);
    forall u, w | Waits(b0, u, w) && w != y && !Blocked(b', w) && Blocked(b0, w)
      ensures !Blocked(b', u) && !Waits(b', u, w)
    {
      if Blocked(b, w) {
        assert SameList(b0, b, w);
        assert Waits(b, u, w);
      }
    }
    forall w | w != y && (Blocked(b', w) || !Blocked(b0, w)) ensures SameList(b0, b', w) {
      assert SameList(b0, b, w) && SameList(b, b', w);
    }
  }

  lemma FreeEnd(b0: Blocks, b: Blocks, y: nat)
    requires y < |b.waiting| && Freeing(b0, b, y, |b.waiting[y]|)
    ensures Freed(b0, b.(waiting := b.waiting[y := []]), y)
  {
    var b' := b.(waiting := b.waiting[y := []]);
    assert forall u :: Blocked(b', u) <==> Blocked(b, u);
    assert forall u, w :: Waits(b', u, w) <==> Waits(b, u, w) && w != y;
    assert forall u :: Waits(b0, u, y) ==> !Blocked(b', u);
  }

  /** Everything on a waiting list is a vertex. */
  ghost predicate ListsInRange(b: Blocks) {
    && |b.blocked| == |b.waiting|
    && (forall u: nat, w: nat :: Waits(b, u, w) ==> u < |b.blocked|)
  }

  lemma GuardedSubset(b: Blocks, b': Blocks, d: set<nat>)
    requires Guarded(b, d) && ListsInRange(b) && |b'.blocked| == |b'.waiting| == |b.blocked|
    requires forall u, w :: Waits(b', u, w) ==> Waits(b, u, w)
    ensures Guarded(b', d) && ListsInRange(b')
  {
  }

  lemma WaiterNotGuarded(b: Blocks, d: set<nat>, y: nat, i: nat)
    requires Guarded(b, d) && y !in d && y < |b.waiting| && i < |b.waiting[y]|
    ensures b.waiting[y][i] !in d
  {
    assert Waits(b, b.waiting[y][i], y);
  }

  ghost predicate StillBlocked(b: Blocks, b': Blocks, d: set<nat>) {
    forall u :: u in d && Blocked(b, u) ==> Blocked(b', u)
  }

  // -------------------------------------------------------- accounting

  /** The characteristic vector of a cycle. */
  function Row(n: nat, cycle: seq<nat>): (r: seq<int>)
    ensures |r| == n
  {
    seq(n, v => if v in cycle then 1 else 0)
  }

  function Column(rows: seq<seq<int>>, v: nat): int
    requires forall i :: 0 <= i < |rows| ==> v < |rows[i]|
  {
    if rows == [] then 0 else Column(rows[..|rows| - 1], v) + rows[|rows| - 1][v]
  }

  function Total(s: seq<int>): int {
    if s == [] then 0 else Total(s[..|s| - 1]) + s[|s| - 1]
  }

  lemma {:induction false} TotalUpdate(s: seq<int>, i: nat, x: int)
    requires i < |s|
    ensures Total(s[i := x]) == Total(s) - s[i] + x
  {
    var n := |s| - 1;
    if i == n {
      assert s[i := x][..n] == s[..n];
    } else {
      assert s[i := x][..n] == s[..n][i := x];
      TotalUpdate(s[..n], i, x);
    }
  }

  ghost predicate RowsOf(n: nat, cycles: seq<seq<nat>>, rows: seq<seq<int>>) {
    |rows| == |cycles| && forall i :: 0 <= i < |rows| ==> rows[i] == Row(n, cycles[i])
  }

  /** `sums` counts, per vertex, the rows it stands in; `sum` is their total. */
  ghost predicate Sums(rows: seq<seq<int>>, sums: seq<int>, sum: int) {
    && (forall i :: 0 <= i < |rows| ==> |rows[i]| == |sums|)
    && (forall v :: 0 <= v < |sums| ==> sums[v] == Column(rows, v))
    && sum == Total(sums)
  }

  ghost predicate AllCycles(g: Graph, cycles: seq<seq<nat>>) {
    forall i :: 0 <= i < |cycles| ==> IsCycle(g, cycles[i])
  }

  ghost predicate AllWithin(cycles: seq<seq<nat>>, s: set<nat>) {
    forall i :: 0 <= i < |cycles| ==> Elements(cycles[i]) <= s
  }

  lemma SumsMore(n: nat, rows: seq<seq<int>>, sums: seq<int>, sum: int, cycle: seq<nat>, sums': seq<int>, sum': int)
    requires Sums(rows, sums, sum) && |sums| == |sums'| == n
    requires forall v :: 0 <= v < n ==> sums'[v] == sums[v] + if v in cycle then 1 else 0
    requires sum' == Total(sums')
    ensures Sums(rows + [Row(n, cycle)], sums', sum')
  {
    var more := rows + [Row(n, cycle)];
    assert more[..|rows|] == rows;
  }

  // --------------------------------------------------- recording tails

  ghost function First(c: Scope, q: seq<nat>): nat {
    if q == [] then c.start else q[0]
  }

  ghost predicate RecordedUpTo(c: Scope, v: nat, p: seq<nat>, cycles: seq<seq<nat>>, i: nat) {
    v < |c.g| && i <= |c.g[v]| &&
    forall q :: Tail(c, v, p, q) && First(c, q) in c.g[v][..i] ==> p + [v] + q in cycles
  }

  lemma TailFirst(c: Scope, v: nat, p: seq<nat>, q: seq<nat>)
    requires Tail(c, v, p, q) && May(c, c.start) && c.start in p + [v]
    ensures v < |c.g| && First(c, q) in c.g[v] && May(c, First(c, q))
    ensures First(c, q) == c.start <==> q == []
  {
    var w := [v] + q;
    if q == [] {
      assert w[0] == v;
    } else {
      assert w[0] == v && w[1] == q[0] && q[0] in q;
      assert Edge(c.g, w[0], w[0 + 1]);
    }
  }

  lemma AllArcsRecorded(c: Scope, v: nat, p: seq<nat>, cycles: seq<seq<nat>>)
    requires v < |c.g| && RecordedUpTo(c, v, p, cycles, |c.g[v]|) && May(c, c.start) && c.start in p + [v]
    ensures Recorded(c, v, p, cycles)
  {
    hide Tail, May;
    forall q | Tail(c, v, p, q) ensures p + [v] + q in cycles {
      TailFirst(c, v, p, q);
      assert c.g[v][..|c.g[v]|] == c.g[v];
    }
  }

  /** One more arc followed: its tails are recorded, or it has none. */
  lemma RecordedNext(c: Scope, v: nat, p: seq<nat>, cycles: seq<seq<nat>>, cycles': seq<seq<nat>>, i: nat)
    requires RecordedUpTo(c, v, p, cycles, i) && i < |c.g[v]| && cycles <= cycles'
    requires forall q :: Tail(c, v, p, q) && First(c, q) == c.g[v][i] ==> p + [v] + q in cycles'
    ensures RecordedUpTo(c, v, p, cycles', i + 1)
  {
    hide Tail;
    assert c.g[v][..i + 1] == c.g[v][..i] + [c.g[v][i]];
    assert forall x :: x in cycles ==> x in cycles';
  }

  lemma BlockedHasNoTail(c: Scope, b: Blocks, v: nat, p: seq<nat>, q: seq<nat>, n: nat)
    requires Settled(c, b, p + [v]) && May(c, c.start) && c.start in p + [v]
    requires Tail(c, v, p, q) && First(c, q) == n && n != c.start
    ensures !Blocked(b, n)
  {
    TailFirst(c, v, p, q);
    TailIsUnblocked(c, b, v, p, q, 0);
  }

  /** A tail through `n` continues as a tail of `n`. */
  lemma TailContinues(c: Scope, v: nat, p: seq<nat>, q: seq<nat>)
    requires Tail(c, v, p, q) && q != []
    ensures Tail(c, q[0], p + [v], q[1..]) && p + [v] + [q[0]] + q[1..] == p + [v] + q
  {
    hide Edge;
    var r := q[1..];
    assert [q[0]] + r == q && ([v] + q)[1..] == q;
    WalkTail(c.g, [v] + q);
    forall x | x in r ensures x in q && x != q[0] {
      var j :| 1 <= j < |q| && q[j] == x;
    }
    assert ([v] + q)[|q|] == q[|q| - 1] == ([q[0]] + r)[|r|];
  }

  // ------------------------------------------------- following the arcs

  ghost predicate DeadEnd(c: Scope, b: Blocks, w: nat) {
    May(c, w) ==> w != c.start && Blocked(b, w)
  }

  /** Part-way through the arcs of `v`, on the stack above `p`; `b0` is how things
      stood before `v` was pushed. */
  ghost predicate Following(c: Scope, b0: Blocks, b: Blocks, p: seq<nat>, v: nat, cycles: seq<seq<nat>>, i: nat,
                            found: bool) {
    && SearchInv(c, b0, p) && MayPush(c, b0, p, v) && v !in p
    && SearchInv(c, b, p + [v]) && Keeps(Pushed(b0, v), b, p + [v])
    && RecordedUpTo(c, v, p, cycles, i)
    && (!found ==> forall j :: 0 <= j < i ==> DeadEnd(c, b, c.g[v][j]))
  }

  lemma FollowingStart(c: Scope, b0: Blocks, p: seq<nat>, v: nat, cycles: seq<seq<nat>>)
    requires SearchInv(c, b0, p) && MayPush(c, b0, p, v)
    ensures Following(c, b0, Pushed(b0, v), p, v, cycles, 0, false)
  {
    hide Settled, Listed, Active, Stacked, Tail;
    PushKeeps(c, b0, p, v);
  }

  lemma StartIsStacked(c: Scope, b: Blocks, p: seq<nat>, v: nat)
    requires SearchInv(c, b, p + [v])
    ensures c.start in p + [v] && May(c, c.start) && |c.explore| == |b.blocked| == |c.g|
  {
    hide Settled, Listed, Active;
    assert (p + [v])[0] in p + [v];
  }

  lemma FollowDeadEnd(c: Scope, b0: Blocks, b: Blocks, p: seq<nat>, v: nat, cycles: seq<seq<nat>>, i: nat, found: bool)
    requires Following(c, b0, b, p, v, cycles, i, found) && i < |c.g[v]| && DeadEnd(c, b, c.g[v][i])
    ensures Following(c, b0, b, p, v, cycles, i + 1, found)
  {
    hide Listed, Active, Stacked, Tail, Keeps, MayPush, Settled;
    StartIsStacked(c, b, p, v);
    forall q ensures !(Tail(c, v, p, q) && First(c, q) == c.g[v][i]) {
      if Tail(c, v, p, q) && First(c, q) == c.g[v][i] {
        TailFirst(c, v, p, q);
        BlockedHasNoTail(c, b, v, p, q, c.g[v][i]);
      }
    }
    RecordedNext(c, v, p, cycles, cycles, i);
  }

  lemma FollowCycle(c: Scope, b0: Blocks, b: Blocks, p: seq<nat>, v: nat, cycles: seq<seq<nat>>, i: nat, found: bool)
    requires Following(c, b0, b, p, v, cycles, i, found) && i < |c.g[v]| && c.g[v][i] == c.start
    ensures Following(c, b0, b, p, v, cycles + [p + [v]], i + 1, true) && IsCycle(c.g, p + [v])
    ensures forall x :: x in p + [v] ==> May(c, x)
  {
    hide Listed, Active, Tail, Keeps, MayPush, Settled, Walk;
    StartIsStacked(c, b, p, v);
    var more := cycles + [p + [v]];
    forall q | Tail(c, v, p, q) && First(c, q) == c.g[v][i] ensures p + [v] + q in more {
      TailFirst(c, v, p, q);
      assert p + [v] + q == p + [v];
    }
    RecordedNext(c, v, p, cycles, more, i);
    assert (p + [v])[|p|] == v;
  }

  lemma FollowReturned(c: Scope, b0: Blocks, b: Blocks, b': Blocks, p: seq<nat>, v: nat, cycles: seq<seq<nat>>,
                       cycles': seq<seq<nat>>, i: nat, found: bool, ret: bool)
    requires Following(c, b0, b, p, v, cycles, i, found) && i < |c.g[v]| && c.g[v][i] != c.start
    requires SearchInv(c, b', p + [v]) && Keeps(b, b', p + [v]) && cycles <= cycles'
    requires Recorded(c, c.g[v][i], p + [v], cycles') && (!ret ==> Blocked(b', c.g[v][i]))
    ensures Following(c, b0, b', p, v, cycles', i + 1, found || ret)
  {
    hide Listed, Active, Stacked, Tail, Settled, SearchInv, Edge;
    var n := c.g[v][i];
    forall q | Tail(c, v, p, q) && First(c, q) == n ensures p + [v] + q in cycles' {
      TailContinues(c, v, p, q);
    }
    RecordedNext(c, v, p, cycles, cycles', i);
    KeepsTransitive(Pushed(b0, v), b, b', p + [v], p + [v]);
  }

  /** Whether a vertex may be entered from the top of the stack. */
  lemma MayDescend(c: Scope, b0: Blocks, b: Blocks, p: seq<nat>, v: nat, cycles: seq<seq<nat>>, i: nat, found: bool)
    requires Following(c, b0, b, p, v, cycles, i, found) && i < |c.g[v]|
    ensures c.g[v][i] < |c.g| == |c.explore| == |b.blocked|
    ensures May(c, c.g[v][i]) && !Blocked(b, c.g[v][i]) ==> MayPush(c, b, p + [v], c.g[v][i])
    ensures SearchInv(c, b, p + [v]) && BlockedSet(b0) < BlockedSet(b)
  {
    hide Listed, Active, Stacked, Settled, RecordedUpTo, DeadEnd;
    assert (p + [v])[|p|] == v && c.g[v][i] in c.g[v];
    BlockedGrows(b0, b, p, v);
  }

  lemma BlockedGrows(b0: Blocks, b: Blocks, p: seq<nat>, v: nat)
    requires v < |b0.blocked| == |b.blocked| && !b0.blocked[v] && Keeps(Pushed(b0, v), b, p + [v])
    ensures BlockedSet(b0) < BlockedSet(b) && forall u :: Blocked(b0, u) ==> Blocked(b, u)
  {
    var b1 := Pushed(b0, v);
    forall u | Blocked(b0, u) || u == v ensures Blocked(b, u) {
      assert Blocked(b1, u);
    }
    assert Blocked(b, v) && v in UpTo(|b.blocked|);
    assert v in BlockedSet(b) && v !in BlockedSet(b0);
    forall u | u in BlockedSet(b0) ensures u in BlockedSet(b) {
      assert Blocked(b0, u);
    }
  }

  // ------------------------------------------- every cycle of a component

  /** The same cycle, written from its `m`-th vertex. */
  ghost function Rotate(p: seq<nat>, m: nat): seq<nat>
    requires m < |p|
  {
    p[m..] + p[..m]
  }

  /** Where the vertices of a rotation come from. */
  ghost function Source(p: seq<nat>, m: nat, i: nat): nat
    requires m < |p| && i < |p|
  {
    if i < |p| - m then m + i else i - (|p| - m)
  }

  lemma RotateAt(p: seq<nat>, m: nat, i: nat)
    requires m < |p| && i < |p|
    ensures |Rotate(p, m)| == |p| && Rotate(p, m)[i] == p[Source(p, m, i)]
  {
  }

  lemma RotateElements(p: seq<nat>, m: nat)
    requires m < |p|
    ensures Elements(Rotate(p, m)) == Elements(p)
  {
    assert p == p[..m] + p[m..];
  }

  lemma RotateDistinct(p: seq<nat>, m: nat)
    requires m < |p| && Distinct(p)
    ensures Distinct(Rotate(p, m))
  {
    hide Rotate;
    var r := Rotate(p, m);
    RotateAt(p, m, 0);
    forall i, j | 0 <= i < j < |r| ensures r[i] != r[j] {
      RotateAt(p, m, i);
      RotateAt(p, m, j);
    }
  }

  /** Each vertex of a cycle has an arc to the next one, the last to the first. */
  lemma CycleArc(g: Graph, p: seq<nat>, i: nat)
    requires IsCycle(g, p) && i < |p|
    ensures p[i] < |g| && Edge(g, p[i], p[if i + 1 == |p| then 0 else i + 1])
  {
  }

  lemma RotateIsCycle(g: Graph, p: seq<nat>, m: nat)
    requires IsCycle(g, p) && m < |p|
    ensures IsCycle(g, Rotate(p, m)) && Rotate(p, m)[0] == p[m]
    ensures Elements(Rotate(p, m)) == Elements(p)
  {
    var r := Rotate(p, m);
    RotateElements(p, m);
    RotateDistinct(p, m);
    hide Edge, Rotate, Distinct, Elements;
    RotateAt(p, m, 0);
    forall i | 0 <= i < |r| ensures r[i] < |g| && Edge(g, r[i], r[if i + 1 == |r| then 0 else i + 1]) {
      RotateAt(p, m, i);
      RotateAt(p, m, if i + 1 == |r| then 0 else i + 1);
      CycleArc(g, p, Source(p, m, i));
    }
  }

  /** The same cycle, possibly written from another of its vertices. */
  ghost predicate SameCycle(r: seq<nat>, p: seq<nat>) {
    exists m :: 0 <= m < |p| && r == Rotate(p, m)
  }

  lemma SameElements(r: seq<nat>, p: seq<nat>)
    requires SameCycle(r, p)
    ensures |r| == |p| && Elements(r) == Elements(p)
  {
    var m :| 0 <= m < |p| && r == Rotate(p, m);
    RotateElements(p, m);
    RotateAt(p, m, 0);
  }

  /** The cycle is recorded, written from one of its vertices. */
  ghost predicate HasRow(cycles: seq<seq<nat>>, p: seq<nat>) {
    exists i :: 0 <= i < |cycles| && SameCycle(cycles[i], p)
  }

  lemma HasRowMore(cycles: seq<seq<nat>>, cycles': seq<seq<nat>>, p: seq<nat>)
    requires HasRow(cycles, p) && cycles <= cycles'
    ensures HasRow(cycles', p)
  {
    hide SameCycle;
    var i :| 0 <= i < |cycles| && SameCycle(cycles[i], p);
    assert cycles'[i] == cycles[i];
  }

  /** A search from one of its vertices records a cycle it may explore. */
  lemma SearchFindsCycle(c: Scope, cycles: seq<seq<nat>>, p: seq<nat>)
    requires Recorded(c, c.start, [], cycles) && IsCycle(c.g, p) && c.start in p
    requires forall x :: x in p ==> May(c, x)
    ensures HasRow(cycles, p)
  {
    hide Edge, Walk;
    var m :| 0 <= m < |p| && p[m] == c.start;
    RotateIsCycle(c.g, p, m);
    hide Rotate;
    var r := Rotate(p, m);
    var q := r[1..];
    assert [c.start] + q == r && [] + [c.start] + q == r;
    forall x | x in q ensures May(c, x) && x != c.start {
      var j :| 1 <= j < |r| && r[j] == x;
      assert x in Elements(r);
    }
    assert r[|r| - 1] == ([c.start] + q)[|q|];
    assert Tail(c, c.start, [], q);
    var i :| 0 <= i < |cycles| && cycles[i] == r;
    assert SameCycle(cycles[i], p);
  }

  /** Cycles inside `vertices` through one of the first `k` have a row. */
  ghost predicate Covered(g: Graph, vertices: seq<nat>, k: nat, cycles: seq<seq<nat>>)
    requires k <= |vertices|
  {
    forall p :: IsCycle(g, p) && Within(p, vertices) && Meets(p, vertices[..k]) ==> HasRow(cycles, p)
  }

  ghost predicate Within(p: seq<nat>, vertices: seq<nat>) {
    forall x :: x in p ==> x in vertices
  }

  ghost predicate Meets(p: seq<nat>, vertices: seq<nat>) {
    exists x :: x in p && x in vertices
  }

  lemma CoveredNext(c: Scope, vertices: seq<nat>, k: nat, cycles: seq<seq<nat>>, cycles': seq<seq<nat>>)
    requires k < |vertices| && Covered(c.g, vertices, k, cycles) && cycles <= cycles'
    requires c.start == vertices[k] && Recorded(c, c.start, [], cycles')
    requires forall x :: x in vertices && x !in vertices[..k] ==> May(c, x)
    ensures Covered(c.g, vertices, k + 1, cycles')
  {
    hide IsCycle, HasRow, Recorded, May;
    assert vertices[..k + 1] == vertices[..k] + [vertices[k]];
    forall p | IsCycle(c.g, p) && Within(p, vertices) && Meets(p, vertices[..k + 1]) ensures HasRow(cycles', p) {
      if Meets(p, vertices[..k]) {
        HasRowMore(cycles, cycles', p);
      } else {
        SearchFindsCycle(c, cycles', p);
      }
    }
  }

  // ------------------------------------------------- every cycle once

  /** No adjacency list names a vertex twice. */
  ghost predicate NoRepeats(g: Graph) {
    forall v :: 0 <= v < |g| ==> Distinct(g[v])
  }

  /** The rows from `n` on continue `prefix` inside the scope; they differ if no
      adjacency list repeats a vertex. */
  ghost predicate Grown(c: Scope, n: nat, cycles: seq<seq<nat>>, prefix: seq<nat>) {
    && n <= |cycles|
    && (forall j :: n <= j < |cycles| ==> prefix <= cycles[j] && forall x :: x in cycles[j] ==> May(c, x))
    && (NoRepeats(c.g) ==> Distinct(cycles[n..]))
  }

  /** A row that ends with the stack, or goes on through one of the arcs. */
  ghost predicate Through(start: nat, row: seq<nat>, n: nat, arcs: seq<nat>) {
    if |row| <= n then start in arcs else row[n] in arcs && row[n] != start
  }

  /** Part-way through the arcs of the top of the stack. */
  ghost predicate Branches(c: Scope, n: nat, cycles: seq<seq<nat>>, stack: seq<nat>, arcs: seq<nat>) {
    && Grown(c, n, cycles, stack)
    && (forall j :: n <= j < |cycles| ==> Through(c.start, cycles[j], |stack|, arcs))
  }

  lemma BranchStart(c: Scope, cycles: seq<seq<nat>>, stack: seq<nat>)
    ensures Branches(c, |cycles|, cycles, stack, [])
  {
  }

  lemma BranchSkip(c: Scope, n: nat, cycles: seq<seq<nat>>, stack: seq<nat>, arcs: seq<nat>, i: nat)
    requires i < |arcs| && Branches(c, n, cycles, stack, arcs[..i])
    ensures Branches(c, n, cycles, stack, arcs[..i + 1])
  {
    hide Grown;
    assert arcs[..i + 1] == arcs[..i] + [arcs[i]];
  }

  lemma NotAmong(arcs: seq<nat>, i: nat)
    requires i < |arcs| && Distinct(arcs)
    ensures arcs[i] !in arcs[..i]
  {
  }

  lemma DistinctMore(cycles: seq<seq<nat>>, row: seq<nat>)
    requires Distinct(cycles) && row !in cycles
    ensures Distinct(cycles + [row])
  {
  }

  lemma BranchRecord(c: Scope, n: nat, cycles: seq<seq<nat>>, stack: seq<nat>, arcs: seq<nat>, i: nat)
    requires i < |arcs| && Branches(c, n, cycles, stack, arcs[..i]) && arcs[i] == c.start
    requires (NoRepeats(c.g) ==> Distinct(arcs)) && forall x :: x in stack ==> May(c, x)
    ensures Branches(c, n, cycles + [stack], stack, arcs[..i + 1])
  {
    hide NoRepeats, May;
    var more := cycles + [stack];
    assert arcs[..i + 1] == arcs[..i] + [arcs[i]];
    if NoRepeats(c.g) {
      NotAmong(arcs, i);
      assert stack !in cycles[n..] by {
        forall j | n <= j < |cycles| ensures cycles[j] != stack {
          assert Through(c.start, cycles[j], |stack|, arcs[..i]);
        }
      }
      DistinctMore(cycles[n..], stack);
      assert more[n..] == cycles[n..] + [stack];
    }
  }

  lemma BranchDeeper(c: Scope, n: nat, cycles: seq<seq<nat>>, cycles': seq<seq<nat>>, stack: seq<nat>, arcs: seq<nat>, i: nat)
    requires i < |arcs| && Branches(c, n, cycles, stack, arcs[..i]) && arcs[i] != c.start && cycles <= cycles'
    requires (NoRepeats(c.g) ==> Distinct(arcs)) && Grown(c, |cycles|, cycles', stack + [arcs[i]])
    ensures Branches(c, n, cycles', stack, arcs[..i + 1])
  {
    hide NoRepeats, May;
    assert arcs[..i + 1] == arcs[..i] + [arcs[i]];
    forall j | |cycles| <= j < |cycles'|
      ensures stack <= cycles'[j] && |cycles'[j]| > |stack| && cycles'[j][|stack|] == arcs[i]
    {
      assert stack + [arcs[i]] <= cycles'[j] && (stack + [arcs[i]])[|stack|] == arcs[i];
      assert (stack + [arcs[i]])[..|stack|] == stack;
    }
    forall j | n <= j < |cycles| ensures cycles'[j] == cycles[j] {
    }
    if NoRepeats(c.g) {
      NotAmong(arcs, i);
      forall j, h | n <= j < |cycles| <= h < |cycles'| ensures cycles'[j] != cycles'[h] {
        assert Through(c.start, cycles[j], |stack|, arcs[..i]);
      }
      DistinctJoin(cycles, cycles', n);
    }
  }

  lemma DistinctJoin(cycles: seq<seq<nat>>, cycles': seq<seq<nat>>, n: nat)
    requires n <= |cycles| && cycles <= cycles' && Distinct(cycles[n..]) && Distinct(cycles'[|cycles|..])
    requires forall j, h :: n <= j < |cycles| <= h < |cycles'| ==> cycles'[j] != cycles'[h]
    ensures Distinct(cycles'[n..])
  {
    var m := |cycles| - n;
    assert cycles'[n..] == cycles[n..] + cycles'[|cycles|..];
    var r := cycles'[n..];
    forall i, j | 0 <= i < j < |r| ensures r[i] != r[j] {
      if j < m {
        assert r[i] == cycles[n..][i] && r[j] == cycles[n..][j];
      } else if i >= m {
        assert r[i] == cycles'[|cycles|..][i - m] && r[j] == cycles'[|cycles|..][j - m];
      } else {
        assert r[i] == cycles'[n + i] && r[j] == cycles'[n + j];
      }
    }
  }

  /** The row starts at one of the first `k` vertices and avoids those before that one. */
  ghost predicate StartsAt(vertices: seq<nat>, row: seq<nat>, h: nat) {
    h < |vertices| && row != [] && row[0] == vertices[h] && forall x :: x in row ==> x !in vertices[..h]
  }

  ghost predicate Starts(vertices: seq<nat>, row: seq<nat>, k: nat) {
    exists h :: 0 <= h < k && StartsAt(vertices, row, h)
  }

  ghost predicate ByStart(g: Graph, vertices: seq<nat>, k: nat, cycles: seq<seq<nat>>) {
    && (forall j :: 0 <= j < |cycles| ==> Starts(vertices, cycles[j], k))
    && (NoRepeats(g) ==> Distinct(cycles))
  }

  lemma StartsNext(c: Scope, vertices: seq<nat>, k: nat, cycles: seq<seq<nat>>, cycles': seq<seq<nat>>, j: nat)
    requires k < |vertices| && ByStart(c.g, vertices, k, cycles) && cycles <= cycles' && j < |cycles'|
    requires c.start == vertices[k] && Grown(c, |cycles|, cycles', [c.start])
    requires forall x :: May(c, x) ==> x !in vertices[..k]
    ensures Starts(vertices, cycles'[j], k + 1)
  {
    hide NoRepeats, May;
    if j < |cycles| {
      assert cycles'[j] == cycles[j];
      var h :| 0 <= h < k && StartsAt(vertices, cycles[j], h);
      assert StartsAt(vertices, cycles'[j], h);
    } else {
      assert [c.start] <= cycles'[j];
      assert StartsAt(vertices, cycles'[j], k);
    }
  }

  lemma ByStartNext(c: Scope, vertices: seq<nat>, k: nat, cycles: seq<seq<nat>>, cycles': seq<seq<nat>>)
    requires k < |vertices| && Distinct(vertices) && ByStart(c.g, vertices, k, cycles) && cycles <= cycles'
    requires c.start == vertices[k] && Grown(c, |cycles|, cycles', [c.start])
    requires forall x :: May(c, x) ==> x !in vertices[..k]
    ensures ByStart(c.g, vertices, k + 1, cycles')
  {
    hide NoRepeats, May, StartsAt;
    forall j | 0 <= j < |cycles'| ensures Starts(vertices, cycles'[j], k + 1) {
      StartsNext(c, vertices, k, cycles, cycles', j);
    }
    if NoRepeats(c.g) {
      forall j, h | 0 <= j < |cycles| <= h < |cycles'| ensures cycles'[j] != cycles'[h] {
        assert cycles'[j] == cycles[j] && [c.start] <= cycles'[h];
        var a :| 0 <= a < k && StartsAt(vertices, cycles[j], a);
        OtherStart(vertices, cycles[j], a, k);
      }
      assert cycles[0..] == cycles && cycles'[0..] == cycles';
      DistinctJoin(cycles, cycles', 0);
    }
  }

  lemma OtherStart(vertices: seq<nat>, row: seq<nat>, a: nat, k: nat)
    requires StartsAt(vertices, row, a) && a < k < |vertices| && Distinct(vertices)
    ensures !([vertices[k]] <= row)
  {
  }

  /** Of two rows neither is a rotation of the other. */
  ghost predicate OnceEach(cycles: seq<seq<nat>>) {
    forall i, j :: 0 <= i < |cycles| && 0 <= j < |cycles| && i != j ==> !SameCycle(cycles[i], cycles[j])
  }

  lemma RotatedApart(vertices: seq<nat>, r: seq<nat>, p: seq<nat>, h: nat, h': nat)
    requires StartsAt(vertices, r, h) && StartsAt(vertices, p, h') && Distinct(p) && SameCycle(r, p)
    ensures r == p
  {
    SameElements(r, p);
    assert r[0] in r && r[0] in Elements(r) && p[0] in p && p[0] in Elements(p);
    assert r[0] in p && p[0] in r;
    assert vertices[h] !in vertices[..h'] && vertices[h'] !in vertices[..h];
    assert h == h';
    var m :| 0 <= m < |p| && r == Rotate(p, m);
    RotateAt(p, m, 0);
    assert m == 0;
  }

  lemma DifferentRows(cycles: seq<seq<nat>>, i: nat, j: nat)
    requires Distinct(cycles) && i < |cycles| && j < |cycles| && i != j
    ensures cycles[i] != cycles[j]
  {
    assert i < j || j < i;
  }

  lemma RowsAreOnce(g: Graph, vertices: seq<nat>, cycles: seq<seq<nat>>)
    requires ByStart(g, vertices, |vertices|, cycles) && AllCycles(g, cycles)
    ensures NoRepeats(g) ==> OnceEach(cycles)
  {
    hide NoRepeats, SameCycle, StartsAt, Walk, Edge;
    if NoRepeats(g) {
      forall i, j | 0 <= i < |cycles| && 0 <= j < |cycles| && i != j ensures !SameCycle(cycles[i], cycles[j]) {
        var h :| 0 <= h < |vertices| && StartsAt(vertices, cycles[i], h);
        var h' :| 0 <= h' < |vertices| && StartsAt(vertices, cycles[j], h');
        assert IsCycle(g, cycles[j]);
        DifferentRows(cycles, i, j);
        if SameCycle(cycles[i], cycles[j]) {
          RotatedApart(vertices, cycles[i], cycles[j], h, h');
        }
      }
    }
  }

  lemma FewAreOnce(cycles: seq<seq<nat>>)
    requires |cycles| <= 1
    ensures OnceEach(cycles)
  {
  }

  class CycleSearch {
    const g: Graph
    const explore: array<bool>
    const blocked: array<bool>
    const waiting: array<seq<nat>>
    const sumArray: array<int>
    var stack: seq<nat>
    var cycles: seq<seq<nat>>
    var cyclesMap: seq<seq<int>>
    var sum: int
    ghost const scope: set<nat>  // the component searched

    ghost function Now(): Blocks
      reads blocked, waiting
    {
      Blocks(blocked[..], waiting[..])
    }

    ghost function In(start: nat): Scope
      reads explore
    {
      Scope(g, explore[..], start)
    }

    ghost predicate Shape() {
      && explore.Length == blocked.Length == waiting.Length == sumArray.Length == |g|
      && explore != blocked
    }

    /** Unblocks `v` and, recursively, whoever waits for it. */
    method Unblock(v: nat, ghost d: set<nat>)
      requires Shape() && ListsInRange(Now()) && Guarded(Now(), d) && v !in d && Blocked(Now(), v)
      modifies blocked, waiting
      ensures Freed(old(Now()), Now(), v) && StillBlocked(old(Now()), Now(), d)
      decreases BlockedSet(Now())
    {
      hide Guarded, Freed, Freeing, ListsInRange;
      ghost var b0 := Now();
      blocked[v] := false;
      FreeStart(b0, v);
      var i := 0;
      while i < |waiting[v]|
        invariant Freeing(b0, Now(), v, i) && StillBlocked(b0, Now(), d)
        invariant i <= |waiting[v]| && waiting[v] == b0.waiting[v]
        decreases |b0.waiting[v]| - i
      {
        ghost var b := Now();
        var n := waiting[v][i];
        FreeingKeeps(b0, b, v, i, d);
        WaiterNotGuarded(b, d, v, i);
        if blocked[n] {
          Unblock(n, d);
          FreedElsewhere(b, Now(), n, v);
          FreeRecursive(b0, b, Now(), v, i);
        } else {
          FreeSkip(b0, b, v, i);
        }
        i := i + 1;
      }
      FreeEnd(b0, Now(), v);
      waiting[v] := [];
    }

    ghost predicate Accounts()
      reads this`cycles, this`cyclesMap, this`sum, sumArray
    {
      && RowsOf(sumArray.Length, cycles, cyclesMap) && Sums(cyclesMap, sumArray[..], sum)
      && AllCycles(g, cycles) && AllWithin(cycles, scope)
    }

    ghost predicate Scoped()
      reads explore
    {
      forall v :: 0 <= v < explore.Length && explore[v] ==> v in scope
    }

    /** Records the stack as a cycle: a row, and one more for each of its vertices. */
    method RecordCycle()
      requires Shape() && Accounts() && IsCycle(g, stack) && Elements(stack) <= scope
      modifies sumArray, this`cycles, this`cyclesMap, this`sum
      ensures Accounts() && cycles == old(cycles) + [stack]
    {
      hide IsCycle, Column, AllCycles, AllWithin, Sums, Total;
      StackInRange(g, stack);
      SumsTotal(cyclesMap, sumArray[..], sum);
      var n := |g|;
      ghost var sums, sum0 := sumArray[..], sum;
      var cycleBool := new int[n](_ => 0);
      var k := 0;
      while k < |stack|
        invariant 0 <= k <= |stack| && cycles == old(cycles) && cyclesMap == old(cyclesMap)
        invariant forall v :: 0 <= v < n ==> cycleBool[v] == if v in stack[..k] then 1 else 0
        invariant forall v :: 0 <= v < n ==> sumArray[v] == sums[v] + if v in stack[..k] then 1 else 0
        invariant sum == Total(sumArray[..])
      {
        var v := stack[k];
        assert v in stack && v !in stack[..k];
        assert stack[..k + 1] == stack[..k] + [v];
        ghost var before := sumArray[..];
        sum := sum + 1;
        cycleBool[v] := 1;
        sumArray[v] := sumArray[v] + 1;
        assert sumArray[..] == before[v := before[v] + 1];
        TotalUpdate(before, v, before[v] + 1);
        k := k + 1;
      }
      assert stack[..k] == stack;
      SumsMore(n, cyclesMap, sums, sum0, stack, sumArray[..], sum);
      assert cycleBool[..] == Row(n, stack);
      MoreCycles(g, cycles, stack, scope);
      cycles := cycles + [stack];
      cyclesMap := cyclesMap + [cycleBool[..]];
    }

    /** Leaves `v` unsuccessful: it waits for everything it leads to. */
    method Enlist(v: nat, ghost c: Scope)
      requires Shape() && v < |g| && InRange(g) && c.g == g && c.explore == explore[..]
      modifies waiting
      ensures Enlisted(c, old(Now()), Now(), v)
    {
      ghost var b := Now();
      var i := 0;
      while i < |g[v]|
        invariant 0 <= i <= |g[v]|
        invariant forall u, w :: Waits(Now(), u, w) <==> Waits(b, u, w) || (u == v && w in g[v][..i] && May(c, w))
      {
        var w := g[v][i];
        assert w in g[v] && g[v][..i + 1] == g[v][..i] + [w];
        if explore[w] {
          ghost var b1 := Now();
          waiting[w] := waiting[w] + [v];
          WaitsMore(b1, Now(), w, v);
        }
        i := i + 1;
      }
      assert g[v][..i] == g[v];
    }

    /** One arc of `v`: into a cycle, into a deeper search, or nowhere. */
    method FollowArc(start: nat, v: nat, i: nat, found0: bool, ghost p: seq<nat>, ghost b0: Blocks, ghost first: nat)
      returns (found: bool)
      requires Shape() && Scoped() && Accounts() && stack == p + [v] && v < |g| && i < |g[v]|
      requires Following(In(start), b0, Now(), p, v, cycles, i, found0)
      requires Branches(In(start), first, cycles, p + [v], g[v][..i])
      modifies blocked, waiting, sumArray, this`stack, this`cycles, this`cyclesMap, this`sum
      ensures Accounts() && stack == p + [v] && old(cycles) <= cycles
      ensures Following(In(start), b0, Now(), p, v, cycles, i + 1, found)
      ensures Branches(In(start), first, cycles, p + [v], g[v][..i + 1])
      decreases UpTo(|g|) - BlockedSet(Now()), 1
    {
      hide Accounts, Following, SearchInv, MayPush, Recorded, Keeps, BlockedSet, IsCycle, Branches, Grown, Distinct;
      ghost var c, b := In(start), Now();
      var n := g[v][i];
      BranchSkip(c, first, cycles, p + [v], g[v], i);
      assert NoRepeats(g) ==> Distinct(g[v]);
      found := found0;
      MayDescend(c, b0, b, p, v, cycles, i, found);
      if !explore[n] {
        FollowDeadEnd(c, b0, b, p, v, cycles, i, found);
      } else if n == start {
        FollowCycle(c, b0, b, p, v, cycles, i, found);
        BranchRecord(c, first, cycles, p + [v], g[v], i);
        found := true;
        RecordCycle();
      } else if !blocked[n] {
        ghost var cycles0 := cycles;
        var ret := Recur(start, n);
        FollowReturned(c, b0, b, Now(), p, v, cycles0, cycles, i, found, ret);
        BranchDeeper(c, first, cycles0, cycles, p + [v], g[v], i);
        found := found || ret;
      } else {
        FollowDeadEnd(c, b0, b, p, v, cycles, i, found);
      }
    }

    /** `FindCyclesRecur`: records every cycle that continues the stack through `v`,
        and leaves the stack, and everything that was blocked, as it was. */
    method Recur(start: nat, v: nat) returns (found: bool)
      requires Shape() && Scoped() && Accounts()
      requires SearchInv(In(start), Now(), stack) && MayPush(In(start), Now(), stack, v)
      modifies blocked, waiting, sumArray, this`stack, this`cycles, this`cyclesMap, this`sum
      ensures Accounts() && stack == old(stack) && old(cycles) <= cycles
      ensures SearchInv(In(start), Now(), stack) && Keeps(old(Now()), Now(), stack)
      ensures Recorded(In(start), v, stack, cycles)
      ensures Grown(In(start), |old(cycles)|, cycles, stack + [v])
      ensures !found ==> Blocked(Now(), v)
      decreases UpTo(|g|) - BlockedSet(Now()), 0
    {
      hide Accounts, Following, SearchInv, Recorded, Keeps, BlockedSet, Grown, Distinct;
      ghost var c, b0, p := In(start), Now(), stack;
      BranchStart(c, cycles, p + [v]);
      PushSizes(c, b0, p, v);
      FollowingStart(c, b0, p, v, cycles);
      found := false;
      stack := stack + [v];
      blocked[v] := true;
      assert Now() == Pushed(b0, v);
      var i := 0;
      while i < |g[v]|
        invariant 0 <= i <= |g[v]| && Accounts() && stack == p + [v] && old(cycles) <= cycles
        invariant Following(c, b0, Now(), p, v, cycles, i, found)
        invariant Branches(c, |old(cycles)|, cycles, p + [v], g[v][..i])
        decreases |g[v]| - i
      {
        MayDescend(c, b0, Now(), p, v, cycles, i, found);
        BlockedInRange(Now());
        found := FollowArc(start, v, i, found, p, b0, |old(cycles)|);
        i := i + 1;
      }
      Leave(start, v, found, p, b0);
      stack := stack[..|stack| - 1];
    }

    /** Fresh flags and lists for a search from another vertex. */
    method ResetBlocks()
      requires Shape()
      modifies blocked, waiting, this`stack
      ensures stack == [] && IsFresh(Now())
    {
      stack := [];
      for i := 0 to |g|
        invariant forall v :: 0 <= v < i ==> !blocked[v] && waiting[v] == []
        invariant stack == []
      {
        blocked[i] := false;
        waiting[i] := [];
      }
    }

    /** The main loop of `FindCycles`: a search from every vertex, each of which then
        leaves the scope. */
    method SearchAll(vertices: seq<nat>)
      requires Shape() && Scoped() && Accounts() && InRange(g) && Distinct(vertices)
      requires T.Marks(explore[..], vertices) && forall v :: v in vertices ==> v < |g|
      modifies explore, blocked, waiting, sumArray, this`stack, this`cycles, this`cyclesMap, this`sum
      ensures Accounts() && Covered(g, vertices, |vertices|, cycles)
      ensures old(cycles) == [] ==> ByStart(g, vertices, |vertices|, cycles)
    {
      hide Accounts, Covered, Recorded, SearchInv, MayPush, IsFresh, Keeps, Grown, ByStart;
      var k := 0;
      NothingCovered(g, vertices, cycles);
      NothingStarts(g, vertices);
      assert vertices[0..] == vertices;
      while k < |vertices|
        invariant 0 <= k <= |vertices| && Scoped() && Accounts() && Covered(g, vertices, k, cycles)
        invariant T.Marks(explore[..], vertices[k..])
        invariant old(cycles) == [] ==> ByStart(g, vertices, k, cycles)
      {
        var v := vertices[k];
        assert v in vertices && v in vertices[k..];
        ghost var c, cycles0 := In(v), cycles;
        ResetBlocks();
        FreshStart(c, Now());
        var _ := Recur(v, v);
        Remaining(vertices, k);
        CoveredNext(c, vertices, k, cycles0, cycles);
        assert [] + [v] == [v];
        if old(cycles) == [] {
          ByStartNext(c, vertices, k, cycles0, cycles);
        }
        explore[v] := false;
        assert explore[..] == c.explore[v := false];
        k := k + 1;
      }
    }

    constructor (graph: Graph, component: T.Scc)
      requires T.IsComponent(graph, component)
      ensures g == graph && Shape() && Scoped() && Accounts() && scope == Elements(component.vertices)
      ensures explore[..] == component.member && cycles == [] && sum == 0
      ensures fresh(explore) && fresh(blocked) && fresh(waiting) && fresh(sumArray)
    {
      g := graph;
      var n, member := |graph|, component.member;
      explore := new bool[n](i requires 0 <= i < |member| => member[i]);
      blocked := new bool[n](_ => false);
      waiting := new seq<nat>[n](_ => []);
      sumArray := new int[n](_ => 0);
      stack, cycles, cyclesMap, sum := [], [], [], 0;
      scope := Elements(component.vertices);
      new;
      TotalOfZeros(sumArray[..]);
    }

    /** `FindCycles`: every row is a cycle of the component, and a cycle of the
        component is recorded, written from one of its vertices, if and only if it has
        two or more vertices or the component has three or more; once only, if no
        adjacency list repeats a vertex. */
    method FindCycles(vertices: seq<nat>)
      requires Shape() && Scoped() && Accounts() && cycles == [] && InRange(g)
      requires T.IsComponent(g, T.Scc(vertices, explore[..])) && scope == Elements(vertices)
      modifies explore, blocked, waiting, sumArray, this`stack, this`cycles, this`cyclesMap, this`sum
      ensures Accounts() && AllCovered(g, vertices, cycles)
      ensures |vertices| <= 2 ==> cycles == if |vertices| == 1 then [] else [vertices]
      ensures NoRepeats(g) ==> OnceEach(cycles)
    {
      hide AllCovered, T.IsComponent, Covered, Scoped, IsCycle, NoRepeats, OnceEach, ByStart, RowsOf, Sums, AllCycles, AllWithin;
      ComponentFacts(g, T.Scc(vertices, explore[..]));
      if |vertices| == 1 {
        SingleHasNone(g, vertices);
      } else if |vertices| == 2 {
        PairIsCycle(g, T.Scc(vertices, explore[..]));
        stack := vertices;
        RecordCycle();
        PairIsCovered(g, vertices, cycles);
      } else {
        SearchAll(vertices);
        CoveredAll(g, vertices, cycles);
        RowsAreOnce(g, vertices, cycles);
      }
      if |vertices| <= 2 {
        FewAreOnce(cycles);
      }
    }

    /** Unblocks `v` if a cycle was found through it, else enlists it. */
    method Leave(start: nat, v: nat, found: bool, ghost p: seq<nat>, ghost b0: Blocks)
      requires Shape() && v < |g| && Following(In(start), b0, Now(), p, v, cycles, |g[v]|, found)
      modifies blocked, waiting
      ensures SearchInv(In(start), Now(), p) && Keeps(b0, Now(), p) && Recorded(In(start), v, p, cycles)
      ensures !found ==> Blocked(Now(), v)
    {
      hide SearchInv, Recorded, Keeps, Following, Guarded, Freed, Enlisted, ListsInRange;
      ghost var c, b := In(start), Now();
      LeaveFacts(c, b0, b, p, v, cycles, found);
      if found {
        ghost var d := BlockedSet(b0);
        Unblock(v, d);
        StillFrom(b0, b, Now(), d);
        FreeKeeps(c, b0, b, Now(), p, v);
      } else {
        Enlist(v, c);
        EnlistKeeps(c, b0, b, Now(), p, v);
      }
    }
  }

  ghost predicate IsFresh(b: Blocks) {
    && |b.blocked| == |b.waiting|
    && (forall v :: 0 <= v < |b.blocked| ==> !b.blocked[v])
    && (forall v :: 0 <= v < |b.waiting| ==> b.waiting[v] == [])
  }

  lemma FreshStart(c: Scope, b: Blocks)
    requires IsFresh(b) && InRange(c.g) && |c.explore| == |b.blocked| == |c.g| && May(c, c.start)
    ensures SearchInv(c, b, []) && MayPush(c, b, [], c.start)
  {
  }

  lemma {:induction false} TotalOfZeros(s: seq<int>)
    requires forall i :: 0 <= i < |s| ==> s[i] == 0
    ensures Total(s) == 0
  {
    if s != [] {
      TotalOfZeros(s[..|s| - 1]);
    }
  }

  /** Which cycles of a component the program records: an arc from a vertex to itself
      only in components of three or more vertices. */
  ghost predicate Recordable(p: seq<nat>, vertices: seq<nat>) {
    |p| >= 2 || |vertices| >= 3
  }

  ghost predicate AllCovered(g: Graph, vertices: seq<nat>, cycles: seq<seq<nat>>) {
    forall p: seq<nat> :: IsCycle(g, p) && Within(p, vertices) ==> (HasRow(cycles, p) <==> Recordable(p, vertices))
  }

  lemma CoveredAll(g: Graph, vertices: seq<nat>, cycles: seq<seq<nat>>)
    requires Covered(g, vertices, |vertices|, cycles) && |vertices| >= 3
    ensures AllCovered(g, vertices, cycles)
  {
    hide IsCycle, HasRow;
    assert vertices[..|vertices|] == vertices;
    forall p: seq<nat> | IsCycle(g, p) && Within(p, vertices) ensures HasRow(cycles, p) {
      CycleIsNonempty(g, p);
      assert p[0] in p;
      assert Meets(p, vertices[..|vertices|]);
    }
  }

  lemma CycleIsNonempty(g: Graph, p: seq<nat>)
    requires IsCycle(g, p)
    ensures p != []
  {
  }

  lemma ComponentFacts(g: Graph, c: T.Scc)
    requires T.IsComponent(g, c)
    ensures c.vertices != [] && Distinct(c.vertices) && T.Marks(c.member, c.vertices)
    ensures forall v :: v in c.vertices ==> v < |g|
  {
    hide T.Mutual;
  }

  lemma SingleHasNone(g: Graph, vertices: seq<nat>)
    requires |vertices| == 1
    ensures AllCovered(g, vertices, [])
  {
    hide Walk, Edge;
    forall p: seq<nat> | IsCycle(g, p) && Within(p, vertices) ensures |p| < 2 {
      DistinctSize(p);
      Fits(vertices, Elements(p));
    }
  }

  /** The two vertices of a two-vertex component lead to each other. */
  lemma PairIsCycle(g: Graph, c: T.Scc)
    requires T.IsComponent(g, c) && |c.vertices| == 2 && InRange(g)
    ensures IsCycle(g, c.vertices)
  {
    hide Reach, Edge;
    var a, b := c.vertices[0], c.vertices[1];
    assert a in c.vertices && b in c.vertices && a != b;
    ArcWithin(g, c, a, b);
    ArcWithin(g, c, b, a);
  }

  lemma ArcWithin(g: Graph, c: T.Scc, a: nat, b: nat)
    requires T.IsComponent(g, c) && InRange(g) && a in c.vertices && b in c.vertices && a != b
    requires forall v :: v in c.vertices ==> v == a || v == b
    ensures Edge(g, a, b)
  {
    hide Reach, Edge;
    var x, y := LeavesOnReach(g, a, b, {a});
    ReachEdge(g, a, y);
    ReachTransitive(g, y, b, a);
    assert T.Mutual(g, a, y);
  }

  lemma PairIsCovered(g: Graph, vertices: seq<nat>, cycles: seq<seq<nat>>)
    requires |vertices| == 2 && cycles == [vertices] && vertices[0] != vertices[1]
    ensures AllCovered(g, vertices, cycles)
  {
    hide Walk, Edge;
    forall p: seq<nat> | IsCycle(g, p) && Within(p, vertices) ensures HasRow(cycles, p) <==> |p| >= 2 {
      if |p| >= 2 {
        PairRotates(vertices, p);
        assert SameCycle(cycles[0], p);
      } else if HasRow(cycles, p) {
        SameElements(vertices, p);
      }
    }
  }

  lemma PairRotates(vertices: seq<nat>, p: seq<nat>)
    requires |vertices| == 2 && Distinct(p) && |p| >= 2 && Within(p, vertices) && vertices[0] != vertices[1]
    ensures SameCycle(vertices, p)
  {
    DistinctSize(p);
    Fits(vertices, Elements(p));
    assert p[0] in p && p[1] in p && p[0] != p[1];
    var m := if p[0] == vertices[0] then 0 else 1;
    assert vertices == Rotate(p, m);
  }

  /** A component of one vertex with an arc to itself: a cycle that is not recorded. */
  lemma LoneLoop(cycles: seq<seq<nat>>)
    requires AllCovered([[0]], [0], cycles)
    ensures T.IsComponent([[0]], T.Scc([0], [true])) && IsCycle([[0]], [0]) && !HasRow(cycles, [0])
  {
    hide HasRow;
    var g: Graph := [[0]];
    assert Edge(g, 0, 0);
    assert Within([0], [0]);
    ReachSelf(g, 0);
    forall v: nat ensures T.Mutual(g, 0, v) <==> v == 0 {
      if Reach(g, 0, v) {
        var p :| WalkFromTo(g, p, 0, v);
      }
    }
  }

  /** A component of two vertices, the second with an arc to itself: the same. */
  lemma PairLoop(cycles: seq<seq<nat>>)
    requires AllCovered([[1], [0, 1]], [0, 1], cycles)
    ensures T.IsComponent([[1], [0, 1]], T.Scc([0, 1], [true, true])) && IsCycle([[1], [0, 1]], [1]) && !HasRow(cycles, [1])
  {
    hide HasRow;
    var g: Graph := [[1], [0, 1]];
    assert Edge(g, 0, 1) && Edge(g, 1, 0) && Edge(g, 1, 1);
    assert Within([1], [0, 1]);
    ReachSelf(g, 0);
    ReachSelf(g, 1);
    assert WalkFromTo(g, [0, 1], 0, 1) && WalkFromTo(g, [1, 0], 1, 0);
    forall u: nat, v: nat | u < 2 ensures T.Mutual(g, u, v) <==> v < 2 {
      if Reach(g, u, v) {
        var p :| WalkFromTo(g, p, u, v);
      }
    }
  }

  lemma NothingCovered(g: Graph, vertices: seq<nat>, cycles: seq<seq<nat>>)
    ensures Covered(g, vertices, 0, cycles)
  {
    hide IsCycle, HasRow;
    assert forall p :: !Meets(p, vertices[..0]);
  }

  lemma NothingStarts(g: Graph, vertices: seq<nat>)
    ensures ByStart(g, vertices, 0, [])
  {
  }

  lemma Remaining(vertices: seq<nat>, k: nat)
    requires k < |vertices| && Distinct(vertices)
    ensures forall x :: x in vertices && x !in vertices[..k] ==> x in vertices[k..]
    ensures forall x :: x in vertices[k + 1..] <==> x in vertices[k..] && x != vertices[k]
    ensures forall x :: x in vertices[k..] ==> x !in vertices[..k]
  {
    assert vertices == vertices[..k] + vertices[k..];
    assert vertices[k..] == [vertices[k]] + vertices[k + 1..];
  }

  lemma WaitsMore(b: Blocks, b': Blocks, w: nat, v: nat)
    requires w < |b.waiting| && b'.waiting == b.waiting[w := b.waiting[w] + [v]]
    ensures forall u, x :: Waits(b', u, x) <==> Waits(b, u, x) || (u == v && x == w)
  {
  }

  lemma PushSizes(c: Scope, b: Blocks, p: seq<nat>, v: nat)
    requires SearchInv(c, b, p) && MayPush(c, b, p, v)
    ensures v < |c.g| == |b.blocked|
  {
    hide Settled, Listed, Active, Stacked;
  }

  lemma BlockedInRange(b: Blocks)
    ensures BlockedSet(b) <= UpTo(|b.blocked|)
  {
  }

  /** What holds when all arcs of `v` have been followed. */
  lemma LeaveFacts(c: Scope, b0: Blocks, b: Blocks, p: seq<nat>, v: nat, cycles: seq<seq<nat>>, found: bool)
    requires v < |c.g| && Following(c, b0, b, p, v, cycles, |c.g[v]|, found)
    ensures Recorded(c, v, p, cycles) && Keeps(b0, b, p) && SearchInv(c, b0, p) && SearchInv(c, b, p + [v])
    ensures Guarded(b, BlockedSet(b0)) && v !in BlockedSet(b0) && Blocked(b, v) && ListsInRange(b) && v !in p
    ensures InRange(c.g) && forall u :: Blocked(b0, u) ==> Blocked(b, u)
    ensures !found ==> forall w :: Arc(c, v, w) ==> w != c.start && Blocked(b, w)
  {
    hide Settled, Active, Tail, RecordedUpTo, Recorded, Walk;
    StartIsStacked(c, b, p, v);
    AllArcsRecorded(c, v, p, cycles);
    assert Keeps(b0, b, p) by { PushKeeps(c, b0, p, v); KeepsTransitive(b0, Pushed(b0, v), b, p, p + [v]); }
    EntryIsGuarded(c, b0, b, p);
    assert v in p + [v];
    if !found {
      forall w | Arc(c, v, w) ensures w != c.start && Blocked(b, w) {
        var j :| 0 <= j < |c.g[v]| && c.g[v][j] == w;
        assert DeadEnd(c, b, c.g[v][j]);
      }
    }
  }

  lemma StillFrom(b0: Blocks, b: Blocks, b': Blocks, d: set<nat>)
    requires StillBlocked(b, b', d) && d == BlockedSet(b0) && forall u :: Blocked(b0, u) ==> Blocked(b, u)
    ensures forall u :: Blocked(b0, u) ==> Blocked(b', u)
  {
    assert forall u :: Blocked(b0, u) ==> u in UpTo(|b0.blocked|) && u in d;
  }

  lemma SumsTotal(rows: seq<seq<int>>, sums: seq<int>, sum: int)
    requires Sums(rows, sums, sum)
    ensures sum == Total(sums)
  {
  }

  lemma StackInRange(g: Graph, p: seq<nat>)
    requires IsCycle(g, p)
    ensures Distinct(p) && forall v :: v in p ==> v < |g|
  {
    hide Edge;
  }

  lemma MoreCycles(g: Graph, cycles: seq<seq<nat>>, p: seq<nat>, s: set<nat>)
    requires AllCycles(g, cycles) && IsCycle(g, p) && AllWithin(cycles, s) && Elements(p) <= s
    ensures AllCycles(g, cycles + [p]) && AllWithin(cycles + [p], s)
  {
    hide IsCycle;
  }

  lemma FreeSkip(b0: Blocks, b: Blocks, y: nat, i: nat)
    requires Freeing(b0, b, y, i) && i < |b.waiting[y]| && !Blocked(b, b.waiting[y][i])
    ensures Freeing(b0, b, y, i + 1)
  {
    hide Waits;
  }

  lemma FreeingKeeps(b0: Blocks, b: Blocks, y: nat, i: nat, d: set<nat>)
    requires Freeing(b0, b, y, i) && Guarded(b0, d) && ListsInRange(b0) && Blocked(b0, y)
    ensures Guarded(b, d) && ListsInRange(b) && BlockedSet(b) < BlockedSet(b0) && !Blocked(b, y)
    ensures i < |b.waiting[y]| ==> b.waiting[y][i] < |b.blocked|
  {
    GuardedSubset(b0, b, d);
    assert y in BlockedSet(b0) && y !in BlockedSet(b);
    assert forall u :: u in BlockedSet(b) ==> Blocked(b, u);
    assert i < |b.waiting[y]| ==> Waits(b, b.waiting[y][i], y);
  }

  lemma FreedElsewhere(b: Blocks, b': Blocks, n: nat, y: nat)
    requires Freed(b, b', n) && y < |b.waiting| && y != n && !Blocked(b, y)
    ensures b'.waiting[y] == b.waiting[y]
  {
    assert SameList(b, b', y);
  }
}

/**
 Whole runs of hierarchical sorting: the queues are created, ranked, and sorted
 one after the other, and the survivors are filed by their numbers.
 */
module Nezha {
  import opened Sequences
  import opened Deltas
  import opened Footprint
  import opened AddressQueues
  import opened SortFunction
  import opened SortExact
  import opened SortResult
  import opened QueueSorting
  import opened Sorting
  import G = Digraph
  import TS = TopologicalSort

  type Queues = map<Key, Queue>

  // ----------------------------------------------------- runs on values

  /** Some transaction writes `a` and reads the other address `b`. */
  ghost predicate Depends(edges: Edges, a: Key, b: Key) {
    a != b && exists t :: HasNode(edges, RWNode(t, a, Write)) && HasNode(edges, RWNode(t, b, Read))
  }

  /** No chain of dependencies leads from an address back to itself. */
  ghost predicate AcyclicKeys(edges: Edges) {
    forall p :: IsChain(edges, p) && |p| >= 2 ==> p[0] != p[|p| - 1]
  }

  ghost predicate IsChain(edges: Edges, p: seq<Key>) {
    forall i :: 0 <= i < |p| - 1 ==> Depends(edges, p[i], p[i + 1])
  }

  /** Every queue comes before the queues it depends on. */
  ghost predicate Ordered(edges: Edges, sequence: seq<Key>) {
    forall i, a :: 0 <= i < |sequence| && Depends(edges, a, sequence[i]) ==> a in sequence[..i]
  }

  ghost predicate AllQueues(edges: Edges, queues: Queues) {
    && WellFormed(edges) && (forall k :: k in queues ==> IsQueue(edges, k, queues[k]))
    && (forall n :: HasNode(edges, n) ==> n.key in queues)
  }

  function WriteNodes(queues: Queues, sequence: seq<Key>): nat {
    if sequence == [] then 0
    else
      var k := sequence[|sequence| - 1];
      WriteNodes(queues, sequence[..|sequence| - 1]) + if k in queues then |queues[k].wSlice| else 0
  }

  /** Between two queues: numbers in bounds, the sorted queues numbered, and
      assigned flags only at nodes of sorted queues. */
  ghost predicate Between(edges: Edges, queues: Queues, sorted: seq<Key>, s: State) {
    && Numbered(edges, s, INITIAL_SEQUENCE + WriteNodes(queues, sorted))
    && (forall k :: k in sorted ==> k in queues && QueueNumbered(queues[k], s))
    && (forall n :: n in s.marked ==> HasNode(edges, n) && n.key in sorted)
  }

  /** Between two queues of a dependency order: the sorted ones are safe, and
      whoever is aborted stands behind another read-modify-write. */
  ghost predicate SafeBetween(queues: Queues, sorted: seq<Key>, s: State) {
    && (forall k :: k in sorted ==> k in queues && ReadsBelowWrites(queues[k], s))
    && (forall t :: t in s.aborted ==> Displaced(queues, t))
  }

  /** Some address has an earlier read-modify-write than this transaction's. */
  ghost predicate Displaced(queues: Queues, t: TxId) {
    exists k, t' :: k in queues && BehindAnother(k, queues[k], t, t')
  }

  /** The transaction writes no address that is sorted after the `i`-th. */
  ghost predicate WritesNoLater(edges: Edges, sequence: seq<Key>, i: nat, t: TxId) {
    forall m :: i < m < |sequence| ==> !HasNode(edges, RWNode(t, sequence[m], Write))
  }

  /** In every sorted queue the surviving writes of transactions that write no later
      address are apart. */
  ghost predicate AllApart(edges: Edges, queues: Queues, sequence: seq<Key>, j: nat, s: State) {
    forall i :: 0 <= i < j <= |sequence| ==> sequence[i] in queues && ApartAt(edges, queues[sequence[i]], sequence, i, s)
  }

  ghost predicate ApartAt(edges: Edges, q: Queue, sequence: seq<Key>, i: nat, s: State) {
    forall w, w' :: w in q.wSlice && w' in q.wSlice && w != w' && Live(s, w.tx) && Live(s, w'.tx) &&
                    WritesNoLater(edges, sequence, i, w.tx) && WritesNoLater(edges, sequence, i, w'.tx) ==>
                      Num(s, w.tx) != Num(s, w'.tx)
  }

  /** Sorting a later queue leaves the writes of those who do not stand in it. */
  lemma StillApart(edges: Edges, keep: bool, queues: Queues, sequence: seq<Key>, i: nat, j: nat, s: State, s': State,
                   m: int, mr: int, g: int)
    requires AllQueues(edges, queues) && i < j < |sequence| && sequence[i] in queues && sequence[j] in queues
    requires QueueNumbered(queues[sequence[i]], s) && ApartAt(edges, queues[sequence[i]], sequence, i, s)
    requires QueueSorted(edges, keep, sequence[j], queues[sequence[j]], s, s', m, mr, g)
    ensures ApartAt(edges, queues[sequence[i]], sequence, i, s')
  {
    hide Bands, OneRmw, Marking, Numbered, LaterRmw, Rmw, ReadElsewhere, NewReadersLow, WellFormed;
    var k, q := sequence[j], queues[sequence[i]];
    assert IsQueue(edges, k, queues[k]);
    forall w | w in q.wSlice && Live(s', w.tx) && WritesNoLater(edges, sequence, i, w.tx)
      ensures Live(s, w.tx) && Num(s', w.tx) == Num(s, w.tx)
    {
      assert RWNode(w.tx, k, Write) !in queues[k].wSlice;
      assert Determined(s, w.tx);
    }
  }

  lemma ApartNext(edges: Edges, keep: bool, queues: Queues, sequence: seq<Key>, j: nat, s: State, s': State, m: int, mr: int, g: int)
    requires AllQueues(edges, queues) && j < |sequence| && sequence[j] in queues && Between(edges, queues, sequence[..j], s)
    requires AllApart(edges, queues, sequence, j, s)
    requires QueueSorted(edges, keep, sequence[j], queues[sequence[j]], s, s', m, mr, g)
    ensures AllApart(edges, queues, sequence, j + 1, s')
  {
    hide AllQueues, Numbered, QueueNumbered, ApartAt, QueueSorted;
    forall i | 0 <= i < j + 1 ensures sequence[i] in queues && ApartAt(edges, queues[sequence[i]], sequence, i, s') {
      if i < j {
        assert sequence[i] in sequence[..j];
        StillApart(edges, keep, queues, sequence, i, j, s, s', m, mr, g);
      } else {
        SortedIsApart(edges, keep, queues[sequence[j]], sequence, j, s, s', m, mr, g);
      }
    }
  }

  lemma SortedIsApart(edges: Edges, keep: bool, q: Queue, sequence: seq<Key>, j: nat, s: State, s': State, m: int, mr: int, g: int)
    requires j < |sequence| && QueueSorted(edges, keep, sequence[j], q, s, s', m, mr, g)
    ensures ApartAt(edges, q, sequence, j, s')
  {
    hide Rmw, OneRmw, Marking, Numbered, Rises, Aborts, QueueNumbered, NewReadersLow, WritesNoLater;
  }

  /** The three layers of an address: pure readers, read-modify-writers, blind writers;
      the read-modify-writers are apart. */
  ghost predicate Layered(k: Key, q: Queue, s: State) {
    && (forall r, w :: r in q.rSlice && w in q.wSlice && Live(s, r.tx) && Live(s, w.tx) &&
                       !(Rmw(k, q, r.tx) && Rmw(k, q, w.tx)) ==>
                         Num(s, r.tx) < Num(s, w.tx))
    && (forall t, t' :: Rmw(k, q, t) && Rmw(k, q, t') && t != t' && Live(s, t) && Live(s, t') ==> Num(s, t) != Num(s, t'))
  }

  ghost predicate AllLayered(queues: Queues, sorted: seq<Key>, s: State) {
    forall k :: k in sorted ==> k in queues && Layered(k, queues[k], s)
  }

  lemma SortedIsLayered(edges: Edges, keep: bool, k: Key, q: Queue, s: State, s': State, m: int, mr: int, g: int)
    requires IsQueue(edges, k, q) && QueueSorted(edges, keep, k, q, s, s', m, mr, g)
    ensures Layered(k, q, s')
  {
    hide OneRmw, Marking, Numbered, Rises, Aborts, QueueNumbered, NewReadersLow;
    forall r, w | r in q.rSlice && w in q.wSlice && Live(s', r.tx) && Live(s', w.tx) && !(Rmw(k, q, r.tx) && Rmw(k, q, w.tx))
      ensures Num(s', r.tx) < Num(s', w.tx)
    {
      assert r == RWNode(r.tx, k, Read) && w == RWNode(w.tx, k, Write);
      if Rmw(k, q, r.tx) {
        assert RWNode(r.tx, k, Write) in q.wSlice;
      }
    }
    forall t, t' | Rmw(k, q, t) && Rmw(k, q, t') && t != t' && Live(s', t) && Live(s', t') ensures Num(s', t) != Num(s', t') {
      var w, w' := RWNode(t, k, Write), RWNode(t', k, Write);
      assert w in q.wSlice && w' in q.wSlice && w != w';
    }
  }

  /** Sorting the next queue of a dependency order leaves the sorted ones' layers:
      readers, read-modify-writers among them, are final and writers only rise. */
  lemma StillLayered(edges: Edges, keep: bool, queues: Queues, sequence: seq<Key>, i: nat, j: nat, s: State, s': State,
                     m: int, mr: int, g: int)
    requires AllQueues(edges, queues) && Ordered(edges, sequence) && Distinct(sequence) && i < j < |sequence|
    requires sequence[i] in queues && sequence[j] in queues && QueueNumbered(queues[sequence[i]], s)
    requires Layered(sequence[i], queues[sequence[i]], s)
    requires QueueSorted(edges, keep, sequence[j], queues[sequence[j]], s, s', m, mr, g)
    ensures Layered(sequence[i], queues[sequence[i]], s')
  {
    hide Bands, OneRmw, Marking, Numbered, Ordered, LaterRmw, ReadElsewhere, NewReadersLow;
    var a, b := sequence[j], sequence[i];
    var q := queues[b];
    assert IsQueue(edges, b, q);
    forall r | r in q.rSlice && Live(s', r.tx) ensures Live(s, r.tx) && Num(s', r.tx) == Num(s, r.tx) {
      assert r == RWNode(r.tx, b, Read);
      ReaderIsFinal(edges, queues, sequence, i, j, r.tx);
      assert Determined(s, r.tx);
    }
    forall w | w in q.wSlice && Live(s', w.tx) ensures Live(s, w.tx) && Num(s, w.tx) <= Num(s', w.tx) {
      assert Determined(s, w.tx);
    }
    forall t | Rmw(b, q, t) && Live(s', t) ensures Live(s, t) && Num(s', t) == Num(s, t) {
      assert RWNode(t, b, Read) in q.rSlice;
    }
  }

  lemma LayeredNext(edges: Edges, keep: bool, queues: Queues, sequence: seq<Key>, j: nat, s: State, s': State, m: int, mr: int, g: int)
    requires AllQueues(edges, queues) && Ordered(edges, sequence) && Distinct(sequence) && j < |sequence|
    requires sequence[j] in queues && Between(edges, queues, sequence[..j], s) && AllLayered(queues, sequence[..j], s)
    requires QueueSorted(edges, keep, sequence[j], queues[sequence[j]], s, s', m, mr, g)
    ensures AllLayered(queues, sequence[..j + 1], s')
  {
    hide Numbered, Ordered, QueueNumbered, Layered, QueueSorted, Distinct;
    var k := sequence[j];
    assert sequence[..j + 1] == sequence[..j] + [k];
    forall k' | k' in sequence[..j + 1] ensures k' in queues && Layered(k', queues[k'], s') {
      if k' in sequence[..j] {
        var i :| 0 <= i < j && sequence[i] == k';
        StillLayered(edges, keep, queues, sequence, i, j, s, s', m, mr, g);
      } else {
        SortedIsLayered(edges, keep, k, queues[k], s, s', m, mr, g);
      }
    }
  }

  lemma BetweenNext(edges: Edges, keep: bool, queues: Queues, sorted: seq<Key>, k: Key, s: State, s': State, m: int, mr: int)
    requires AllQueues(edges, queues) && Between(edges, queues, sorted, s) && k in queues && k !in sorted
    requires QueueSorted(edges, keep, k, queues[k], s, s', m, mr, INITIAL_SEQUENCE + WriteNodes(queues, sorted) + |queues[k].wSlice|)
    ensures Between(edges, queues, sorted + [k], s')
  {
    hide Numbered, Bands, OneRmw, Aborts;
    var sorted' := sorted + [k];
    assert sorted'[..|sorted|] == sorted;
    forall k' | k' in sorted' ensures k' in queues && QueueNumbered(queues[k'], s') {
      if k' != k {
        StillNumbered(edges, keep, queues, k, k', s, s', m, mr, INITIAL_SEQUENCE + WriteNodes(queues, sorted));
      }
    }
    assert IsQueue(edges, k, queues[k]);
  }

  lemma StillNumbered(edges: Edges, keep: bool, queues: Queues, k: Key, k': Key, s: State, s': State, m: int, mr: int, g: int)
    requires AllQueues(edges, queues) && k in queues && k' in queues && QueueNumbered(queues[k'], s)
    requires Numbered(edges, s, g) && QueueSorted(edges, keep, k, queues[k], s, s', m, mr, g + |queues[k].wSlice|)
    ensures QueueNumbered(queues[k'], s')
  {
    hide Bands, OneRmw, Aborts, Marking;
    assert IsQueue(edges, k, queues[k]);
    forall n | n in queues[k'].rSlice || n in queues[k'].wSlice ensures Num(s', n.tx) != 0 {
      var r, w := RWNode(n.tx, k, Read), RWNode(n.tx, k, Write);
      if r in queues[k].rSlice {
        assert Num(s', r.tx) != 0;
      } else if w in queues[k].wSlice {
        assert Num(s', w.tx) != 0;
      }
    }
  }

  /** A reader of a sorted queue does not write a queue that is still to come. */
  lemma ReaderIsFinal(edges: Edges, queues: Queues, sequence: seq<Key>, i: nat, j: nat, t: TxId)
    requires AllQueues(edges, queues) && Ordered(edges, sequence) && Distinct(sequence) && i < j < |sequence|
    requires sequence[i] in queues && sequence[j] in queues && RWNode(t, sequence[i], Read) in queues[sequence[i]].rSlice
    ensures RWNode(t, sequence[j], Write) !in queues[sequence[j]].wSlice
  {
    hide WellFormed;
    var a, b := sequence[j], sequence[i];
    assert IsQueue(edges, a, queues[a]) && IsQueue(edges, b, queues[b]);
    assert a !in sequence[..i];
    assert !Depends(edges, a, b);
    assert HasNode(edges, RWNode(t, b, Read));
  }

  /** Sorting the next queue of a dependency order leaves the sorted ones safe:
      their readers' numbers are final and their writers' numbers only rise. */
  lemma StillSafe(edges: Edges, keep: bool, queues: Queues, sequence: seq<Key>, i: nat, j: nat, s: State, s': State,
                  m: int, mr: int, g: int)
    requires AllQueues(edges, queues) && Ordered(edges, sequence) && Distinct(sequence) && i < j < |sequence|
    requires sequence[i] in queues && sequence[j] in queues && QueueNumbered(queues[sequence[i]], s)
    requires ReadsBelowWrites(queues[sequence[i]], s)
    requires QueueSorted(edges, keep, sequence[j], queues[sequence[j]], s, s', m, mr, g)
    ensures ReadsBelowWrites(queues[sequence[i]], s')
  {
    hide Bands, OneRmw, Marking, Numbered, Ordered, LaterRmw, Rmw, ReadElsewhere;
    var a, b := sequence[j], sequence[i];
    var q := queues[b];
    assert IsQueue(edges, b, q);
    forall r, w | r in q.rSlice && w in q.wSlice && r.tx != w.tx && Live(s', r.tx) && Live(s', w.tx)
      ensures Num(s', r.tx) < Num(s', w.tx)
    {
      assert r == RWNode(r.tx, b, Read);
      ReaderIsFinal(edges, queues, sequence, i, j, r.tx);
      assert Determined(s, r.tx) && Determined(s, w.tx);
    }
  }

  /** In a dependency order no write is pinned by an earlier read: whoever the
      next queue aborts stands behind another read-modify-write. */
  lemma OnlyDisplaced(edges: Edges, keep: bool, queues: Queues, sequence: seq<Key>, j: nat, s: State, s': State,
                      m: int, mr: int, g: int, t: TxId)
    requires AllQueues(edges, queues) && Ordered(edges, sequence) && Distinct(sequence) && j < |sequence|
    requires sequence[j] in queues && Between(edges, queues, sequence[..j], s)
    requires QueueSorted(edges, keep, sequence[j], queues[sequence[j]], s, s', m, mr, g)
    requires t in s'.aborted && t !in s.aborted
    ensures !keep && LaterRmw(sequence[j], queues[sequence[j]], s', t)
  {
    hide Bands, OneRmw, Marking, Numbered, Ordered, LaterRmw, Rmw, QueueNumbered;
    var k := sequence[j];
    assert IsQueue(edges, k, queues[k]);
    if ReadElsewhere(s, k, t) && RWNode(t, k, Write) in queues[k].wSlice {
      var n :| n in s.marked && n.tx == t && n.kind == Read && n.key != k;
      assert n == RWNode(t, n.key, Read);
      var i :| 0 <= i < j && sequence[i] == n.key;
      assert IsQueue(edges, n.key, queues[n.key]);
      ReaderIsFinal(edges, queues, sequence, i, j, t);
    }
  }

  lemma SafeNext(edges: Edges, queues: Queues, sequence: seq<Key>, j: nat, s: State, s': State, m: int, mr: int, g: int)
    requires AllQueues(edges, queues) && Ordered(edges, sequence) && Distinct(sequence) && j < |sequence|
    requires sequence[j] in queues && Between(edges, queues, sequence[..j], s) && SafeBetween(queues, sequence[..j], s)
    requires QueueSorted(edges, false, sequence[j], queues[sequence[j]], s, s', m, mr, g)
    ensures SafeBetween(queues, sequence[..j + 1], s')
  {
    hide Bands, OneRmw, Marking, Numbered, Ordered, LaterRmw, QueueNumbered, ReadsBelowWrites, Displaced, AllQueues,
         QueueSorted, Distinct;
    var k := sequence[j];
    assert sequence[..j + 1] == sequence[..j] + [k];
    forall k' | k' in sequence[..j + 1] ensures k' in queues && ReadsBelowWrites(queues[k'], s') {
      if k' in sequence[..j] {
        var i :| 0 <= i < j && sequence[i] == k';
        StillSafe(edges, false, queues, sequence, i, j, s, s', m, mr, g);
      } else {
        SortedIsSafe(edges, queues, k, s, s', m, mr, g);
      }
    }
    forall t | t in s'.aborted ensures Displaced(queues, t) {
      if t !in s.aborted {
        OnlyDisplaced(edges, false, queues, sequence, j, s, s', m, mr, g, t);
        IsDisplaced(queues, k, s', t);
      }
    }
  }

  lemma IsDisplaced(queues: Queues, k: Key, s: State, t: TxId)
    requires k in queues && LaterRmw(k, queues[k], s, t)
    ensures Displaced(queues, t)
  {
    hide BehindAnother;
  }

  lemma SortedIsSafe(edges: Edges, queues: Queues, k: Key, s: State, s': State, m: int, mr: int, g: int)
    requires AllQueues(edges, queues) && k in queues && QueueSorted(edges, false, k, queues[k], s, s', m, mr, g)
    ensures ReadsBelowWrites(queues[k], s')
  {
    hide Bands, OneRmw, Marking, Numbered, Rises, Aborts, QueueNumbered, IsQueue;
    BandsAreSafe(edges, k, queues[k], s', m, mr);
  }

  // --------------------------------------------------------- creating queues

  /** The block: each list holds one transaction's nodes, without repetition, and
      no transaction has two lists. */
  ghost predicate IsBlock(rwNodes: seq<seq<RWNode>>) {
    && (forall i :: 0 <= i < |rwNodes| ==> Distinct(rwNodes[i]) && OneOwner(rwNodes[i]))
    && (forall i, j, n, n' :: 0 <= i < j < |rwNodes| && n in rwNodes[i] && n' in rwNodes[j] ==> n.tx != n'.tx)
  }

  ghost predicate OneOwner(rw: seq<RWNode>) {
    forall n :: n in rw ==> n.tx == rw[0].tx
  }

  ghost predicate InBlock(rwNodes: seq<seq<RWNode>>, n: RWNode) {
    exists i :: 0 <= i < |rwNodes| && n in rwNodes[i]
  }

  type Arrays = map<Key, seq<RWNode>>

  /** `arrays` holds exactly the nodes of `flat`, by address, in their order. */
  ghost predicate Gathered(flat: seq<RWNode>, arrays: Arrays) {
    && (forall k :: k in arrays ==> Distinct(arrays[k]) && arrays[k] != [] && ByFirst(flat, arrays[k]))
    && (forall k, n :: k in arrays && n in arrays[k] ==> n in flat && n.key == k)
    && (forall n :: n in flat ==> n.key in arrays && n in arrays[n.key])
  }

  function Gather(arrays: Arrays, n: RWNode): Arrays {
    arrays[n.key := (if n.key in arrays then arrays[n.key] else []) + [n]]
  }

  lemma GatherOne(flat: seq<RWNode>, arrays: Arrays, n: RWNode)
    requires Gathered(flat, arrays) && n !in flat
    ensures Gathered(flat + [n], Gather(arrays, n))
  {
    hide ByFirst;
    var flat', arrays' := flat + [n], Gather(arrays, n);
    EmptyByFirst(flat);
    forall k | k in arrays' ensures ByFirst(flat', arrays'[k]) {
      ByFirstMore(flat, if k in arrays then arrays[k] else [], n);
    }
  }

  lemma EmptyByFirst(flat: seq<RWNode>)
    ensures ByFirst(flat, [])
  {
  }

  method GatherList(rw: seq<RWNode>, arrays0: Arrays, ghost flat: seq<RWNode>) returns (arrays: Arrays)
    requires Gathered(flat, arrays0) && Distinct(rw) && forall n :: n in rw ==> n !in flat
    ensures Gathered(flat + rw, arrays)
  {
    hide Gathered, Gather;
    arrays := arrays0;
    var i := 0;
    assert flat + rw[..0] == flat;
    while i < |rw|
      invariant 0 <= i <= |rw| && Gathered(flat + rw[..i], arrays)
    {
      assert flat + rw[..i + 1] == flat + rw[..i] + [rw[i]] && rw[i] in rw;
      GatherOne(flat + rw[..i], arrays, rw[i]);
      arrays := Gather(arrays, rw[i]);
      i := i + 1;
    }
    assert rw[..i] == rw;
  }

  /** `initialSorting`: the reads and the writes of one address, in their order. */
  method InitialSorting(nodes: seq<RWNode>) returns (rSlice: seq<RWNode>, wSlice: seq<RWNode>)
    requires Distinct(nodes)
    ensures Distinct(rSlice) && Distinct(wSlice) && ByFirst(nodes, rSlice) && ByFirst(nodes, wSlice)
    ensures forall n :: n in rSlice <==> n in nodes && n.kind == Read
    ensures forall n :: n in wSlice <==> n in nodes && n.kind == Write
  {
    hide ByFirst;
    rSlice, wSlice := [], [];
    EmptyByFirst(nodes[..0]);
    var i := 0;
    while i < |nodes|
      invariant 0 <= i <= |nodes| && Distinct(rSlice) && Distinct(wSlice)
      invariant ByFirst(nodes[..i], rSlice) && ByFirst(nodes[..i], wSlice)
      invariant forall n :: n in rSlice <==> n in nodes[..i] && n.kind == Read
      invariant forall n :: n in wSlice <==> n in nodes[..i] && n.kind == Write
    {
      var rw := nodes[i];
      assert nodes[..i + 1] == nodes[..i] + [rw] && rw !in nodes[..i];
      ByFirstMore(nodes[..i], rSlice, rw);
      ByFirstMore(nodes[..i], wSlice, rw);
      if rw.kind == Read {
        rSlice := rSlice + [rw];
      } else {
        wSlice := wSlice + [rw];
      }
      i := i + 1;
    }
    assert nodes[..i] == nodes;
  }

  ghost predicate Undecided(s: State) {
    s.marked == {} && s.aborted == {} && forall t :: Num(s, t) == 0
  }

  ghost predicate FreshQueues(queues: Queues) {
    forall k :: k in queues ==> queues[k].maxRead == 0
  }

  /** Every queue lists its reads and its writes in the order of the block. */
  ghost predicate InBlockOrder(rwNodes: seq<seq<RWNode>>, queues: Queues) {
    forall k :: k in queues ==> ByFirst(Flatten(rwNodes), queues[k].rSlice) && ByFirst(Flatten(rwNodes), queues[k].wSlice)
  }

  /** `CreateGraph`: one edge per transaction that has nodes, one queue per address
      that a node touches, holding exactly its nodes in the order of the block.  The
      variant takes the first node of every list, so it needs lists that have one. */
  method CreateGraph(rwNodes: seq<seq<RWNode>>, keepsRmw: bool) returns (cq: QueueGraph)
    requires IsBlock(rwNodes) && (keepsRmw ==> [] !in rwNodes)
    ensures fresh(cq) && cq.Linked() && cq.keepsRmw == keepsRmw && Undecided(cq.Now())
    ensures AllQueues(cq.edges, cq.queues) && FreshQueues(cq.queues) && InBlockOrder(rwNodes, cq.queues)
    ensures forall n :: HasNode(cq.edges, n) <==> InBlock(rwNodes, n)
    ensures forall k :: k in cq.queues ==> cq.queues[k].rSlice + cq.queues[k].wSlice != []
  {
    hide Gathered, IsBlock, ByFirst, HasNode, Flatten;
    var edges, arrays := GatherAll(rwNodes);
    ghost var flat := Flatten(rwNodes);
    var queues: Queues := map[];
    var keys := Traverse(arrays.Keys);
    var i := 0;
    while i < |keys|
      invariant 0 <= i <= |keys| && forall k :: k in queues <==> k in keys[..i]
      invariant forall k :: k in queues ==> IsQueue(edges, k, queues[k]) && queues[k].maxRead == 0
      invariant forall k :: k in queues ==> queues[k].rSlice + queues[k].wSlice != []
      invariant InBlockOrder(rwNodes, queues)
    {
      var k := keys[i];
      assert k in keys;
      OneArray(flat, arrays, k);
      var rSlice, wSlice := InitialSorting(arrays[k]);
      var q := Queue(rSlice, wSlice, 0, 0);
      QueueOfArray(edges, flat, arrays, k, q);
      queues := queues[k := q];
      assert keys[..i + 1] == keys[..i] + [k];
      i := i + 1;
    }
    assert keys[..i] == keys;
    EveryNodeQueued(flat, arrays);
    cq := new QueueGraph(edges, queues, keepsRmw);
  }

  lemma OneArray(flat: seq<RWNode>, arrays: Arrays, k: Key)
    requires Gathered(flat, arrays) && k in arrays
    ensures Distinct(arrays[k]) && arrays[k] != []
  {
    hide ByFirst;
  }

  lemma EveryNodeQueued(flat: seq<RWNode>, arrays: Arrays)
    requires Gathered(flat, arrays)
    ensures forall n :: n in flat ==> n.key in arrays
  {
    hide ByFirst;
  }

  lemma ByFirstTransitive(s: seq<RWNode>, t: seq<RWNode>, r: seq<RWNode>)
    requires ByFirst(s, t) && ByFirst(t, r)
    ensures ByFirst(s, r)
  {
    hide Rank;
    forall i, j | 0 <= i < j < |r| ensures Rank(s, r[i]) < Rank(s, r[j]) {
      assert r[i] in r && r[j] in r;
      assert Rank(t, r[i]) < Rank(t, r[j]);
    }
  }

  lemma QueueOfArray(edges: Edges, flat: seq<RWNode>, arrays: Arrays, k: Key, q: Queue)
    requires Gathered(flat, arrays) && (forall n :: HasNode(edges, n) <==> n in flat)
    requires k in arrays && Distinct(q.rSlice) && Distinct(q.wSlice)
    requires ByFirst(arrays[k], q.rSlice) && ByFirst(arrays[k], q.wSlice)
    requires forall n :: n in q.rSlice <==> n in arrays[k] && n.kind == Read
    requires forall n :: n in q.wSlice <==> n in arrays[k] && n.kind == Write
    ensures IsQueue(edges, k, q) && q.rSlice + q.wSlice != [] && ByFirst(flat, q.rSlice) && ByFirst(flat, q.wSlice)
  {
    hide ByFirst, HasNode;
    ByFirstTransitive(flat, arrays[k], q.rSlice);
    ByFirstTransitive(flat, arrays[k], q.wSlice);
    var n := arrays[k][0];
    assert n in q.rSlice || n in q.wSlice;
    assert n in q.rSlice + q.wSlice;
  }

  method GatherAll(rwNodes: seq<seq<RWNode>>) returns (edges: Edges, arrays: Arrays)
    requires IsBlock(rwNodes)
    ensures WellFormed(edges) && Gathered(Flatten(rwNodes), arrays)
    ensures forall n :: HasNode(edges, n) <==> n in Flatten(rwNodes)
    ensures forall n :: HasNode(edges, n) <==> InBlock(rwNodes, n)
  {
    hide Gathered;
    edges, arrays := map[], map[];
    NothingGathered();
    var i := 0;
    while i < |rwNodes|
      invariant 0 <= i <= |rwNodes| && WellFormed(edges) && Gathered(Flatten(rwNodes[..i]), arrays)
      invariant forall n :: HasNode(edges, n) <==> InBlock(rwNodes[..i], n)
      invariant forall n :: HasNode(edges, n) <==> n in Flatten(rwNodes[..i])
    {
      var rw := rwNodes[i];
      NextList(rwNodes, i);
      FlattenMore(rwNodes, i);
      if |rw| > 0 {
        EdgesMore(edges, rw);
        arrays := GatherList(rw, arrays, Flatten(rwNodes[..i]));
        edges := edges[rw[0].tx := rw];
      } else {
        assert Flatten(rwNodes[..i]) + rw == Flatten(rwNodes[..i]);
      }
      i := i + 1;
    }
    assert rwNodes[..i] == rwNodes;
  }

  lemma NothingGathered()
    ensures Gathered([], map[])
  {
  }

  lemma NextList(rwNodes: seq<seq<RWNode>>, i: nat)
    requires IsBlock(rwNodes) && i < |rwNodes|
    ensures Distinct(rwNodes[i]) && OneOwner(rwNodes[i])
    ensures forall n :: InBlock(rwNodes[..i + 1], n) <==> InBlock(rwNodes[..i], n) || n in rwNodes[i]
    ensures forall n, n' :: InBlock(rwNodes[..i], n) && n' in rwNodes[i] ==> n.tx != n'.tx
  {
    assert rwNodes[..i + 1] == rwNodes[..i] + [rwNodes[i]];
    forall n ensures InBlock(rwNodes[..i + 1], n) <==> InBlock(rwNodes[..i], n) || n in rwNodes[i] {
      if n in rwNodes[i] {
        assert rwNodes[..i + 1][i] == rwNodes[i];
      } else if InBlock(rwNodes[..i], n) {
        var j :| 0 <= j < i && n in rwNodes[..i][j];
        assert rwNodes[..i + 1][j] == rwNodes[..i][j];
      }
    }
  }

  lemma EdgesMore(edges: Edges, rw: seq<RWNode>)
    requires WellFormed(edges) && OneOwner(rw) && rw != []
    requires forall n, n' :: HasNode(edges, n) && n' in rw ==> n.tx != n'.tx
    ensures
      var edges' := edges[rw[0].tx := rw];
      && WellFormed(edges') && (forall n :: HasNode(edges', n) <==> HasNode(edges, n) || n in rw)
      && forall n :: n in rw ==> !HasNode(edges, n)
  {
    var t := rw[0].tx;
    assert rw[0] in rw;
    if t in edges {
      assert HasNode(edges, edges[t][0]) by { assert edges[t][0] in edges[t]; }
    }
  }

  // ---------------------------------------------------------- ranking queues

  /** The addresses that the queue's writers read, other than its own. */
  method ReadBeside(edges: Edges, k: Key, q: Queue) returns (temp: set<Key>)
    requires AllNodes(edges, k, q)
    ensures forall b :: b in temp <==> Depends(edges, k, b)
  {
    temp := {};
    var i := 0;
    while i < |q.wSlice|
      invariant 0 <= i <= |q.wSlice|
      invariant forall b :: b in temp <==> exists w :: w in q.wSlice[..i] && ReadsToo(edges, w, b)
    {
      var w := q.wSlice[i];
      assert w in q.wSlice;
      var more := ReadKeys(edges, w);
      MoreRead(edges, q.wSlice, i, temp, more);
      temp := temp + more;
      i := i + 1;
    }
    assert q.wSlice[..i] == q.wSlice;
    DependsIff(edges, k, q);
  }

  /** The queue of `k` inside the block, as `IsQueue` without the reads. */
  ghost predicate AllNodes(edges: Edges, k: Key, q: Queue) {
    WellFormed(edges) && forall n :: n in q.wSlice <==> HasNode(edges, n) && n.key == k && n.kind == Write
  }

  ghost predicate ReadsToo(edges: Edges, w: RWNode, b: Key) {
    b != w.key && HasNode(edges, RWNode(w.tx, b, Read))
  }

  method ReadKeys(edges: Edges, w: RWNode) returns (keys: set<Key>)
    requires WellFormed(edges) && HasNode(edges, w)
    ensures forall b :: b in keys <==> ReadsToo(edges, w, b)
  {
    keys := {};
    var edge := edges[w.tx];
    var j := 0;
    while j < |edge|
      invariant 0 <= j <= |edge|
      invariant forall b :: b in keys <==> b != w.key && RWNode(w.tx, b, Read) in edge[..j]
    {
      var n := edge[j];
      assert n in edge;
      assert edge[..j + 1] == edge[..j] + [n];
      if n.kind == Read && n.key != w.key {
        keys := keys + {n.key};
      }
      j := j + 1;
    }
    assert edge[..j] == edge;
  }

  lemma MoreRead(edges: Edges, ws: seq<RWNode>, i: nat, temp: set<Key>, more: set<Key>)
    requires i < |ws| && forall b :: b in temp <==> exists w :: w in ws[..i] && ReadsToo(edges, w, b)
    requires forall b :: b in more <==> ReadsToo(edges, ws[i], b)
    ensures forall b :: b in temp + more <==> exists w :: w in ws[..i + 1] && ReadsToo(edges, w, b)
  {
    hide ReadsToo;
    assert ws[..i + 1] == ws[..i] + [ws[i]];
    forall b ensures b in temp + more <==> exists w :: w in ws[..i + 1] && ReadsToo(edges, w, b) {
      if b in temp {
        var w :| w in ws[..i] && ReadsToo(edges, w, b);
        assert w in ws[..i + 1];
      } else if b in more {
        assert ws[i] in ws[..i + 1];
      }
    }
  }

  lemma DependsIff(edges: Edges, k: Key, q: Queue)
    requires AllNodes(edges, k, q)
    ensures forall b :: Depends(edges, k, b) <==> exists w :: w in q.wSlice && ReadsToo(edges, w, b)
  {
    forall b ensures Depends(edges, k, b) <==> exists w :: w in q.wSlice && ReadsToo(edges, w, b) {
      if Depends(edges, k, b) {
        var t :| HasNode(edges, RWNode(t, k, Write)) && HasNode(edges, RWNode(t, b, Read));
        assert RWNode(t, k, Write) in q.wSlice && ReadsToo(edges, RWNode(t, k, Write), b);
      } else if w :| w in q.wSlice && ReadsToo(edges, w, b) {
        assert w == RWNode(w.tx, k, Write);
      }
    }
  }

  /** An arc for every dependency, from the written queue to the read one. */
  ghost predicate IsDeps(edges: Edges, keys: seq<Key>, deps: G.Graph) {
    |deps| == |keys| && forall i :: 0 <= i < |keys| ==> IsDepsOf(edges, keys, keys[i], deps[i])
  }

  ghost predicate IsDepsOf(edges: Edges, keys: seq<Key>, k: Key, arcs: seq<nat>) {
    Distinct(arcs) && forall j: nat :: j in arcs <==> j < |keys| && Depends(edges, k, keys[j])
  }

  /** The indices of addresses in the sorted list, one arc each, in any order. */
  method IndexAll(edges: Edges, keys: seq<Key>, sortedQueues: map<Key, nat>, k: Key, temp: set<Key>) returns (arcs: seq<nat>)
    requires forall b :: b in temp <==> Depends(edges, k, b)
    requires forall b :: b in temp ==> b in keys
    requires Distinct(keys) && forall i: nat :: i < |keys| ==> keys[i] in sortedQueues && sortedQueues[keys[i]] == i
    ensures IsDepsOf(edges, keys, k, arcs)
  {
    hide Depends;
    arcs := [];
    var list := Traverse(temp);
    var i := 0;
    while i < |list|
      invariant 0 <= i <= |list| && |arcs| == i
      invariant forall j :: 0 <= j < i ==> arcs[j] < |keys| && keys[arcs[j]] == list[j]
    {
      assert list[i] in temp;
      var x: nat :| x < |keys| && keys[x] == list[i];
      assert sortedQueues[keys[x]] == x;
      arcs := arcs + [sortedQueues[list[i]]];
      i := i + 1;
    }
    forall j: nat | j < |keys| && Depends(edges, k, keys[j]) ensures j in arcs {
      assert keys[j] in list;
      var x :| 0 <= x < |list| && list[x] == keys[j];
      assert arcs[x] == j;
    }
    forall j | j in arcs ensures j < |keys| && Depends(edges, k, keys[j]) {
      var x :| 0 <= x < |arcs| && arcs[x] == j;
      assert list[x] in temp;
    }
  }

  method SortedIndex(keys: seq<Key>) returns (sortedQueues: map<Key, nat>)
    requires Distinct(keys)
    ensures forall i: nat :: i < |keys| ==> keys[i] in sortedQueues && sortedQueues[keys[i]] == i
  {
    sortedQueues := map[];
    var i := 0;
    while i < |keys|
      invariant 0 <= i <= |keys|
      invariant forall j: nat :: j < i ==> keys[j] in sortedQueues && sortedQueues[keys[j]] == j
    {
      sortedQueues := sortedQueues[keys[i] := i];
      i := i + 1;
    }
  }

  method Dependencies(edges: Edges, queues: Queues, keys: seq<Key>) returns (deps: G.Graph)
    requires AllQueues(edges, queues) && Distinct(keys) && forall k :: k in keys <==> k in queues
    ensures IsDeps(edges, keys, deps)
  {
    hide IsDepsOf, AllQueues, Depends;
    var sortedQueues := SortedIndex(keys);
    deps := [];
    var i := 0;
    while i < |keys|
      invariant 0 <= i <= |keys| && |deps| == i
      invariant forall j :: 0 <= j < i ==> IsDepsOf(edges, keys, keys[j], deps[j])
    {
      var k := keys[i];
      assert k in keys;
      QueueFacts(edges, queues, k);
      var temp := ReadBeside(edges, k, queues[k]);
      var arcs := IndexAll(edges, keys, sortedQueues, k, temp);
      deps := deps + [arcs];
      i := i + 1;
    }
  }

  lemma QueueFacts(edges: Edges, queues: Queues, k: Key)
    requires AllQueues(edges, queues) && k in queues
    ensures AllNodes(edges, k, queues[k]) && forall b :: Depends(edges, k, b) ==> b in queues
  {
    assert IsQueue(edges, k, queues[k]);
    forall b | Depends(edges, k, b) ensures b in queues {
      var t :| HasNode(edges, RWNode(t, k, Write)) && HasNode(edges, RWNode(t, b, Read));
      assert RWNode(t, b, Read).key in queues;
    }
  }

  lemma DepsAreProper(edges: Edges, keys: seq<Key>, deps: G.Graph)
    requires IsDeps(edges, keys, deps) && |keys| < TS.MAX_INT64
    ensures |deps| == |keys| && G.InRange(deps) && TS.NoSelfLoops(deps) && TS.FitsInt64(deps)
  {
    forall u | 0 <= u < |deps|
      ensures u !in deps[u] && Distinct(deps[u]) && forall v :: v in deps[u] ==> v < |deps|
    {
      assert IsDepsOf(edges, keys, keys[u], deps[u]);
    }
    forall v | 0 <= v < |deps| ensures TS.InDegreeOf(deps, v) < TS.MAX_INT64 {
      FewArcs(deps, v, |deps|);
    }
  }

  /** Without parallel arcs a vertex has no more arcs in than there are vertices. */
  lemma {:induction false} FewArcs(g: G.Graph, v: nat, n: nat)
    requires n <= |g| && forall u :: 0 <= u < |g| ==> Distinct(g[u])
    ensures TS.InCount(g, seq(|g|, _ => false), v, n) <= n
  {
    if n > 0 {
      FewArcs(g, v, n - 1);
      OnceAtMost(g[n - 1], v);
    }
  }

  lemma {:induction false} OnceAtMost(arcs: seq<nat>, v: nat)
    requires Distinct(arcs)
    ensures TS.Occurrences(arcs, v) <= 1
  {
    if arcs != [] {
      var rest := arcs[..|arcs| - 1];
      OnceAtMost(rest, v);
      TS.OccursIff(rest, v);
    }
  }

  /** Cycles of queue indices are cycles of addresses. */
  lemma AcyclicDeps(edges: Edges, keys: seq<Key>, deps: G.Graph)
    requires IsDeps(edges, keys, deps) && AcyclicKeys(edges) && Distinct(keys)
    ensures G.Acyclic(deps)
  {
    hide Depends;
    forall p | G.Walk(deps, p) && |p| >= 2 ensures p[0] != p[|p| - 1] {
      var chain := seq(|p|, i requires 0 <= i < |p| => keys[p[i]]);
      forall i | 0 <= i < |p| - 1 ensures Depends(edges, chain[i], chain[i + 1]) {
        assert G.Edge(deps, p[i], p[i + 1]);
        assert IsDepsOf(edges, keys, keys[p[i]], deps[p[i]]);
      }
      assert IsChain(edges, chain);
    }
  }

  /** The queues' addresses as in a dictionary, their dependencies as arcs in some order, and
      the sort's order of them. */
  ghost predicate IsRanking(edges: Edges, queues: Queues, names: seq<Key>, deps: G.Graph, order: seq<nat>, sequence: seq<Key>) {
    && Distinct(names) && Alphabetical(names) && (forall k :: k in names <==> k in queues)
    && IsDeps(edges, names, deps) && TS.IsSortOrder(deps, order) && Named(names, order, sequence)
  }

  ghost predicate Named(names: seq<Key>, order: seq<nat>, sequence: seq<Key>) {
    |sequence| == |order| && forall i :: 0 <= i < |order| ==> order[i] < |names| && sequence[i] == names[order[i]]
  }

  ghost predicate IsRanked(edges: Edges, queues: Queues, sequence: seq<Key>) {
    exists names, deps, order :: IsRanking(edges, queues, names, deps, order, sequence)
  }

  /** `QueuesSort`: every queue exactly once, as the sort of the dependencies ranks them; when
      these have no cycle, each queue before those it depends on. */
  method QueuesSort(cq: QueueGraph) returns (sequence: seq<Key>)
    requires AllQueues(cq.edges, cq.queues) && cq.queues != map[] && |cq.queues| < TS.MAX_INT64
    ensures Distinct(sequence) && forall k :: k in sequence <==> k in cq.queues
    ensures AcyclicKeys(cq.edges) ==> Ordered(cq.edges, sequence)
    ensures IsRanked(cq.edges, cq.queues, sequence)
  {
    hide AllQueues, IsDeps, TS.FitsInt64, TS.NoSelfLoops, G.InRange, G.Acyclic, AcyclicKeys, Ordered, TS.Topological,
         Sorted, Alphabetical, TS.IsSortOrder, Depends, IsRanking;
    var list := Traverse(cq.queues.Keys);
    var sortedStrings := SortStrings(list);
    SameMultiset(list, sortedStrings);
    assert forall k :: k in sortedStrings <==> k in cq.queues;
    SomeKey(cq.queues, sortedStrings);
    var deps := Dependencies(cq.edges, cq.queues, sortedStrings);
    DepsAreProper(cq.edges, sortedStrings, deps);
    var al := new TS.AlGraph(deps);
    var order := al.AdvancedTopologicalSort();
    OrderLists(deps, order);
    sequence := Names(sortedStrings, order);
    RankingIs(cq.edges, cq.queues, sortedStrings, deps, order, sequence);
    if AcyclicKeys(cq.edges) {
      AcyclicDeps(cq.edges, sortedStrings, deps);
      OrderIsKept(cq.edges, cq.queues, sortedStrings, deps, order, sequence);
    }
  }

  lemma OrderLists(g: G.Graph, order: seq<nat>)
    requires TS.IsSortOrder(g, order)
    ensures Distinct(order) && forall v: nat :: v in order <==> v < |g|
  {
    hide TS.Stepwise, TS.InLine;
  }

  lemma RankingIs(edges: Edges, queues: Queues, names: seq<Key>, deps: G.Graph, order: seq<nat>, sequence: seq<Key>)
    requires Distinct(names) && Alphabetical(names) && forall k :: k in names <==> k in queues
    requires IsDeps(edges, names, deps) && TS.IsSortOrder(deps, order) && Named(names, order, sequence)
    ensures IsRanked(edges, queues, sequence)
  {
    hide TS.IsSortOrder, Alphabetical, IsDeps, Named;
    assert IsRanking(edges, queues, names, deps, order, sequence);
  }

  lemma SomeKey(queues: Queues, keys: seq<Key>)
    requires Distinct(keys) && queues != map[] && forall k :: k in keys <==> k in queues
    ensures keys != [] && |keys| == |queues|
  {
    assert exists k :: k in queues;
    DistinctSize(keys);
    assert Elements(keys) == queues.Keys;
  }

  method Names(keys: seq<Key>, order: seq<nat>) returns (sequence: seq<Key>)
    requires Distinct(keys) && Distinct(order) && forall v: nat :: v in order <==> v < |keys|
    ensures |sequence| == |order| && Distinct(sequence) && forall k :: k in sequence <==> k in keys
    ensures forall i :: 0 <= i < |order| ==> order[i] < |keys| && sequence[i] == keys[order[i]]
  {
    sequence := [];
    var i := 0;
    while i < |order|
      invariant 0 <= i <= |order| && |sequence| == i
      invariant forall j :: 0 <= j < i ==> order[j] < |keys| && sequence[j] == keys[order[j]]
    {
      assert order[i] in order;
      sequence := sequence + [keys[order[i]]];
      i := i + 1;
    }
    forall k | k in keys ensures k in sequence {
      var v: nat :| v < |keys| && keys[v] == k;
      assert v in order;
      var j :| 0 <= j < |order| && order[j] == v;
      assert sequence[j] == k;
    }
  }

  lemma OrderIsKept(edges: Edges, queues: Queues, keys: seq<Key>, deps: G.Graph, order: seq<nat>, sequence: seq<Key>)
    requires AllQueues(edges, queues) && IsDeps(edges, keys, deps) && TS.Topological(deps, order)
    requires |sequence| == |order| && (forall i :: 0 <= i < |order| ==> order[i] < |keys| && sequence[i] == keys[order[i]])
    requires forall k :: k in keys <==> k in queues
    ensures Ordered(edges, sequence)
  {
    hide AllQueues, Depends;
    forall i, a | 0 <= i < |sequence| && Depends(edges, a, sequence[i]) ensures a in sequence[..i] {
      WriterHasQueue(edges, queues, a, sequence[i]);
      assert a in keys;
      var u: nat :| u < |keys| && keys[u] == a;
      assert IsDepsOf(edges, keys, keys[u], deps[u]);
      assert G.Edge(deps, u, order[i]);
      var j :| 0 <= j < i && order[j] == u;
      assert sequence[..i][j] == a;
    }
  }

  lemma WriterHasQueue(edges: Edges, queues: Queues, a: Key, b: Key)
    requires AllQueues(edges, queues) && Depends(edges, a, b)
    ensures a in queues
  {
    var t :| HasNode(edges, RWNode(t, a, Write)) && HasNode(edges, RWNode(t, b, Read));
    assert RWNode(t, a, Write).key in queues;
  }

  // ----------------------------------------------------------------- filing

  /** The write nodes of a transaction, in their order. */
  function WritesOf(edge: seq<RWNode>): (w: seq<RWNode>)
    ensures forall n :: n in w <==> n in edge && n.kind == Write
  {
    if edge == [] then []
    else WritesOf(edge[..|edge| - 1]) + if edge[|edge| - 1].kind == Write then [edge[|edge| - 1]] else []
  }

  method CollectWrites(edge: seq<RWNode>) returns (wNodes: seq<RWNode>)
    ensures wNodes == WritesOf(edge)
  {
    wNodes := [];
    for i := 0 to |edge|
      invariant wNodes == WritesOf(edge[..i])
    {
      assert edge[..i + 1][..i] == edge[..i];
      if edge[i].kind == Write {
        wNodes := wNodes + [edge[i]];
      }
    }
    assert edge[..|edge|] == edge;
  }

  type CommitOrder = map<int, seq<seq<RWNode>>>

  /** The survivors of `ids` stand in `filed` exactly once, under their numbers, and
      `order` holds their write nodes in the same places. */
  ghost predicate Filing(edges: Edges, s: State, ids: seq<TxId>, order: CommitOrder, filed: map<int, seq<TxId>>) {
    && order.Keys == filed.Keys
    && (forall x :: x in filed ==> IsPile(edges, s, ids, x, order[x], filed[x]))
    && (forall t :: t in ids && Live(s, t) ==> Num(s, t) in filed && t in filed[Num(s, t)])
  }

  ghost predicate IsPile(edges: Edges, s: State, ids: seq<TxId>, x: int, writes: seq<seq<RWNode>>, pile: seq<TxId>) {
    && Distinct(pile) && |writes| == |pile|
    && (forall t :: t in pile ==> t in ids && t in edges && Live(s, t) && Num(s, t) == x)
    && (forall i :: 0 <= i < |pile| && pile[i] in edges ==> writes[i] == WritesOf(edges[pile[i]]))
  }

  /** Every survivor stands in `filed` exactly once, under its number, and `order`
      holds their write nodes in the same places. */
  ghost predicate IsCommitOrder(edges: Edges, s: State, order: CommitOrder, filed: map<int, seq<TxId>>) {
    exists ids :: Filing(edges, s, ids, order, filed) && forall t :: t in ids <==> t in edges
  }

  lemma FileOne(edges: Edges, s: State, ids: seq<TxId>, order: CommitOrder, filed: map<int, seq<TxId>>, t: TxId)
    requires Filing(edges, s, ids, order, filed) && t !in ids && t in edges && Live(s, t)
    ensures
      var x := Num(s, t);
      Filing(edges, s, ids + [t],
             order[x := (if x in order then order[x] else []) + [WritesOf(edges[t])]],
             filed[x := (if x in filed then filed[x] else []) + [t]])
  {
    hide WritesOf, Num, Live;
    var x := Num(s, t);
    var ids', order', filed' := ids + [t], order[x := (if x in order then order[x] else []) + [WritesOf(edges[t])]],
        filed[x := (if x in filed then filed[x] else []) + [t]];
    forall y | y in filed' ensures IsPile(edges, s, ids', y, order'[y], filed'[y]) {
      if y in filed {
        assert IsPile(edges, s, ids, y, order[y], filed[y]);
      }
    }
    forall u | u in ids' && Live(s, u) ensures Num(s, u) in filed' && u in filed'[Num(s, u)] {
      if u != t {
        assert u in filed[Num(s, u)];
      }
    }
  }

  lemma FileNone(edges: Edges, s: State, ids: seq<TxId>, order: CommitOrder, filed: map<int, seq<TxId>>, t: TxId)
    requires Filing(edges, s, ids, order, filed) && !Live(s, t)
    ensures Filing(edges, s, ids + [t], order, filed)
  {
    hide WritesOf, Num, Live;
    forall y | y in filed ensures IsPile(edges, s, ids + [t], y, order[y], filed[y]) {
      assert IsPile(edges, s, ids, y, order[y], filed[y]);
    }
  }

  ghost function FiledTxs(filed: map<int, seq<TxId>>): set<TxId> {
    set x, t | x in filed && t in filed[x] :: t
  }

  /** Filed survivors and aborted transactions make up the whole block. */
  lemma FiledPlusAborted(edges: Edges, s: State, order: CommitOrder, filed: map<int, seq<TxId>>)
    requires IsCommitOrder(edges, s, order, filed) && forall t :: t in s.aborted ==> t in edges
    ensures FiledTxs(filed) == edges.Keys - s.aborted && |FiledTxs(filed)| + |s.aborted| == |edges|
  {
    hide WritesOf, Num;
    var ids :| Filing(edges, s, ids, order, filed) && forall t :: t in ids <==> t in edges;
    forall t ensures t in FiledTxs(filed) <==> t in edges && t !in s.aborted {
      if t in FiledTxs(filed) {
        var x :| x in filed && t in filed[x];
        assert IsPile(edges, s, ids, x, order[x], filed[x]);
      }
    }
    assert FiledTxs(filed) == edges.Keys - s.aborted;
    assert s.aborted <= edges.Keys;
  }

  /** Files the survivors' writes by their numbers. */
  method File(cq: QueueGraph) returns (commitOrder: CommitOrder, ghost filed: map<int, seq<TxId>>)
    requires cq.Linked()
    ensures IsCommitOrder(cq.edges, cq.Now(), commitOrder, filed)
  {
    hide Filing;
    commitOrder, filed := map[], map[];
    ghost var s := cq.Now();
    var all := Traverse(cq.edges.Keys);
    ghost var ids := all;
    NothingFiled(cq.edges, s, ids);
    var i := 0;
    while i < |all|
      invariant 0 <= i <= |all| && Filing(cq.edges, s, ids[..i], commitOrder, filed)
    {
      var t := all[i];
      assert t in all && ids[..i + 1] == ids[..i] + [t] && t !in ids[..i];
      if t in cq.aborted {
        FileNone(cq.edges, s, ids[..i], commitOrder, filed, t);
      } else {
        var edge := cq.edges[t];
        assert edge[0] in edge;
        var number := cq.SequenceOf(edge[0]);
        var wNodes := CollectWrites(edge);
        FileOne(cq.edges, s, ids[..i], commitOrder, filed, t);
        commitOrder := commitOrder[number := (if number in commitOrder then commitOrder[number] else []) + [wNodes]];
        filed := filed[number := (if number in filed then filed[number] else []) + [t]];
        assert commitOrder.Keys == filed.Keys by { SameKeys(cq.edges, s, ids[..i + 1], commitOrder, filed); }
      }
      i := i + 1;
    }
    assert ids[..i] == ids;
  }

  lemma SameKeys(edges: Edges, s: State, ids: seq<TxId>, order: CommitOrder, filed: map<int, seq<TxId>>)
    requires Filing(edges, s, ids, order, filed)
    ensures order.Keys == filed.Keys
  {
  }

  lemma NothingFiled(edges: Edges, s: State, ids: seq<TxId>)
    ensures Filing(edges, s, ids[..0], map[], map[])
  {
  }

  /** `GetAbortedNums`: how many transactions are aborted. */
  method GetAbortedNums(cq: QueueGraph) returns (count: nat)
    requires cq.aborted <= cq.edges.Keys
    ensures count == |cq.aborted|
  {
    count := 0;
    var all := Traverse(cq.edges.Keys);
    ghost var seen: set<TxId> := {};
    var i := 0;
    while i < |all|
      invariant 0 <= i <= |all| && count == |seen|
      invariant forall t :: t in seen <==> t in all[..i] && t in cq.aborted
    {
      assert all[..i + 1] == all[..i] + [all[i]];
      if all[i] in cq.aborted {
        assert all[i] !in seen;
        count, seen := count + 1, seen + {all[i]};
      }
      i := i + 1;
    }
    assert all[..i] == all;
    assert seen == cq.aborted;
  }

  // ------------------------------------------------------------- whole runs

  /** One call: what the function says, with all that is proved of it. */
  ghost predicate Sorts(edges: Edges, keep: bool, k: Key, q: Queue, s: State, s': State) {
    && (exists m, mr, g :: QueueSorted(edges, keep, k, q, s, s', m, mr, g))
    && (exists maxRead, maxWrite :: SortsTo(edges, keep, q, s, Result(s', maxRead, maxWrite)))
    && Exactly(edges, keep, k, q, s, s')
  }

  ghost predicate Exactly(edges: Edges, keep: bool, k: Key, q: Queue, s: State, s': State) {
    exists m, maxRead, maxWrite :: SortedExactly(edges, keep, k, q, s, Result(s', maxRead, maxWrite), m)
  }

  /** The call aborts the transaction: its write is pinned among the reads, or another
      read-modify-write of the address survives in front of it. */
  ghost predicate AbortedBy(edges: Edges, keep: bool, k: Key, q: Queue, s: State, s': State, t: TxId) {
    exists m :: IsMaxRead(q, s, m) && (Pinned(edges, k, q, s, m, t) || (!keep && Live(s, t) && LaterRmw(k, q, s', t)))
  }

  /** The states between the queues of a run. */
  ghost predicate IsTrace(edges: Edges, keep: bool, queues: Queues, sequence: seq<Key>, trace: seq<State>) {
    && |trace| == |sequence| + 1
    && (forall i :: 0 <= i < |sequence| ==>
          sequence[i] in queues && Sorts(edges, keep, sequence[i], queues[sequence[i]], trace[i], trace[i + 1]))
  }

  ghost predicate AbortedBefore(edges: Edges, keep: bool, queues: Queues, sequence: seq<Key>, trace: seq<State>, j: nat, t: TxId)
    requires IsTrace(edges, keep, queues, sequence, trace) && j <= |sequence|
  {
    exists i :: 0 <= i < j && AbortedBy(edges, keep, sequence[i], queues[sequence[i]], trace[i], trace[i + 1], t)
  }

  /** A run has aborted exactly those that one of its calls had to abort. */
  lemma {:induction false} AbortedInRun(edges: Edges, keep: bool, queues: Queues, sequence: seq<Key>, trace: seq<State>, j: nat,
                                        t: TxId)
    requires IsTrace(edges, keep, queues, sequence, trace) && j <= |sequence| && Live(trace[0], t)
    ensures t in trace[j].aborted <==> AbortedBefore(edges, keep, queues, sequence, trace, j, t)
    decreases j
  {
    hide Sorts, AbortedBy;
    if j > 0 {
      AbortedInRun(edges, keep, queues, sequence, trace, j - 1, t);
      var k := sequence[j - 1];
      assert Sorts(edges, keep, k, queues[k], trace[j - 1], trace[j - 1 + 1]);
      AbortedOnce(edges, keep, k, queues[k], trace[j - 1], trace[j], t);
      assert AbortedBy(edges, keep, k, queues[k], trace[j - 1], trace[j - 1 + 1], t) ==>
          AbortedBefore(edges, keep, queues, sequence, trace, j, t);
    }
  }

  lemma AbortedOnce(edges: Edges, keep: bool, k: Key, q: Queue, s: State, s': State, t: TxId)
    requires Sorts(edges, keep, k, q, s, s')
    ensures t in s'.aborted <==> t in s.aborted || AbortedBy(edges, keep, k, q, s, s', t)
  {
    hide QueueSorted, SortsTo, Pinned, LaterRmw, IsMaxRead, RmwsExact, NewExact, OldsPlaced;
    var m, maxRead, maxWrite :| SortedExactly(edges, keep, k, q, s, Result(s', maxRead, maxWrite), m);
    if m' :| IsMaxRead(q, s, m') && (Pinned(edges, k, q, s, m', t) || (!keep && Live(s, t) && LaterRmw(k, q, s', t))) {
      MaxReadIsOne(q, s, m, m');
    }
  }

  /** On the way a survivor's reads are assigned exactly at the addresses sorted so far. */
  lemma {:induction false} AssignedIsSorted(edges: Edges, keep: bool, queues: Queues, sequence: seq<Key>, trace: seq<State>,
                                            j: nat, n: RWNode)
    requires IsTrace(edges, keep, queues, sequence, trace) && AllQueues(edges, queues) && Undecided(trace[0])
    requires j <= |sequence| && HasNode(edges, n) && n.kind == Read && Live(trace[j], n.tx)
    ensures n in trace[j].marked <==> n.key in sequence[..j]
    decreases j
  {
    hide Sorts, AllQueues, HasNode;
    if j > 0 {
      var k := sequence[j - 1];
      assert Sorts(edges, keep, k, queues[k], trace[j - 1], trace[j - 1 + 1]);
      AssignedOnce(edges, keep, queues, k, trace[j - 1], trace[j], n);
      AssignedIsSorted(edges, keep, queues, sequence, trace, j - 1, n);
      assert sequence[..j] == sequence[..j - 1] + [k];
    }
  }

  lemma AssignedOnce(edges: Edges, keep: bool, queues: Queues, k: Key, s: State, s': State, n: RWNode)
    requires AllQueues(edges, queues) && k in queues && Sorts(edges, keep, k, queues[k], s, s')
    requires HasNode(edges, n) && n.kind == Read && Live(s', n.tx)
    ensures Live(s, n.tx) && (n in s'.marked <==> n in s.marked || n.key == k)
  {
    hide QueueSorted, SortsTo, Pinned, LaterRmw, IsMaxRead, ReadsExact, RmwsExact, NewExact, OldsPlaced, WellFormed, HasNode;
    assert IsQueue(edges, k, queues[k]);
    var m, maxRead, maxWrite :| SortedExactly(edges, keep, k, queues[k], s, Result(s', maxRead, maxWrite), m);
  }

  ghost predicate ReadsSorted(edges: Edges, sorted: seq<Key>, t: TxId) {
    exists n :: HasNode(edges, n) && n.tx == t && n.kind == Read && n.key in sorted
  }

  /** A write is pinned in a run exactly if its transaction reads an address sorted before. */
  lemma PinnedInRun(edges: Edges, keep: bool, queues: Queues, sequence: seq<Key>, trace: seq<State>, i: nat, m: int, t: TxId)
    requires IsTrace(edges, keep, queues, sequence, trace) && AllQueues(edges, queues) && Undecided(trace[0])
    requires i < |sequence| && Distinct(sequence)
    ensures
      var k, q, s := sequence[i], queues[sequence[i]], trace[i];
      Pinned(edges, k, q, s, m, t) <==>
        Writes(k, q, t) && !Rmw(k, q, t) && Determined(s, t) && Num(s, t) <= m && ReadsSorted(edges, sequence[..i], t)
  {
    hide AllQueues, Rmw, Num, HasNode, Sorts;
    var k, s := sequence[i], trace[i];
    if Live(s, t) {
      forall n | HasNode(edges, n) && n.tx == t && n.kind == Read ensures n in s.marked <==> n.key in sequence[..i] {
        AssignedIsSorted(edges, keep, queues, sequence, trace, i, n);
      }
      assert k !in sequence[..i];
    }
  }

  /** A survivor's number never falls once it is set. */
  lemma {:induction false} NumbersNeverFall(edges: Edges, keep: bool, queues: Queues, sequence: seq<Key>, trace: seq<State>,
                                            i: nat, j: nat, t: TxId)
    requires IsTrace(edges, keep, queues, sequence, trace) && i <= j < |trace|
    requires Determined(trace[i], t) && Live(trace[j], t)
    ensures Determined(trace[j], t) && Num(trace[i], t) <= Num(trace[j], t)
    decreases j
  {
    hide Sorts, Num;
    if i < j {
      var k := sequence[j - 1];
      assert Sorts(edges, keep, k, queues[k], trace[j - 1], trace[j - 1 + 1]);
      OneStep(edges, keep, k, queues[k], trace[j - 1], trace[j], t);
      NumbersNeverFall(edges, keep, queues, sequence, trace, i, j - 1, t);
    }
  }

  lemma OneStep(edges: Edges, keep: bool, k: Key, q: Queue, s: State, s': State, t: TxId)
    requires Sorts(edges, keep, k, q, s, s') && Live(s', t)
    ensures Live(s, t) && (Determined(s, t) ==> Determined(s', t) && Num(s, t) <= Num(s', t))
  {
    hide Bands, OneRmw, Marking, NewReadersLow, Rmw, LaterRmw, ReadElsewhere, Numbered, Num, SortsTo, Exactly;
    var m, mr, g :| QueueSorted(edges, keep, k, q, s, s', m, mr, g);
    var r, w := RWNode(t, k, Read), RWNode(t, k, Write);
    assert r in q.rSlice || w in q.wSlice ==> Num(s', t) != 0;
  }

  ghost predicate SameNodes(queues: Queues, queues': Queues) {
    && queues.Keys == queues'.Keys
    && (forall k :: k in queues ==> queues[k].rSlice == queues'[k].rSlice && queues[k].wSlice == queues'[k].wSlice)
  }

  lemma BetweenStart(edges: Edges, queues: Queues, s: State)
    requires Undecided(s) && s.num.Keys == edges.Keys
    ensures Between(edges, queues, [], s) && SafeBetween(queues, [], s)
  {
  }

  /** From the same start the same sequence leads through the same states. */
  lemma {:induction false} TraceIsOne(edges: Edges, keep: bool, queues: Queues, sequence: seq<Key>, trace: seq<State>,
                                      trace': seq<State>, j: nat)
    requires IsTrace(edges, keep, queues, sequence, trace) && IsTrace(edges, keep, queues, sequence, trace')
    requires trace[0] == trace'[0] && j <= |sequence|
    ensures trace[j] == trace'[j]
    decreases j
  {
    hide Sorts;
    if j > 0 {
      TraceIsOne(edges, keep, queues, sequence, trace, trace', j - 1);
      var k := sequence[j - 1];
      assert Sorts(edges, keep, k, queues[k], trace[j - 1], trace[j - 1 + 1]);
      assert Sorts(edges, keep, k, queues[k], trace'[j - 1], trace'[j - 1 + 1]);
      SortsIsOne(edges, keep, k, queues[k], trace[j - 1], trace[j], trace'[j]);
    }
  }

  lemma SortsIsOne(edges: Edges, keep: bool, k: Key, q: Queue, s: State, s': State, s'': State)
    requires Sorts(edges, keep, k, q, s, s') && Sorts(edges, keep, k, q, s, s'')
    ensures s' == s''
  {
    hide QueueSorted, SortsTo, Exactly;
    var a, b :| SortsTo(edges, keep, q, s, Result(s', a, b));
    var c, d :| SortsTo(edges, keep, q, s, Result(s'', c, d));
    SortsToOne(edges, keep, q, s, Result(s', a, b), Result(s'', c, d));
  }

  lemma {:induction false} MoreWriteNodes(queues: Queues, sequence: seq<Key>, j: nat)
    requires j < |sequence| && sequence[j] in queues
    ensures WriteNodes(queues, sequence[..j]) + |queues[sequence[j]].wSlice| <= WriteNodes(queues, sequence)
    decreases |sequence|
  {
    var n := |sequence| - 1;
    if j < n {
      MoreWriteNodes(queues, sequence[..n], j);
      assert sequence[..n][..j] == sequence[..j];
    }
  }

  /** What holds after the first `j` queues of a run. */
  ghost predicate Run(edges: Edges, keep: bool, queues: Queues, sequence: seq<Key>, j: nat, s: State) {
    && j <= |sequence| && Between(edges, queues, sequence[..j], s)
    && (Ordered(edges, sequence) && !keep ==> SafeBetween(queues, sequence[..j], s))
    && (Ordered(edges, sequence) && keep ==> s.aborted == {})
    && (Ordered(edges, sequence) ==> AllLayered(queues, sequence[..j], s))
    && AllApart(edges, queues, sequence, j, s)
  }

  lemma RunNext(edges: Edges, keep: bool, queues: Queues, sequence: seq<Key>, j: nat, s: State, s': State, m: int, mr: int)
    requires AllQueues(edges, queues) && Distinct(sequence) && j < |sequence| && sequence[j] in queues
    requires Run(edges, keep, queues, sequence, j, s)
    requires QueueSorted(edges, keep, sequence[j], queues[sequence[j]], s, s', m, mr,
                         INITIAL_SEQUENCE + WriteNodes(queues, sequence[..j]) + |queues[sequence[j]].wSlice|)
    ensures Run(edges, keep, queues, sequence, j + 1, s')
  {
    hide Between, SafeBetween, QueueSorted, AllQueues, Ordered, AllApart, AllLayered, Distinct;
    var k := sequence[j];
    var g := INITIAL_SEQUENCE + WriteNodes(queues, sequence[..j]) + |queues[k].wSlice|;
    assert sequence[..j + 1] == sequence[..j] + [k];
    NotSortedYet(sequence, j);
    BetweenNext(edges, keep, queues, sequence[..j], k, s, s', m, mr);
    ApartNext(edges, keep, queues, sequence, j, s, s', m, mr, g);
    if Ordered(edges, sequence) {
      LayeredNext(edges, keep, queues, sequence, j, s, s', m, mr, g);
      if keep {
        forall t ensures t !in s'.aborted {
          if t in s'.aborted {
            OnlyDisplaced(edges, keep, queues, sequence, j, s, s', m, mr, g, t);
          }
        }
      } else {
        SafeNext(edges, queues, sequence, j, s, s', m, mr, g);
      }
    }
  }

  lemma NotSortedYet(sequence: seq<Key>, j: nat)
    requires Distinct(sequence) && j < |sequence|
    ensures sequence[j] !in sequence[..j]
  {
  }

  /** At the end of a run every transaction has its number. */
  lemma AllDecided(edges: Edges, keep: bool, queues: Queues, sequence: seq<Key>, s: State)
    requires AllQueues(edges, queues) && Run(edges, keep, queues, sequence, |sequence|, s)
    requires forall k :: k in sequence <==> k in queues
    ensures Decided(edges, keep, queues, sequence, s) && forall t :: t in s.aborted ==> t in edges
  {
    hide SafeBetween, Ordered, AllApart, AllLayered;
    assert sequence[..|sequence|] == sequence;
    forall t | t in edges ensures Num(s, t) != 0 {
      var n := edges[t][0];
      assert n in edges[t] && HasNode(edges, n);
      assert IsQueue(edges, n.key, queues[n.key]);
      assert n in queues[n.key].rSlice || n in queues[n.key].wSlice;
    }
  }

  /** `DeSS`: every queue of the sequence is sorted once; then the survivors are
      filed. */
  method DeSS(cq: QueueGraph, sequence: seq<Key>)
    returns (commitOrder: CommitOrder, ghost filed: map<int, seq<TxId>>, ghost trace: seq<State>)
    requires cq.Linked() && AllQueues(cq.edges, cq.queues) && FreshQueues(cq.queues) && Undecided(cq.Now())
    requires Distinct(sequence) && forall k :: k in sequence <==> k in cq.queues
    requires INITIAL_SEQUENCE + WriteNodes(cq.queues, sequence) < MAX_INT32
    modifies cq
    ensures cq.Linked() && Decided(cq.edges, cq.keepsRmw, old(cq.queues), sequence, cq.Now())
    ensures SameNodes(old(cq.queues), cq.queues)
    ensures IsTrace(cq.edges, cq.keepsRmw, old(cq.queues), sequence, trace)
    ensures trace[0] == old(cq.Now()) && trace[|sequence|] == cq.Now()
    ensures IsCommitOrder(cq.edges, cq.Now(), commitOrder, filed)
    ensures |FiledTxs(filed)| + |cq.aborted| == |cq.edges| && cq.aborted <= cq.edges.Keys
  {
    hide Run, AllQueues, IsCommitOrder, QueueSorted, Sorts, IsQueue, Numbered, Decided, SameNodes, Between, SafeBetween,
         Unsorted, Undecided, IsTrace, FreshQueues;
    ghost var queues0 := cq.queues;
    trace := [cq.Now()];
    RunStart(cq.edges, cq.keepsRmw, queues0, sequence, cq.Now());
    TraceStart(cq.edges, cq.keepsRmw, queues0, sequence, cq.Now());
    var j := 0;
    while j < |sequence|
      invariant 0 <= j <= |sequence| && cq.Linked() && SameNodes(queues0, cq.queues)
      invariant Unsorted(queues0, cq.queues, sequence, j)
      invariant Run(cq.edges, cq.keepsRmw, queues0, sequence, j, cq.Now())
      invariant IsTrace(cq.edges, cq.keepsRmw, queues0, sequence[..j], trace)
      invariant |trace| == j + 1 && trace[0] == old(cq.Now()) && trace[j] == cq.Now()
    {
      SortNext(cq, sequence, j, queues0);
      TraceNext(cq.edges, cq.keepsRmw, queues0, sequence, j, trace, cq.Now());
      trace := trace + [cq.Now()];
      j := j + 1;
    }
    assert sequence[..j] == sequence;
    AllDecided(cq.edges, cq.keepsRmw, queues0, sequence, cq.Now());
    commitOrder, filed := File(cq);
    FiledPlusAborted(cq.edges, cq.Now(), commitOrder, filed);
  }

  /** How a run ends: numbers set and bounded; on acyclic dependencies, safe reads
      and none aborted but displaced read-modify-writes, in the variant none at all,
      and the three layers of every address; writes that do not move again apart. */
  ghost predicate Decided(edges: Edges, keep: bool, queues: Queues, sequence: seq<Key>, s: State) {
    && (forall t :: t in edges ==> INITIAL_SEQUENCE <= Num(s, t) <= INITIAL_SEQUENCE + WriteNodes(queues, sequence))
    && (Ordered(edges, sequence) && !keep ==> SafeBetween(queues, sequence, s))
    && (Ordered(edges, sequence) && keep ==> s.aborted == {})
    && (Ordered(edges, sequence) ==> AllLayered(queues, sequence, s))
    && AllApart(edges, queues, sequence, |sequence|, s)
  }

  /** The queues from `j` on have not been sorted yet. */
  ghost predicate Unsorted(queues0: Queues, queues: Queues, sequence: seq<Key>, j: nat) {
    forall i :: j <= i < |sequence| ==>
                  && sequence[i] in queues0 && queues0[sequence[i]].maxRead == 0
                  && sequence[i] in queues && queues[sequence[i]] == queues0[sequence[i]]
  }

  lemma RunStart(edges: Edges, keep: bool, queues: Queues, sequence: seq<Key>, s: State)
    requires Undecided(s) && s.num.Keys == edges.Keys && FreshQueues(queues) && forall k :: k in sequence <==> k in queues
    ensures Run(edges, keep, queues, sequence, 0, s) && SameNodes(queues, queues) && Unsorted(queues, queues, sequence, 0)
  {
    assert sequence[..0] == [];
    BetweenStart(edges, queues, s);
  }

  lemma TraceStart(edges: Edges, keep: bool, queues: Queues, sequence: seq<Key>, s: State)
    ensures IsTrace(edges, keep, queues, sequence[..0], [s])
  {
  }

  lemma TraceNext(edges: Edges, keep: bool, queues: Queues, sequence: seq<Key>, j: nat, trace: seq<State>, s: State)
    requires j < |sequence| && IsTrace(edges, keep, queues, sequence[..j], trace) && sequence[j] in queues
    requires Sorts(edges, keep, sequence[j], queues[sequence[j]], trace[j], s)
    ensures IsTrace(edges, keep, queues, sequence[..j + 1], trace + [s])
  {
    hide Sorts;
  }

  method SortNext(cq: QueueGraph, sequence: seq<Key>, j: nat, ghost queues0: Queues)
    requires cq.Linked() && AllQueues(cq.edges, queues0) && SameNodes(queues0, cq.queues)
    requires Distinct(sequence) && j < |sequence| && sequence[j] in queues0
    requires Unsorted(queues0, cq.queues, sequence, j)
    requires Run(cq.edges, cq.keepsRmw, queues0, sequence, j, cq.Now())
    requires INITIAL_SEQUENCE + WriteNodes(queues0, sequence) < MAX_INT32
    modifies cq
    ensures cq.Linked() && SameNodes(queues0, cq.queues)
    ensures Unsorted(queues0, cq.queues, sequence, j + 1)
    ensures Run(cq.edges, cq.keepsRmw, queues0, sequence, j + 1, cq.Now())
    ensures Sorts(cq.edges, cq.keepsRmw, sequence[j], queues0[sequence[j]], old(cq.Now()), cq.Now())
  {
    hide Run, AllQueues, Undecided, QueueSorted, Sorts, SortsTo, SortedExactly, IsQueue, Numbered, WriteNodes;
    var k := sequence[j];
    ghost var s, g := cq.Now(), INITIAL_SEQUENCE + WriteNodes(queues0, sequence[..j]);
    assert cq.queues[k] == queues0[k];
    OneOfAll(cq.edges, queues0, k);
    RunIsNumbered(cq.edges, cq.keepsRmw, queues0, sequence, j, s);
    MoreWriteNodes(queues0, sequence, j);
    ghost var m := cq.SortInQueue(k, g);
    ghost var q := cq.queues[k];
    BothSort(cq.edges, cq.keepsRmw, k, queues0[k], s, cq.Now(), m, q.maxRead, q.maxWrite, g + |queues0[k].wSlice|);
    RunNext(cq.edges, cq.keepsRmw, queues0, sequence, j, s, cq.Now(), m, q.maxRead);
  }

  lemma OneOfAll(edges: Edges, queues: Queues, k: Key)
    requires AllQueues(edges, queues) && k in queues
    ensures IsQueue(edges, k, queues[k])
  {
    hide IsQueue, WellFormed;
  }

  lemma BothSort(edges: Edges, keep: bool, k: Key, q: Queue, s: State, s': State, m: int, maxRead: int, maxWrite: int, g: int)
    requires QueueSorted(edges, keep, k, q, s, s', m, maxRead, g)
    requires SortsTo(edges, keep, q, s, Result(s', maxRead, maxWrite))
    requires SortedExactly(edges, keep, k, q, s, Result(s', maxRead, maxWrite), m)
    ensures Sorts(edges, keep, k, q, s, s')
  {
    hide QueueSorted, SortsTo, SortedExactly;
  }

  lemma RunIsNumbered(edges: Edges, keep: bool, queues: Queues, sequence: seq<Key>, j: nat, s: State)
    requires Run(edges, keep, queues, sequence, j, s)
    ensures Numbered(edges, s, INITIAL_SEQUENCE + WriteNodes(queues, sequence[..j]))
  {
    hide Numbered, SafeBetween, Ordered, AllApart, AllLayered;
  }

  // ------------------------------------------------------ a block end to end

  function NodeCount(rwNodes: seq<seq<RWNode>>): nat {
    if rwNodes == [] then 0 else NodeCount(rwNodes[..|rwNodes| - 1]) + |rwNodes[|rwNodes| - 1]|
  }

  ghost function AllNodesOf(edges: Edges): set<RWNode> {
    set t, n | t in edges && n in edges[t] :: n
  }

  ghost function AllWritesOf(edges: Edges): set<RWNode> {
    set t, n | t in edges && n in edges[t] && n.kind == Write :: n
  }

  lemma {:induction false} NodesCounted(rwNodes: seq<seq<RWNode>>, nodes: set<RWNode>)
    requires forall n :: n in nodes ==> InBlock(rwNodes, n)
    ensures |nodes| <= NodeCount(rwNodes)
  {
    if rwNodes == [] {
      assert nodes == {};
    } else {
      var m := |rwNodes| - 1;
      var last := Elements(rwNodes[m]);
      var rest := nodes - last;
      forall n | n in rest ensures InBlock(rwNodes[..m], n) {
        var i :| 0 <= i < |rwNodes| && n in rwNodes[i];
        assert rwNodes[..m][i] == rwNodes[i];
      }
      NodesCounted(rwNodes[..m], rest);
      Fits(rwNodes[m], last * nodes);
      assert nodes == rest + last * nodes;
    }
  }

  /** The queues' write nodes are distinct write nodes of the block. */
  lemma {:induction false} WritesCounted(edges: Edges, queues: Queues, sequence: seq<Key>, nodes: set<RWNode>)
    requires AllQueues(edges, queues) && Distinct(sequence)
    requires forall k, n :: k in sequence && k in queues && n in queues[k].wSlice ==> n in nodes
    ensures WriteNodes(queues, sequence) <= |nodes|
  {
    if sequence != [] {
      var m := |sequence| - 1;
      var k := sequence[m];
      var mine := if k in queues then Elements(queues[k].wSlice) else {};
      if k in queues {
        assert IsQueue(edges, k, queues[k]);
        DistinctSize(queues[k].wSlice);
      }
      assert mine <= nodes by {
        assert k in sequence;
      }
      forall k', n | k' in sequence[..m] && k' in queues && n in queues[k'].wSlice ensures n in nodes - mine {
        assert IsQueue(edges, k', queues[k']);
      }
      WritesCounted(edges, queues, sequence[..m], nodes - mine);
      SubsetSize(mine, nodes);
    }
  }

  lemma {:induction false} QueuesCounted(keys: set<Key>, nodes: set<RWNode>)
    requires forall k :: k in keys ==> exists n :: n in nodes && n.key == k
    ensures |keys| <= |nodes|
    decreases keys
  {
    if keys != {} {
      var k0 :| k0 in keys;
      var n :| n in nodes && n.key == k0;
      forall k | k in keys - {k0} ensures exists n' :: n' in nodes - {n} && n'.key == k {
        var n' :| n' in nodes && n'.key == k;
        assert n' in nodes - {n};
      }
      QueuesCounted(keys - {k0}, nodes - {n});
    }
  }

  lemma BlockFits(edges: Edges, queues: Queues, rwNodes: seq<seq<RWNode>>)
    requires AllQueues(edges, queues) && (forall n :: HasNode(edges, n) <==> InBlock(rwNodes, n))
    requires forall k :: k in queues ==> queues[k].rSlice + queues[k].wSlice != []
    ensures |queues| <= NodeCount(rwNodes)
  {
    hide IsQueue;
    var nodes := AllNodesOf(edges);
    forall n | n in nodes ensures InBlock(rwNodes, n) {
      assert HasNode(edges, n);
    }
    NodesCounted(rwNodes, nodes);
    forall k | k in queues.Keys ensures exists n :: n in nodes && n.key == k {
      FirstNode(edges, queues, k);
    }
    QueuesCounted(queues.Keys, nodes);
  }

  lemma FirstNode(edges: Edges, queues: Queues, k: Key)
    requires AllQueues(edges, queues) && k in queues && queues[k].rSlice + queues[k].wSlice != []
    ensures exists n :: n in AllNodesOf(edges) && n.key == k
  {
    var q := queues[k];
    assert IsQueue(edges, k, q);
    var n := (q.rSlice + q.wSlice)[0];
    assert n in q.rSlice || n in q.wSlice;
    assert HasNode(edges, n);
    assert n in AllNodesOf(edges);
  }

  lemma WritesFit(edges: Edges, queues: Queues, rwNodes: seq<seq<RWNode>>, sequence: seq<Key>)
    requires AllQueues(edges, queues) && (forall n :: HasNode(edges, n) <==> InBlock(rwNodes, n)) && Distinct(sequence)
    ensures WriteNodes(queues, sequence) <= |AllWritesOf(edges)| <= NodeCount(rwNodes)
  {
    var nodes := AllWritesOf(edges);
    forall n | n in nodes ensures InBlock(rwNodes, n) {
      assert HasNode(edges, n);
    }
    NodesCounted(rwNodes, nodes);
    forall k, n | k in sequence && k in queues && n in queues[k].wSlice ensures n in nodes {
      assert IsQueue(edges, k, queues[k]);
      assert HasNode(edges, n);
    }
    WritesCounted(edges, queues, sequence, nodes);
  }

  /** Every surviving read lies below every surviving write of the same address by
      another transaction. */
  ghost predicate SafeReads(edges: Edges, sequence: map<RWNode, int>, aborted: set<TxId>) {
    forall r, w :: HasNode(edges, r) && HasNode(edges, w) && r.kind == Read && w.kind == Write && r.key == w.key &&
                   r.tx != w.tx && r.tx !in aborted && w.tx !in aborted ==>
                     r in sequence && w in sequence && sequence[r] < sequence[w]
  }

  ghost predicate BothAt(edges: Edges, t: TxId, k: Key) {
    HasNode(edges, RWNode(t, k, Read)) && HasNode(edges, RWNode(t, k, Write))
  }

  /** Per node: surviving pure readers of an address lie below its surviving
      read-modify-writers, those below its surviving blind writers, and the
      read-modify-writers have different numbers. */
  ghost predicate LayeredNodes(edges: Edges, sequence: map<RWNode, int>, aborted: set<TxId>) {
    && (forall r, w :: HasNode(edges, r) && HasNode(edges, w) && r.kind == Read && w.kind == Write && r.key == w.key &&
                       r.tx !in aborted && w.tx !in aborted && !(BothAt(edges, r.tx, r.key) && BothAt(edges, w.tx, r.key)) ==>
                         r in sequence && w in sequence && sequence[r] < sequence[w])
    && (forall w, w' :: HasNode(edges, w) && HasNode(edges, w') && w.kind == w'.kind == Write && w.key == w'.key &&
                        w.tx != w'.tx && w.tx !in aborted && w'.tx !in aborted &&
                        BothAt(edges, w.tx, w.key) && BothAt(edges, w'.tx, w.key) ==>
                          w in sequence && w' in sequence && sequence[w] != sequence[w'])
  }

  /** Two transactions whose last written address, in the order of sorting, is the same. */
  ghost predicate LastTogether(edges: Edges, order: seq<Key>, t: TxId, u: TxId) {
    exists i :: && 0 <= i < |order| && WritesNoLater(edges, order, i, t) && WritesNoLater(edges, order, i, u)
                && HasNode(edges, RWNode(t, order[i], Write)) && HasNode(edges, RWNode(u, order[i], Write))
  }

  /** Per node: at every address they share, surviving writes of transactions whose
      last written address is the same have different numbers. */
  ghost predicate ApartNodes(edges: Edges, order: seq<Key>, sequence: map<RWNode, int>, aborted: set<TxId>) {
    forall w, w' :: HasNode(edges, w) && HasNode(edges, w') && w.kind == w'.kind == Write && w.key == w'.key &&
                    w.tx != w'.tx && w.tx !in aborted && w'.tx !in aborted && LastTogether(edges, order, w.tx, w'.tx) ==>
                      w in sequence && w' in sequence && sequence[w] != sequence[w']
  }

  ghost predicate Links(edges: Edges, s: State, sequence: map<RWNode, int>) {
    forall n :: HasNode(edges, n) ==> n in sequence && sequence[n] == Num(s, n.tx)
  }

  lemma ApartWriters(edges: Edges, k: Key, q: Queue, order: seq<Key>, i: nat, s: State, t: TxId, u: TxId)
    requires IsQueue(edges, k, q) && ApartAt(edges, q, order, i, s) && t != u && Live(s, t) && Live(s, u)
    requires WritesNoLater(edges, order, i, t) && WritesNoLater(edges, order, i, u)
    requires HasNode(edges, RWNode(t, k, Write)) && HasNode(edges, RWNode(u, k, Write))
    ensures Num(s, t) != Num(s, u)
  {
    hide WritesNoLater, HasNode, Num;
    assert RWNode(t, k, Write) in q.wSlice && RWNode(u, k, Write) in q.wSlice;
  }

  lemma TogetherIsApart(edges: Edges, queues: Queues, order: seq<Key>, s: State, t: TxId, u: TxId)
    requires AllQueues(edges, queues) && AllApart(edges, queues, order, |order|, s)
    requires t != u && Live(s, t) && Live(s, u) && LastTogether(edges, order, t, u)
    ensures Num(s, t) != Num(s, u)
  {
    hide WritesNoLater, HasNode, Num, ApartAt, IsQueue, WellFormed, Live;
    var i :| && 0 <= i < |order| && WritesNoLater(edges, order, i, t) && WritesNoLater(edges, order, i, u)
             && HasNode(edges, RWNode(t, order[i], Write)) && HasNode(edges, RWNode(u, order[i], Write));
    ApartWriters(edges, order[i], queues[order[i]], order, i, s, t, u);
  }

  lemma ApartMeansApartNodes(edges: Edges, queues: Queues, order: seq<Key>, s: State, sequence: map<RWNode, int>)
    requires AllQueues(edges, queues) && AllApart(edges, queues, order, |order|, s) && Links(edges, s, sequence)
    ensures ApartNodes(edges, order, sequence, s.aborted)
  {
    hide AllQueues, AllApart, LastTogether, HasNode, Num;
    forall w, w' | HasNode(edges, w) && HasNode(edges, w') && w.kind == w'.kind == Write && w.key == w'.key &&
                   w.tx != w'.tx && w.tx !in s.aborted && w'.tx !in s.aborted && LastTogether(edges, order, w.tx, w'.tx)
      ensures sequence[w] != sequence[w']
    {
      TogetherIsApart(edges, queues, order, s, w.tx, w'.tx);
    }
  }

  lemma LayeredMeansLayeredNodes(edges: Edges, queues: Queues, order: seq<Key>, s: State, sequence: map<RWNode, int>)
    requires AllQueues(edges, queues) && AllLayered(queues, order, s) && (forall k :: k in order <==> k in queues)
    requires Links(edges, s, sequence)
    ensures LayeredNodes(edges, sequence, s.aborted)
  {
    hide WellFormed, Layered, IsQueue, BothAt, HasNode, Num;
    forall r, w | HasNode(edges, r) && HasNode(edges, w) && r.kind == Read && w.kind == Write && r.key == w.key &&
                  r.tx !in s.aborted && w.tx !in s.aborted && !(BothAt(edges, r.tx, r.key) && BothAt(edges, w.tx, r.key))
      ensures sequence[r] < sequence[w]
    {
      ReadBelowWrite(edges, r.key, queues[r.key], s, r, w);
    }
    forall w, w' | HasNode(edges, w) && HasNode(edges, w') && w.kind == w'.kind == Write && w.key == w'.key &&
                   w.tx != w'.tx && w.tx !in s.aborted && w'.tx !in s.aborted &&
                   BothAt(edges, w.tx, w.key) && BothAt(edges, w'.tx, w.key)
      ensures sequence[w] != sequence[w']
    {
      RmwsDiffer(edges, w.key, queues[w.key], s, w, w');
    }
  }

  lemma RmwIsBoth(edges: Edges, k: Key, q: Queue, t: TxId)
    requires IsQueue(edges, k, q)
    ensures Rmw(k, q, t) <==> BothAt(edges, t, k)
  {
  }

  lemma ReadBelowWrite(edges: Edges, k: Key, q: Queue, s: State, r: RWNode, w: RWNode)
    requires IsQueue(edges, k, q) && Layered(k, q, s) && HasNode(edges, r) && HasNode(edges, w)
    requires r.kind == Read && w.kind == Write && r.key == w.key == k && Live(s, r.tx) && Live(s, w.tx)
    requires !(BothAt(edges, r.tx, k) && BothAt(edges, w.tx, k))
    ensures Num(s, r.tx) < Num(s, w.tx)
  {
    hide BothAt;
    RmwIsBoth(edges, k, q, r.tx);
    RmwIsBoth(edges, k, q, w.tx);
    assert r in q.rSlice && w in q.wSlice;
  }

  lemma RmwsDiffer(edges: Edges, k: Key, q: Queue, s: State, w: RWNode, w': RWNode)
    requires IsQueue(edges, k, q) && Layered(k, q, s) && w.tx != w'.tx && Live(s, w.tx) && Live(s, w'.tx)
    requires BothAt(edges, w.tx, k) && BothAt(edges, w'.tx, k)
    ensures Num(s, w.tx) != Num(s, w'.tx)
  {
    hide BothAt;
    RmwIsBoth(edges, k, q, w.tx);
    RmwIsBoth(edges, k, q, w'.tx);
  }

  lemma SafeMeansSafeReads(edges: Edges, queues: Queues, order: seq<Key>, s: State, sequence: map<RWNode, int>)
    requires AllQueues(edges, queues) && SafeBetween(queues, order, s) && (forall k :: k in order <==> k in queues)
    requires Links(edges, s, sequence)
    ensures SafeReads(edges, sequence, s.aborted)
  {
    hide Displaced, WellFormed;
    forall r, w | HasNode(edges, r) && HasNode(edges, w) && r.kind == Read && w.kind == Write && r.key == w.key &&
                  r.tx != w.tx && r.tx !in s.aborted && w.tx !in s.aborted
      ensures sequence[r] < sequence[w]
    {
      var q := queues[r.key];
      assert IsQueue(edges, r.key, q);
      assert r in q.rSlice && w in q.wSlice;
      assert ReadsBelowWrites(q, s);
    }
  }

  lemma StillDisplaced(queues: Queues, queues': Queues, t: TxId)
    requires SameNodes(queues, queues') && Displaced(queues, t)
    ensures Displaced(queues', t)
  {
    hide Precedes;
    var k, t' :| k in queues && BehindAnother(k, queues[k], t, t');
    assert BehindAnother(k, queues'[k], t, t');
  }

  lemma StillInBlockOrder(rwNodes: seq<seq<RWNode>>, queues: Queues, queues': Queues)
    requires SameNodes(queues, queues') && InBlockOrder(rwNodes, queues)
    ensures InBlockOrder(rwNodes, queues')
  {
    hide ByFirst, Flatten;
  }

  /** A block end to end: created, ranked, sorted, filed, counted. */
  method ProcessTransactions(rwNodes: seq<seq<RWNode>>, keepsRmw: bool)
    returns (cq: QueueGraph, order: seq<Key>, commitOrder: CommitOrder, abortedNum: nat, ghost filed: map<int, seq<TxId>>,
             ghost queues: Queues, ghost trace: seq<State>)
    requires IsBlock(rwNodes) && (exists n :: InBlock(rwNodes, n)) && INITIAL_SEQUENCE + NodeCount(rwNodes) < MAX_INT32
    requires keepsRmw ==> [] !in rwNodes
    ensures cq.Linked() && (forall n :: HasNode(cq.edges, n) <==> InBlock(rwNodes, n)) && InBlockOrder(rwNodes, cq.queues)
    ensures forall t :: t in cq.edges ==> INITIAL_SEQUENCE <= Num(cq.Now(), t) <= INITIAL_SEQUENCE + |AllWritesOf(cq.edges)|
    ensures IsCommitOrder(cq.edges, cq.Now(), commitOrder, filed) && |FiledTxs(filed)| + abortedNum == |cq.edges|
    ensures ApartNodes(cq.edges, order, cq.sequence, cq.aborted)
    ensures AcyclicKeys(cq.edges) ==> Ordered(cq.edges, order) && LayeredNodes(cq.edges, cq.sequence, cq.aborted)
    ensures AcyclicKeys(cq.edges) && !keepsRmw ==> SafeReads(cq.edges, cq.sequence, cq.aborted)
    ensures AcyclicKeys(cq.edges) && !keepsRmw ==> forall t :: t in cq.aborted ==> Displaced(cq.queues, t)
    ensures AcyclicKeys(cq.edges) && keepsRmw ==> abortedNum == 0
    ensures AllQueues(cq.edges, queues) && SameNodes(queues, cq.queues) && IsRanked(cq.edges, queues, order)
    ensures IsTrace(cq.edges, keepsRmw, queues, order, trace) && Undecided(trace[0]) && trace[|order|] == cq.Now()
    ensures forall t :: t in cq.aborted <==> AbortedBefore(cq.edges, keepsRmw, queues, order, trace, |order|, t)
  {
    hide IsRanked, Undecided, AbortedBefore, IsBlock, AllQueues, IsCommitOrder, AcyclicKeys, Ordered, SafeReads, IsTrace, NodeCount, InBlock, InBlockOrder,
         FiledTxs, WriteNodes, AllWritesOf, ApartNodes, AllApart, AllLayered, LayeredNodes, Displaced, SameNodes;
    cq := CreateGraph(rwNodes, keepsRmw);
    queues := cq.queues;
    SomeQueue(cq.edges, queues, rwNodes);
    BlockFits(cq.edges, queues, rwNodes);
    order := QueuesSort(cq);
    WritesFit(cq.edges, queues, rwNodes, order);
    commitOrder, filed, trace := DeSS(cq, order);
    AllAbortedInRun(cq.edges, keepsRmw, queues, order, trace);
    StillInBlockOrder(rwNodes, queues, cq.queues);
    abortedNum := GetAbortedNums(cq);
    ApartMeansApartNodes(cq.edges, queues, order, cq.Now(), cq.sequence);
    if AcyclicKeys(cq.edges) {
      LayeredMeansLayeredNodes(cq.edges, queues, order, cq.Now(), cq.sequence);
      if !keepsRmw {
        SafeMeansSafeReads(cq.edges, queues, order, cq.Now(), cq.sequence);
        forall t | t in cq.aborted ensures Displaced(cq.queues, t) {
          StillDisplaced(queues, cq.queues, t);
        }
      }
    }
  }

  lemma AllAbortedInRun(edges: Edges, keep: bool, queues: Queues, sequence: seq<Key>, trace: seq<State>)
    requires IsTrace(edges, keep, queues, sequence, trace) && Undecided(trace[0])
    ensures forall t :: t in trace[|sequence|].aborted <==> AbortedBefore(edges, keep, queues, sequence, trace, |sequence|, t)
  {
    hide AbortedBefore;
    forall t ensures t in trace[|sequence|].aborted <==> AbortedBefore(edges, keep, queues, sequence, trace, |sequence|, t) {
      AbortedInRun(edges, keep, queues, sequence, trace, |sequence|, t);
    }
  }

  lemma SomeQueue(edges: Edges, queues: Queues, rwNodes: seq<seq<RWNode>>)
    requires AllQueues(edges, queues) && (forall n :: HasNode(edges, n) <==> InBlock(rwNodes, n))
    requires exists n :: InBlock(rwNodes, n)
    ensures queues != map[]
  {
    var n :| InBlock(rwNodes, n);
    assert n.key in queues;
  }
}

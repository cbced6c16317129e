/**
 Writers of several addresses: a block in which two surviving writers of one address
 end with the same number.  Its dependencies leave one order of the addresses, and
 sorting the second moves a writer onto the number that another writer got when the
 first was sorted.
 */
module WriteCollision {
  import opened Sequences
  import opened Deltas
  import opened Footprint
  import opened AddressQueues
  import opened SortFunction
  import opened QueueSorting
  import opened Nezha
  import opened SnapshotCommit
  import opened LevelCommit
  import opened LevelExact

  const FIRST_A := RWNode("t1", "a", Write)
  const FIRST_B := RWNode("t1", "b", Write)
  const LINK_A := RWNode("c", "a", Write)
  const LINK_B := RWNode("c", "b", Read)
  const SECOND_A := RWNode("t2", "a", Write)

  /** One transaction writes both addresses, one writes the first and reads the second,
      one writes the first. */
  const BLOCK: seq<seq<RWNode>> := [[FIRST_A, FIRST_B], [LINK_A, LINK_B], [SECOND_A]]
  const FLAT: seq<RWNode> := [FIRST_A, FIRST_B, LINK_A, LINK_B, SECOND_A]
  const ORDER: seq<Key> := ["a", "b"]

  ghost predicate IsExample(edges: Edges, queues: Queues, s: State) {
    && (forall n :: HasNode(edges, n) <==> n in FLAT)
    && "a" in queues && queues["a"].rSlice == [] && queues["a"].wSlice == [FIRST_A, LINK_A, SECOND_A]
    && "b" in queues && queues["b"].rSlice == [LINK_B] && queues["b"].wSlice == [FIRST_B]
    && Undecided(s)
  }

  // --------------------------------------------------------- the first address

  function AfterA(s: State): State {
    Put(Put(Put(s, FIRST_A, 10), LINK_A, 11), SECOND_A, 12)
  }

  lemma SortsA(edges: Edges, keep: bool, queues: Queues, s: State, r: Result)
    requires IsExample(edges, queues, s) && SortsTo(edges, keep, queues["a"], s, r)
    ensures r == Result(AfterA(s), 0, 12)
  {
    var q := queues["a"];
    ReadsOfA(q, s);
    ClassesOfA(edges, q, s);
    NewOfA(q, s);
    hide ReadPhase, ClassifyPhase, NewPhase, AfterA;
    assert KeysOf(edges, q, s) == {};
    var keys :| Ascending(keys, {}) && r == SortedWith(edges, keep, q, s, keys);
    NoKeys(keys);
  }

  lemma NoKeys(keys: seq<int>)
    requires Ascending(keys, {})
    ensures keys == []
  {
    if keys != [] {
      HasElement(keys);
    }
  }

  lemma ReadsOfA(q: Queue, s: State)
    requires q.rSlice == []
    ensures ReadPhase(q, s) == Mark(s, 0)
  {
  }

  lemma {:induction false} ClassesOfA(edges: Edges, q: Queue, s: State)
    requires q.wSlice == [FIRST_A, LINK_A, SECOND_A] && Undecided(s)
    ensures ClassifyPhase(edges, q.wSlice, s, 0) == Classes(s, [], map[])
  {
    NothingClassified(edges, q.wSlice, s);
  }

  lemma {:induction false} NothingClassified(edges: Edges, ws: seq<RWNode>, s: State)
    requires Undecided(s)
    ensures ClassifyPhase(edges, ws, s, 0) == Classes(s, [], map[])
  {
    if ws != [] {
      NothingClassified(edges, ws[..|ws| - 1], s);
    }
  }

  /** A write without a number takes the next one. */
  lemma NewNext(ws: seq<RWNode>, s: State, top: int, i: nat, s': State, top': int)
    requires i < |ws| && NewPhase({}, ws[..i], s, top) == Mark(s', top') && Num(s', ws[i].tx) == 0
    ensures NewPhase({}, ws[..i + 1], s, top) == Mark(Put(s', ws[i], top' + 1), top' + 1)
  {
    assert ws[..i + 1][..i] == ws[..i];
  }

  lemma NewOfA(q: Queue, s: State)
    requires q.wSlice == [FIRST_A, LINK_A, SECOND_A] && Undecided(s)
    ensures NewPhase({}, q.wSlice, s, 9) == Mark(AfterA(s), 12)
  {
    hide NewPhase;
    var ws := q.wSlice;
    NumbersOf(s);
    NewStart(ws, s);
    NewNext(ws, s, 9, 0, s, 9);
    var s1 := Put(s, FIRST_A, 10);
    NewNext(ws, s, 9, 1, s1, 10);
    NewNext(ws, s, 9, 2, Put(s1, LINK_A, 11), 11);
    assert ws[..3] == ws;
  }

  lemma NewStart(ws: seq<RWNode>, s: State)
    ensures NewPhase({}, ws[..0], s, 9) == Mark(s, 9)
  {
  }

  lemma NumbersOf(s: State)
    requires Undecided(s)
    ensures Num(s, "t1") == 0 && Num(Put(s, FIRST_A, 10), "c") == 0 && Num(Put(Put(s, FIRST_A, 10), LINK_A, 11), "t2") == 0
    ensures Num(AfterA(s), "t1") == 10 && Num(AfterA(s), "c") == 11 && Num(AfterA(s), "t2") == 12
    ensures AfterA(s).aborted == {} && AfterA(s).marked == s.marked + {FIRST_A, LINK_A, SECOND_A}
  {
    Names();
    assert Num(s, "t1") == 0 && Num(s, "c") == 0 && Num(s, "t2") == 0;
  }

  // -------------------------------------------------------- the second address

  /** The read of the second address is flagged, and keeps the number 11. */
  function ReadB(s: State): State {
    AfterA(s).(marked := AfterA(s).marked + {LINK_B})
  }

  function AfterB(s: State): State {
    Put(ReadB(s), FIRST_B, 12)
  }

  lemma SortsB(edges: Edges, keep: bool, queues: Queues, s: State, r: Result)
    requires IsExample(edges, queues, s) && SortsTo(edges, keep, queues["b"], AfterA(s), r)
    ensures r == Result(AfterB(s), 11, 12)
  {
    var q, s1, s2 := queues["b"], AfterA(s), ReadB(s);
    NumbersOf(s);
    NotMarked(s);
    ReadsOfB(q, s1);
    ClassesOfB(edges, q, s2);
    NewOfB(q, s2);
    var others := map[10 := [FIRST_B]];
    hide ReadPhase, ClassifyPhase, NewPhase, Num, AfterA;
    assert others.Keys == {10};
    assert KeysOf(edges, q, s1) == {10};
    var keys :| Ascending(keys, {10}) && r == SortedWith(edges, keep, q, s1, keys);
    OneKey(keys);
    MoveOfB(others, s2);
    assert Top([10], 11) == 11;
  }

  lemma NotMarked(s: State)
    requires Undecided(s)
    ensures forall n :: n in ReadB(s).marked ==> n.tx != "t1" || n.kind == Write
  {
    NumbersOf(s);
    Names();
  }

  lemma OneKey(keys: seq<int>)
    requires Ascending(keys, {10})
    ensures keys == [10]
  {
    var one := [10];
    assert Elements(one) == {10};
    AscendingIsOne(keys, one, {10});
  }

  lemma ReadsOfB(q: Queue, s1: State)
    requires q.rSlice == [LINK_B] && Num(s1, "c") == 11 && s1.aborted == {}
    ensures ReadPhase(q, s1) == Mark(s1.(marked := s1.marked + {LINK_B}), 11)
  {
    var rs := [LINK_B];
    assert rs[..0] == [];
    assert DeterminedOf(s1, rs[..0]) == [];
    assert DeterminedOf(s1, rs) == rs;
    assert Elements(rs) == {LINK_B};
    assert Greatest(s1, rs[..0]) == 0 && Greatest(s1, rs) == 11;
    var flagged := s1.(marked := s1.marked + {LINK_B});
    assert ReadsAt(rs[..0], flagged, Least(s1, rs), false) == flagged;
    assert ReadsAt(rs, flagged, Least(s1, rs), false) == flagged;
  }

  lemma ClassesOfB(edges: Edges, q: Queue, s2: State)
    requires q.wSlice == [FIRST_B] && Num(s2, "t1") == 10 && s2.aborted == {}
    requires forall n :: n in s2.marked ==> n.tx != "t1" || n.kind == Write
    ensures ClassifyPhase(edges, q.wSlice, s2, 11) == Classes(s2, [], map[10 := [FIRST_B]])
  {
    assert [FIRST_B][..0] == [];
    assert ClassifyPhase(edges, [], s2, 11) == Classes(s2, [], map[]);
    assert ClassifyPhase(edges, [FIRST_B], s2, 11) == ClassifyStep(edges, Classes(s2, [], map[]), FIRST_B, 11);
    assert !ReadHere(edges, s2, FIRST_B) && !ReadThere(edges, s2, FIRST_B);
    assert [] + [FIRST_B] == [FIRST_B];
    assert Filed(map[], 10, FIRST_B) == map[10 := [FIRST_B]];
  }

  lemma NewOfB(q: Queue, s2: State)
    requires q.wSlice == [FIRST_B] && Num(s2, "t1") == 10
    ensures NewPhase({10}, q.wSlice, s2, 11) == Mark(s2, 11)
  {
    assert [FIRST_B][..0] == [];
    assert NewPhase({10}, [], s2, 11) == Mark(s2, 11);
  }

  lemma MoveOfB(others: map<int, seq<RWNode>>, s2: State)
    requires others == map[10 := [FIRST_B]]
    ensures MovePhase([10], others, 11, s2, 11) == Mark(Put(s2, FIRST_B, 12), 12)
  {
    assert [10][..0] == [] && [FIRST_B][..0] == [];
    assert MovePhase([10][..0], others, 11, s2, 11) == Mark(s2, 11);
    assert MoveBucketOf([FIRST_B][..0], false, s2, 11) == Mark(s2, 11);
  }

  /** Sorted in the order a, b, two writers of a end at 12, and nobody is aborted. */
  lemma Collide(edges: Edges, keep: bool, queues: Queues, trace: seq<State>)
    requires IsTrace(edges, keep, queues, ORDER, trace) && IsExample(edges, queues, trace[0])
    ensures Num(trace[2], "t1") == Num(trace[2], "t2") == 12 && Num(trace[2], "c") == 11 && trace[2].aborted == {}
  {
    hide QueueSorted, SortsTo, Exactly;
    var s := trace[0];
    assert Sorts(edges, keep, ORDER[0], queues[ORDER[0]], trace[0], trace[0 + 1]);
    var a, b :| SortsTo(edges, keep, queues["a"], s, Result(trace[1], a, b));
    SortsA(edges, keep, queues, s, Result(trace[1], a, b));
    assert Sorts(edges, keep, ORDER[1], queues[ORDER[1]], trace[1], trace[1 + 1]);
    var c, d :| SortsTo(edges, keep, queues["b"], trace[1], Result(trace[2], c, d));
    SortsB(edges, keep, queues, s, Result(trace[2], c, d));
    NumbersOf(s);
    BothAtTwelve(s);
  }

  lemma BothAtTwelve(s: State)
    requires Undecided(s)
    ensures Num(AfterB(s), "t1") == Num(AfterB(s), "t2") == 12 && Num(AfterB(s), "c") == 11 && AfterB(s).aborted == {}
  {
    NumbersOf(s);
    Names();
  }

  // ------------------------------------------------------------- its one order

  lemma OneDependency(edges: Edges, x: Key, y: Key)
    requires forall n :: HasNode(edges, n) <==> n in FLAT
    ensures Depends(edges, x, y) <==> x == "a" && y == "b"
  {
    hide HasNode;
    Names();
    assert LINK_A in FLAT && LINK_B in FLAT;
    assert HasNode(edges, RWNode("c", "a", Write)) && HasNode(edges, RWNode("c", "b", Read));
    assert forall n :: n in FLAT && n.kind == Read ==> n == LINK_B;
    assert forall n :: n in FLAT && n.kind == Write && n.tx == "c" ==> n == LINK_A;
  }

  lemma NoCycle(edges: Edges)
    requires forall n :: HasNode(edges, n) <==> n in FLAT
    ensures AcyclicKeys(edges)
  {
    hide HasNode, Depends;
    Names();
    forall p | IsChain(edges, p) && |p| >= 2 ensures p[0] != p[|p| - 1] {
      var n := |p| - 2;
      assert Depends(edges, p[0], p[0 + 1]) && Depends(edges, p[n], p[n + 1]);
      OneDependency(edges, p[0], p[1]);
      OneDependency(edges, p[n], p[n + 1]);
    }
  }

  lemma OneOrder(edges: Edges, order: seq<Key>)
    requires forall n :: HasNode(edges, n) <==> n in FLAT
    requires Ordered(edges, order) && Distinct(order) && forall k :: k in order <==> k == "a" || k == "b"
    ensures order == ORDER
  {
    hide HasNode, Depends;
    Names();
    OneDependency(edges, "a", "b");
    DistinctSize(order);
    assert Elements(order) == {"a", "b"};
    assert order[0] in order && order[1] in order;
    assert !Depends(edges, "a", order[0]);
  }

  // ------------------------------------------------------------ running it

  lemma FlatBlock()
    ensures Flatten(BLOCK) == FLAT
  {
    assert BLOCK[..2] == [[FIRST_A, FIRST_B], [LINK_A, LINK_B]] && BLOCK[..2][..1] == [[FIRST_A, FIRST_B]];
    assert BLOCK[..2][..1][..0] == [];
    assert Flatten(BLOCK[..2][..1]) == [FIRST_A, FIRST_B];
    assert Flatten(BLOCK[..2]) == [FIRST_A, FIRST_B, LINK_A, LINK_B];
  }

  lemma ThreeLists(block: seq<seq<RWNode>>, a: RWNode, b: RWNode, c: RWNode, d: RWNode, e: RWNode)
    requires |block| == 3 && block[0] == [a, b] && block[1] == [c, d] && block[2] == [e]
    requires a != b && c != d && a.tx == b.tx && c.tx == d.tx && a.tx != c.tx && a.tx != e.tx && c.tx != e.tx
    ensures IsBlock(block)
  {
    assert forall n :: n in block[0] ==> n.tx == a.tx;
    assert forall n :: n in block[1] ==> n.tx == c.tx;
    assert forall n :: n in block[2] ==> n.tx == e.tx;
    forall i | 0 <= i < |block| ensures Distinct(block[i]) && OneOwner(block[i]) {
    }
    forall i, j, n, n' | 0 <= i < j < |block| && n in block[i] && n' in block[j] ensures n.tx != n'.tx {
      assert (i == 0 && j == 1) || (i == 0 && j == 2) || (i == 1 && j == 2);
    }
  }

  lemma WhichList(block: seq<seq<RWNode>>, a: RWNode, b: RWNode, c: RWNode, d: RWNode, e: RWNode, n: RWNode)
    requires |block| == 3 && block[0] == [a, b] && block[1] == [c, d] && block[2] == [e]
    ensures InBlock(block, n) <==> n in [a, b, c, d, e]
  {
    assert n in block[0] <==> n == a || n == b;
    assert n in block[1] <==> n == c || n == d;
    assert n in block[2] <==> n == e;
    if InBlock(block, n) {
      var i :| 0 <= i < |block| && n in block[i];
      assert i == 0 || i == 1 || i == 2;
    }
  }

  lemma BlockIsBlock()
    ensures IsBlock(BLOCK) && [] !in BLOCK && forall n :: InBlock(BLOCK, n) <==> n in FLAT
  {
    hide IsBlock, InBlock;
    Names();
    ThreeLists(BLOCK, FIRST_A, FIRST_B, LINK_A, LINK_B, SECOND_A);
    forall n ensures InBlock(BLOCK, n) <==> n in FLAT {
      WhichList(BLOCK, FIRST_A, FIRST_B, LINK_A, LINK_B, SECOND_A, n);
    }
  }

  lemma Names()
    ensures "t1" != "t2" && "t1" != "c" && "t2" != "c" && "a" != "b"
  {
    assert "t1"[1] != "t2"[1] && |"c"| == 1;
    assert "a"[0] != "b"[0];
  }

  /** Three nodes listed in the order of the block. */
  lemma InThatOrder(ws: seq<RWNode>)
    requires Distinct(ws) && ByFirst(FLAT, ws)
    requires forall n :: n in ws <==> n == FIRST_A || n == LINK_A || n == SECOND_A
    ensures ws == [FIRST_A, LINK_A, SECOND_A]
  {
    Names();
    DistinctSize(ws);
    assert Elements(ws) == {FIRST_A, LINK_A, SECOND_A};
    assert ws[0] in ws && ws[1] in ws && ws[2] in ws;
    Ranks();
  }

  lemma Ranks()
    ensures FIRST_A in FLAT && LINK_A in FLAT && SECOND_A in FLAT
    ensures Rank(FLAT, FIRST_A) == 0 && Rank(FLAT, LINK_A) == 2 && Rank(FLAT, SECOND_A) == 4
  {
    Names();
    assert FLAT[0] == FIRST_A && FLAT[2] == LINK_A && FLAT[4] == SECOND_A;
  }

  lemma OnlyOne(ws: seq<RWNode>, w: RWNode)
    requires Distinct(ws) && forall n :: n in ws <==> n == w
    ensures ws == [w]
  {
    DistinctSize(ws);
    assert Elements(ws) == {w};
    assert ws[0] in ws;
  }

  lemma Nobody(ws: seq<RWNode>)
    requires forall n :: n !in ws
    ensures ws == []
  {
    if ws != [] {
      HasMember(ws);
    }
  }

  lemma ExampleQueues(edges: Edges, queues: Queues, s: State)
    requires AllQueues(edges, queues) && InBlockOrder(BLOCK, queues) && Undecided(s)
    requires forall n :: HasNode(edges, n) <==> InBlock(BLOCK, n)
    requires forall k :: k in queues ==> queues[k].rSlice + queues[k].wSlice != []
    ensures IsExample(edges, queues, s) && queues.Keys == {"a", "b"}
  {
    hide ByFirst, HasNode, IsQueue, IsBlock, InBlock, Flatten, Undecided, WellFormed;
    BlockIsBlock();
    FlatBlock();
    assert FIRST_A in FLAT && FIRST_B in FLAT;
    assert FIRST_A.key in queues && FIRST_B.key in queues;
    Slices(edges, queues);
    forall k | k in queues ensures k == "a" || k == "b" {
      KeyOf(edges, k, queues[k]);
    }
  }

  lemma KeyOf(edges: Edges, k: Key, q: Queue)
    requires IsQueue(edges, k, q) && q.rSlice + q.wSlice != [] && forall n :: HasNode(edges, n) <==> n in FLAT
    ensures k == "a" || k == "b"
  {
    hide HasNode;
    var n := (q.rSlice + q.wSlice)[0];
    assert n in q.rSlice || n in q.wSlice;
    assert n.key == k;
  }

  lemma Slices(edges: Edges, queues: Queues)
    requires "a" in queues && "b" in queues && IsQueue(edges, "a", queues["a"]) && IsQueue(edges, "b", queues["b"])
    requires (forall n :: HasNode(edges, n) <==> n in FLAT) && ByFirst(FLAT, queues["a"].wSlice)
    ensures queues["a"].rSlice == [] && queues["a"].wSlice == [FIRST_A, LINK_A, SECOND_A]
    ensures queues["b"].rSlice == [LINK_B] && queues["b"].wSlice == [FIRST_B]
  {
    hide HasNode, ByFirst;
    Names();
    Nobody(queues["a"].rSlice);
    InThatOrder(queues["a"].wSlice);
    OnlyOne(queues["b"].rSlice, LINK_B);
    OnlyOne(queues["b"].wSlice, FIRST_B);
  }

  lemma FewWrites(edges: Edges, queues: Queues, s: State)
    requires IsExample(edges, queues, s)
    ensures WriteNodes(queues, ORDER) == 4
  {
    assert ORDER[..1] == ["a"] && ORDER[..1][..0] == [];
    assert WriteNodes(queues, ORDER[..1]) == 3;
  }

  /** The program on that block: two writers of the first address survive and end with
      the same number, in either variant. */
  method CollideInRun(keepsRmw: bool)
    returns (cq: QueueGraph, order: seq<Key>, commitOrder: CommitOrder, ghost filed: map<int, seq<TxId>>)
    ensures fresh(cq) && cq.Linked() && IsCommitOrder(cq.edges, cq.Now(), commitOrder, filed)
    ensures (forall n :: HasNode(cq.edges, n) <==> n in FLAT) && cq.aborted == {}
    ensures forall n :: n in FLAT ==> n in cq.sequence
    ensures cq.sequence[FIRST_A] == cq.sequence[SECOND_A] == 12 && cq.sequence[LINK_A] == 11
    ensures AcyclicKeys(cq.edges) && order == ORDER
  {
    hide IsBlock, InBlock, AllQueues, InBlockOrder, IsTrace, Decided, IsCommitOrder, FiledTxs, WriteNodes, IsExample,
         AcyclicKeys, Ordered, Distinct, IsRanked, Undecided, FreshQueues, SameNodes;
    BlockIsBlock();
    cq := CreateGraph(BLOCK, keepsRmw);
    ghost var queues, s := cq.queues, cq.Now();
    ExampleQueues(cq.edges, queues, s);
    FewWrites(cq.edges, queues, s);
    NoCycle(cq.edges);
    assert |queues| == |queues.Keys| == 2;
    order := QueuesSort(cq);
    OneOrder(cq.edges, order);
    ghost var trace;
    commitOrder, filed, trace := DeSS(cq, order);
    Collide(cq.edges, keepsRmw, queues, trace);
    assert FIRST_A in FLAT && SECOND_A in FLAT && LINK_A in FLAT;
  }

  // -------------------------------------------------------- committing it

  const TXS: set<TxId> := {"t1", "c", "t2"}

  /** What the transactions of the block read and write. */
  const NODES: Speculation :=
    Speculation(map["t1" := {}, "c" := {"b"}, "t2" := {}], map["t1" := {"a", "b"}, "c" := {"a"}, "t2" := {"a"}])

  /** t1 and t2 write 1 wherever they write, c writes 0. */
  const CLASH: Clash := Clash(NODES, "t1", "t2", "a")

  lemma ExampleTxs(edges: Edges)
    requires WellFormed(edges) && forall n :: HasNode(edges, n) <==> n in FLAT
    ensures edges.Keys == TXS
  {
    forall t | t in edges ensures t in TXS {
      assert edges[t][0] in edges[t];
      assert HasNode(edges, edges[t][0]);
    }
    assert FIRST_A in FLAT && LINK_A in FLAT && SECOND_A in FLAT;
    assert HasNode(edges, FIRST_A) && HasNode(edges, LINK_A) && HasNode(edges, SECOND_A);
  }

  lemma ExampleKeys(edges: Edges, t: TxId, k: Key)
    requires forall n :: HasNode(edges, n) <==> n in FLAT
    ensures k in NodesOf(edges).Reads(t) <==> k in NODES.Reads(t)
    ensures k in NodesOf(edges).Writes(t) <==> k in NODES.Writes(t)
  {
    hide HasNode, NodesOf;
    Names();
    NodesAre(edges, t, k);
  }

  lemma ExampleNodes(edges: Edges)
    requires WellFormed(edges) && forall n :: HasNode(edges, n) <==> n in FLAT
    ensures NodesOf(edges) == NODES
  {
    ExampleTxs(edges);
    var spec := NodesOf(edges);
    forall t | t in TXS ensures spec.rs[t] == NODES.rs[t] && spec.ws[t] == NODES.ws[t] {
      SameKeys(edges, t);
    }
    hide NodesOf, HasNode;
    assert spec.rs == NODES.rs && spec.ws == NODES.ws;
  }

  lemma SameKeys(edges: Edges, t: TxId)
    requires forall n :: HasNode(edges, n) <==> n in FLAT
    ensures NodesOf(edges).Reads(t) == NODES.Reads(t) && NodesOf(edges).Writes(t) == NODES.Writes(t)
  {
    hide HasNode, NodesOf;
    forall k ensures k in NodesOf(edges).Reads(t) <==> k in NODES.Reads(t)
             ensures k in NodesOf(edges).Writes(t) <==> k in NODES.Writes(t)
    {
      ExampleKeys(edges, t, k);
    }
  }

  /** The two stand alone in a level, and c in a lower one. */
  lemma ExampleLevels(edges: Edges, s: State, numbers: seq<int>, filed: seq<seq<TxId>>) returns (i: nat, n: nat)
    requires ByNumber(edges, s, numbers, filed) && edges.Keys == TXS && NodesOf(edges) == NODES && s.aborted == {}
    requires Num(s, "t1") == Num(s, "t2") == 12 && Num(s, "c") == 11
    ensures n < i < |filed| && "c" in filed[n] && Known(filed, TXS)
    ensures forall x :: x in filed[i] <==> x == "t1" || x == "t2"
  {
    hide NodesOf, Num;
    Names();
    assert forall x :: Surviving(edges, s, x) <==> x in TXS by {
      assert "a" in NODES.Writes("t1") && "a" in NODES.Writes("t2") && "a" in NODES.Writes("c");
    }
    i :| 0 <= i < |numbers| && numbers[i] == Num(s, "t1");
    n :| 0 <= n < |numbers| && numbers[n] == Num(s, "c");
    forall x ensures x in filed[i] <==> x == "t1" || x == "t2" {
      assert x in filed[i] <==> Surviving(edges, s, x) && Num(s, x) == numbers[i];
      assert x in TXS <==> x == "t1" || x == "c" || x == "t2";
    }
  }

  lemma ExampleIsBlind()
    ensures Blind(CLASH)
  {
    Names();
  }

  /** The program on that block, level loop included.  Everyone has a context and
      validates, however the workers end; both writes of 1 are added, so the first
      address ends at 2, where one at a time leaves 1. */
  method CollideInCommit()
    returns (cq: QueueGraph, committed: Store, failed: nat, ghost numbers: seq<int>, ghost levels: seq<seq<TxId>>)
    ensures AcyclicKeys(cq.edges) && cq.aborted == {} && !WritersApart(cq.edges, cq.Now(), "a")
    ensures NodesOf(cq.edges) == NODES && IsBody(NODES, Telling(CLASH))
    ensures
      var run := Execution(NODES, Telling(CLASH));
      && committed == LevelsStore(run, levels)
      && Value(committed, "a") == 2 && Value(Serial(run, map[], Flatten(levels)), "a") == 1
    ensures "c" in Flatten(levels) && "t1" in Flatten(levels) && "t2" in Flatten(levels)
  {
    hide AcyclicKeys, IsCommitOrder, WritersApart, ByNumber, Candidates, AllNumbers, IsBody, Blind, Validated, LevelsStore,
         Serial, Flatten, NodesOf, HasNode, Parted, Telling, Value, Known, Contexts, Writers, Distinct, Execution;
    var order, commitOrder;
    ghost var piles;
    cq, order, commitOrder, piles := CollideInRun(true);
    DistinctWriters(cq, commitOrder, piles);
    var run, pre := Execution(NODES, Telling(CLASH)), Contexts(NODES, Telling(CLASH), TXS);
    committed, failed, numbers, levels := CommitLevels(run, pre, commitOrder);
    CommitsTwo(cq, commitOrder, piles, numbers, levels);
  }

  lemma TiedWriters(edges: Edges, s: State)
    requires (forall n :: HasNode(edges, n) <==> n in FLAT) && Num(s, "t1") == Num(s, "t2") && s.aborted == {}
    ensures !WritersApart(edges, s, "a")
  {
    hide HasNode, Num;
    Names();
    assert FIRST_A in FLAT && SECOND_A in FLAT;
    assert LiveWriter(edges, s, "a", "t1") && LiveWriter(edges, s, "a", "t2");
  }

  lemma CommitsTwo(cq: QueueGraph, commitOrder: CommitOrder, piles: map<int, seq<TxId>>, numbers: seq<int>,
                   levels: seq<seq<TxId>>)
    requires cq.Linked() && IsCommitOrder(cq.edges, cq.Now(), commitOrder, piles) && AllNumbers(commitOrder, numbers)
    requires (forall n :: HasNode(cq.edges, n) <==> n in FLAT) && cq.aborted == {} && forall n :: n in FLAT ==> n in cq.sequence
    requires cq.sequence[FIRST_A] == cq.sequence[SECOND_A] == 12 && cq.sequence[LINK_A] == 11
    requires Validated(RunOf(CLASH), Pre(CLASH, TXS), Candidates(commitOrder, numbers), levels)
    ensures !WritersApart(cq.edges, cq.Now(), "a") && NodesOf(cq.edges) == NODES && IsBody(NODES, Telling(CLASH))
    ensures Value(LevelsStore(RunOf(CLASH), levels), "a") == 2
    ensures Value(Serial(RunOf(CLASH), map[], Flatten(levels)), "a") == 1
    ensures "c" in Flatten(levels) && "t1" in Flatten(levels) && "t2" in Flatten(levels)
  {
    hide IsCommitOrder, WritersApart, ByNumber, Candidates, AllNumbers, IsBody, Blind, Validated, LevelsStore, Serial, Flatten,
         NodesOf, HasNode, Parted, Telling, Value, Known, Contexts, RunOf, Pre, Num;
    ghost var filed := Candidates(commitOrder, numbers);
    NodesAreLinked(cq);
    assert FIRST_A in FLAT && SECOND_A in FLAT && LINK_A in FLAT;
    assert Num(cq.Now(), FIRST_A.tx) == Num(cq.Now(), SECOND_A.tx) == 12 && Num(cq.Now(), LINK_A.tx) == 11;
    TiedWriters(cq.edges, cq.Now());
    ExampleTxs(cq.edges);
    ExampleNodes(cq.edges);
    CandidatesByNumber(cq.edges, cq.Now(), commitOrder, piles, numbers);
    var i, n := ExampleLevels(cq.edges, cq.Now(), numbers, filed);
    ExampleIsBlind();
    TellingIsBody(CLASH);
    LevelCount(RunOf(CLASH), Pre(CLASH, TXS), filed, levels);
    BlindLevels(CLASH, TXS, filed, i, levels, |levels|);
    assert levels[..|levels|] == levels;
    BlindValidates(CLASH, TXS, filed, i, levels, n, "c");
    BlindValidates(CLASH, TXS, filed, i, levels, i, "t1");
    BlindValidates(CLASH, TXS, filed, i, levels, i, "t2");
    FlattenHas(levels, n, "c");
    FlattenHas(levels, i, "t1");
    FlattenHas(levels, i, "t2");
  }

  lemma LevelCount(run: Program, pre: Predictions, filed: seq<seq<TxId>>, levels: seq<seq<TxId>>)
    requires Validated(run, pre, filed, levels)
    ensures |levels| == |filed|
  {
  }
}

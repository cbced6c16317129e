/**
 Sorting one queue, stated on the states before and after the call: who is aborted, and
 for each kind of transaction which number it ends with, in which order, and that no
 number is left out.
 */
module SortResult {
  import opened Sequences
  import opened Deltas
  import opened Footprint
  import opened AddressQueues
  import opened SortFunction
  import opened SortExact

  // ------------------------------------------------------ kinds of writers

  ghost predicate Before(k: Key, q: Queue, t: TxId, t': TxId) {
    Precedes(q.wSlice, RWNode(t, k, Write), RWNode(t', k, Write))
  }

  /** Writes only, and has a number it may keep or give up. */
  ghost predicate OldWriter(edges: Edges, k: Key, q: Queue, s: State, m: int, t: TxId) {
    Writes(k, q, t) && !Rmw(k, q, t) && Determined(s, t) && !Pinned(edges, k, q, s, m, t)
  }

  /** Writes only, and has no number yet. */
  ghost predicate NewWriter(k: Key, q: Queue, s: State, t: TxId) {
    Writes(k, q, t) && !Rmw(k, q, t) && Num(s, t) == 0
  }

  ghost predicate KeptRmw(k: Key, q: Queue, s': State, t: TxId) {
    Rmw(k, q, t) && Live(s', t)
  }

  /** The number belongs to an old writer. */
  ghost predicate Held(edges: Edges, k: Key, q: Queue, s: State, m: int, y: int) {
    exists t :: OldWriter(edges, k, q, s, m, t) && Num(s, t) == y
  }

  /** An old writer earlier in the queue has the same number. */
  ghost predicate Blocked(edges: Edges, k: Key, q: Queue, s: State, m: int, t: TxId) {
    exists t' :: OldWriter(edges, k, q, s, m, t') && Num(s, t') == Num(s, t) && Before(k, q, t', t)
  }

  ghost predicate Stays(edges: Edges, k: Key, q: Queue, s: State, m: int, mr: int, t: TxId) {
    OldWriter(edges, k, q, s, m, t) && Num(s, t) > mr && !Blocked(edges, k, q, s, m, t)
  }

  ghost predicate Moves(edges: Edges, k: Key, q: Queue, s: State, m: int, mr: int, t: TxId) {
    OldWriter(edges, k, q, s, m, t) && !Stays(edges, k, q, s, m, mr, t)
  }

  // ------------------------------------------------------------ the result

  /** Aborted are those that were, the writes pinned by a read elsewhere, and outside the variant
      the read-modify-writes behind one that survives. */
  ghost predicate AbortsExact(edges: Edges, keep: bool, k: Key, q: Queue, s: State, s': State, m: int) {
    forall t :: t in s'.aborted <==>
                  t in s.aborted || Pinned(edges, k, q, s, m, t) || (!keep && LaterRmw(k, q, s', t))
  }

  /** `m` is the largest read number; pure readers have theirs, everyone outside the queue is untouched. */
  ghost predicate ReadsExact(k: Key, q: Queue, s: State, s': State, m: int) {
    && IsMaxRead(q, s, m)
    && (forall t :: !Writes(k, q, t) ==>
          if Among(q.rSlice, t) then IsReadNumber(q, s, t, Num(s', t)) else Num(s', t) == Num(s, t))
  }

  /** The reads of survivors that are assigned: those that were, and those of the queue. */
  ghost predicate MarksExact(q: Queue, s: State, s': State) {
    forall n: RWNode :: n.kind == Read && Live(s', n.tx) ==> (n in s'.marked <==> n in s.marked || n in q.rSlice)
  }

  ghost predicate RmwHas(k: Key, q: Queue, s': State, y: int) {
    exists t :: KeptRmw(k, q, s', t) && Num(s', t) == y
  }

  ghost predicate SomeRmw(k: Key, q: Queue, s': State) {
    exists t :: KeptRmw(k, q, s', t)
  }

  /** The surviving read-modify-writes take the numbers above `m` up to `mr`, in queue order. */
  ghost predicate RmwsExact(k: Key, q: Queue, s': State, m: int, mr: int) {
    && (!SomeRmw(k, q, s') ==> mr == m)
    && (forall t :: KeptRmw(k, q, s', t) ==> Base(m) < Num(s', t) <= mr)
    && (forall t, t' :: KeptRmw(k, q, s', t) && KeptRmw(k, q, s', t') && Before(k, q, t, t') ==> Num(s', t) < Num(s', t'))
    && (forall y :: Base(m) < y <= mr ==> RmwHas(k, q, s', y))
  }

  ghost predicate NewHas(k: Key, q: Queue, s: State, s': State, y: int) {
    exists t :: NewWriter(k, q, s, t) && Num(s', t) == y
  }

  /** The new writers take the first numbers above those that no old writer holds, in queue order. */
  ghost predicate NewExact(edges: Edges, k: Key, q: Queue, s: State, s': State, m: int, mr: int) {
    && (forall t :: NewWriter(k, q, s, t) ==> Base(mr) < Num(s', t) && !Held(edges, k, q, s, m, Num(s', t)))
    && (forall t, t' :: NewWriter(k, q, s, t) && NewWriter(k, q, s, t') && Before(k, q, t, t') ==> Num(s', t) < Num(s', t'))
    && (forall t, y :: NewWriter(k, q, s, t) && Base(mr) < y < Num(s', t) ==>
          Held(edges, k, q, s, m, y) || NewHas(k, q, s, s', y))
  }

  /** The greatest number taken or held before any writer is moved. */
  ghost predicate IsTop(edges: Edges, k: Key, q: Queue, s: State, s': State, m: int, mr: int, top: int) {
    && Base(mr) <= top && (forall t :: NewWriter(k, q, s, t) ==> Num(s', t) <= top)
    && (forall t :: OldWriter(edges, k, q, s, m, t) ==> Num(s, t) <= top)
    && (top == Base(mr) || NewHas(k, q, s, s', top) || Held(edges, k, q, s, m, top))
  }

  ghost predicate MovedTo(edges: Edges, k: Key, q: Queue, s: State, s': State, m: int, mr: int, y: int) {
    exists t :: Moves(edges, k, q, s, m, mr, t) && Num(s', t) == y
  }

  /** An old writer above `mr` that is the first with its number stays. The others take the
      next numbers, by the number they gave up and then by queue order. */
  ghost predicate OldExact(edges: Edges, k: Key, q: Queue, s: State, s': State, m: int, mr: int, top: int, mw: int) {
    && (forall t :: Stays(edges, k, q, s, m, mr, t) ==> Num(s', t) == Num(s, t))
    && (forall t :: Moves(edges, k, q, s, m, mr, t) ==> top < Num(s', t) <= mw)
    && OldInOrder(edges, k, q, s, s', m, mr)
    && (forall y :: top < y <= mw ==> MovedTo(edges, k, q, s, s', m, mr, y))
  }

  ghost predicate OldInOrder(edges: Edges, k: Key, q: Queue, s: State, s': State, m: int, mr: int) {
    forall t, t' ::
      Moves(edges, k, q, s, m, mr, t) && Moves(edges, k, q, s, m, mr, t') &&
      (Num(s, t) < Num(s, t') || (Num(s, t) == Num(s, t') && Before(k, q, t, t'))) ==>
        Num(s', t) < Num(s', t')
  }

  /** The result of sorting the queue of `k`: `m` is the largest read number before the read-modify-writes. */
  ghost predicate SortedExactly(edges: Edges, keep: bool, k: Key, q: Queue, s: State, r: Result, m: int) {
    && AbortsExact(edges, keep, k, q, s, r.s, m) && ReadsExact(k, q, s, r.s, m)
    && MarksExact(q, s, r.s)
    && RmwsExact(k, q, r.s, m, r.maxRead) && NewExact(edges, k, q, s, r.s, m, r.maxRead)
    && OldsPlaced(edges, k, q, s, r.s, m, r.maxRead, r.maxWrite)
  }

  ghost predicate OldsPlaced(edges: Edges, k: Key, q: Queue, s: State, s': State, m: int, mr: int, mw: int) {
    exists top :: top <= mw && IsTop(edges, k, q, s, s', m, mr, top) && OldExact(edges, k, q, s, s', m, mr, top, mw)
  }

  // ------------------------------------------------- numbers phase by phase

  /** The filed writes are the old writers, by their numbers. */
  lemma OldsAreFiled(edges: Edges, keep: bool, k: Key, q: Queue, s: State, r: Result, g: int, p: Phases, t: TxId)
    requires Ran(edges, keep, k, q, s, r, g, p)
    ensures
      var w, n := RWNode(t, k, Write), Num(s, t);
      OldWriter(edges, k, q, s, p.read.top, t) <==> n in p.c.others && w in p.c.others[n]
  {
    hide Ran, Rmw, Determined, Pinned, RmwAt, PinnedAt, OtherAt, Num, Among, OwnTransactions;
    QueueIsOwn(edges, keep, k, q, s, r, g, p);
    var w := RWNode(t, k, Write);
    if Writes(k, q, t) {
      Kinds(edges, keep, k, q, s, r, g, p, w);
    }
    FiledIsOther(edges, keep, k, q, s, r, g, p, w);
  }

  lemma FiledIsOther(edges: Edges, keep: bool, k: Key, q: Queue, s: State, r: Result, g: int, p: Phases, w: RWNode)
    requires Ran(edges, keep, k, q, s, r, g, p)
    ensures forall n :: n in p.c.others && w in p.c.others[n] ==>
              w in q.wSlice && OtherAt(edges, p.read.s, p.read.top, w) && Num(p.read.s, w.tx) == n
    ensures w in q.wSlice && OtherAt(edges, p.read.s, p.read.top, w) ==>
              Num(p.read.s, w.tx) in p.c.others && w in p.c.others[Num(p.read.s, w.tx)]
  {
    hide IsQueue, Numbered, IsRun, RmwAt, OtherAt, PinnedAt, Rmw, InOrder, RmwPlaced, NewRise, Moved, Buckets, Ascending,
         IsMaxRead, IsReadNumber, PinnedTx, Num, Among;
  }

  lemma RmwFacts(edges: Edges, keep: bool, k: Key, q: Queue, s: State, r: Result, g: int, p: Phases)
    requires Ran(edges, keep, k, q, s, r, g, p)
    ensures RmwPlaced(keep, p.c.s, p.rmw.s, Base(p.read.top), p.c.rmw, p.rmw.top)
    ensures p.c.s.num == p.read.s.num && InOrder(q.wSlice, p.c.rmw) && INITIAL_SEQUENCE - 1 <= Base(p.read.top)
  {
    hide IsQueue, Numbered, IsRun, RmwAt, OtherAt, PinnedAt, Rmw, InOrder, RmwPlaced, NewRise, Moved, Buckets, Ascending,
         IsMaxRead, IsReadNumber, PinnedTx, Num, Among;
    MaxReadIsSmall(edges, q, s, g, p.read.top);
  }

  lemma MoveFacts(edges: Edges, keep: bool, k: Key, q: Queue, s: State, r: Result, g: int, p: Phases)
    requires Ran(edges, keep, k, q, s, r, g, p)
    ensures NewRise(q.wSlice, p.c.others.Keys, p.rmw.s, p.added.s, p.rmw.top, p.added.top)
    ensures Ascending(p.keys, p.c.others.Keys) && (forall n :: n in p.keys <==> n in p.c.others)
    ensures Moved(p.keys, p.c.others, FloorOf(p), p.added.s, p.moved.s, Top(p.keys, p.added.top), p.moved.top)
    ensures r == Result(p.moved.s, FloorOf(p), p.moved.top)
    ensures forall n :: n in p.c.others ==> InOrder(q.wSlice, p.c.others[n]) && p.c.others[n] != []
  {
    hide IsQueue, Numbered, IsRun, RmwAt, OtherAt, PinnedAt, Rmw, InOrder, RmwPlaced, NewRise, Moved, Buckets, Ascending,
         IsMaxRead, IsReadNumber, PinnedTx, Num, Among;
    AscendingKeys(p.keys, p.c.others);
  }

  /** Only a surviving read-modify-write is placed above the reads. */
  lemma NotPlaced(edges: Edges, keep: bool, k: Key, q: Queue, s: State, r: Result, g: int, p: Phases, t: TxId)
    requires Ran(edges, keep, k, q, s, r, g, p) && !(Rmw(k, q, t) && Live(s, t))
    ensures Num(p.rmw.s, t) == Num(p.read.s, t)
  {
    hide Ran, InOrder, Rmw, Live;
    RmwFacts(edges, keep, k, q, s, r, g, p);
    if j :| 0 <= j < |Placed(keep, p.c.rmw)| && Placed(keep, p.c.rmw)[j].tx == t {
      RmwsAre(edges, keep, k, q, s, r, g, p, p.c.rmw[j]);
    }
  }

  /** Only old writers are moved. */
  lemma NotMoved(edges: Edges, keep: bool, k: Key, q: Queue, s: State, r: Result, g: int, p: Phases, t: TxId)
    requires Ran(edges, keep, k, q, s, r, g, p) && !OldWriter(edges, k, q, s, p.read.top, t)
    ensures Num(p.moved.s, t) == Num(p.added.s, t)
  {
    hide Ran, Num, OldWriter, OtherAt, NewRise, MovedInOrder, MovedDense, Ascending, InOrder, OwnTransactions;
    MoveFacts(edges, keep, k, q, s, r, g, p);
    if n :| n in p.keys && n in p.c.others && Among(p.c.others[n], t) {
      var w :| w in p.c.others[n] && w.tx == t;
      FiledIsOld(edges, keep, k, q, s, r, g, p, n, w);
    }
  }

  lemma FiledIsOld(edges: Edges, keep: bool, k: Key, q: Queue, s: State, r: Result, g: int, p: Phases, n: int, w: RWNode)
    requires Ran(edges, keep, k, q, s, r, g, p) && n in p.c.others && w in p.c.others[n]
    ensures w == RWNode(w.tx, k, Write) && OldWriter(edges, k, q, s, p.read.top, w.tx) && Num(s, w.tx) == n
  {
    hide Ran, Rmw, Determined, Pinned, RmwAt, PinnedAt, OtherAt, Num, Among, OwnTransactions;
    QueueIsOwn(edges, keep, k, q, s, r, g, p);
    FiledIsOther(edges, keep, k, q, s, r, g, p, w);
    Kinds(edges, keep, k, q, s, r, g, p, w);
  }

  /** Only new writers are numbered afresh. */
  lemma NotAdded(edges: Edges, keep: bool, k: Key, q: Queue, s: State, r: Result, g: int, p: Phases, t: TxId)
    requires Ran(edges, keep, k, q, s, r, g, p) && !NewWriter(k, q, s, t)
    ensures Num(p.added.s, t) == Num(p.rmw.s, t)
  {
    hide Ran, Num, NewWriter, Ascending, Moved, InOrder, OwnTransactions, Among, NewInOrder, NewDense;
    MoveFacts(edges, keep, k, q, s, r, g, p);
    QueueIsOwn(edges, keep, k, q, s, r, g, p);
    UnnumberedIsNew(edges, keep, k, q, s, r, g, p, t);
  }

  lemma UnnumberedIsNew(edges: Edges, keep: bool, k: Key, q: Queue, s: State, r: Result, g: int, p: Phases, t: TxId)
    requires Ran(edges, keep, k, q, s, r, g, p)
    ensures NewWriter(k, q, s, t) <==> Writes(k, q, t) && Num(p.rmw.s, t) == 0
  {
    hide Ran, Num, Among, Live;
    QueueIsOwn(edges, keep, k, q, s, r, g, p);
    ReadFacts(edges, keep, k, q, s, r, g, p, t);
    if Rmw(k, q, t) && Live(s, t) {
      RmwIsNumbered(edges, keep, k, q, s, r, g, p, t);
    } else {
      NotPlaced(edges, keep, k, q, s, r, g, p, t);
    }
  }

  lemma RmwIsNumbered(edges: Edges, keep: bool, k: Key, q: Queue, s: State, r: Result, g: int, p: Phases, t: TxId)
    requires Ran(edges, keep, k, q, s, r, g, p) && Rmw(k, q, t)
    ensures Num(p.rmw.s, t) != 0
  {
    hide Ran, Num, Among, Live, InOrder, IsReadNumber;
    QueueIsOwn(edges, keep, k, q, s, r, g, p);
    ReadFacts(edges, keep, k, q, s, r, g, p, t);
    RmwFacts(edges, keep, k, q, s, r, g, p);
    SameNumber(p.c.s, p.read.s, t);
    if j :| 0 <= j < |Placed(keep, p.c.rmw)| && Placed(keep, p.c.rmw)[j].tx == t {
      assert Num(p.rmw.s, t) == Base(p.read.top) + 1 + j;
    }
  }

  lemma SameNumber(s: State, s': State, t: TxId)
    requires s.num == s'.num
    ensures Num(s, t) == Num(s', t)
  {
  }

  // ------------------------------------------------------------- the reads

  lemma ReadsAreExact(edges: Edges, keep: bool, k: Key, q: Queue, s: State, r: Result, g: int, p: Phases)
    requires Ran(edges, keep, k, q, s, r, g, p)
    ensures ReadsExact(k, q, s, r.s, p.read.top)
  {
    hide Ran, Num, Among, IsMaxRead, IsReadNumber, NewRise, Moved, Ascending, InOrder;
    MoveFacts(edges, keep, k, q, s, r, g, p);
    MaxReadIs(edges, keep, k, q, s, r, g, p);
    forall t | !Writes(k, q, t)
      ensures if Among(q.rSlice, t) then IsReadNumber(q, s, t, Num(r.s, t)) else Num(r.s, t) == Num(s, t)
    {
      ReadFacts(edges, keep, k, q, s, r, g, p, t);
      NotPlaced(edges, keep, k, q, s, r, g, p, t);
      NotAdded(edges, keep, k, q, s, r, g, p, t);
      NotMoved(edges, keep, k, q, s, r, g, p, t);
    }
  }

  lemma {:induction false} NewPhaseMarks(keys: set<int>, ws: seq<RWNode>, s: State, top: int, n: RWNode)
    requires n !in ws
    ensures n in NewPhase(keys, ws, s, top).s.marked <==> n in s.marked
  {
    hide FirstFree;
    if ws != [] {
      NewPhaseMarks(keys, ws[..|ws| - 1], s, top, n);
    }
  }

  lemma {:induction false} MoveBucketMarks(bucket: seq<RWNode>, keepFirst: bool, s: State, top: int, n: RWNode)
    requires n !in bucket
    ensures n in MoveBucketOf(bucket, keepFirst, s, top).s.marked <==> n in s.marked
  {
    if bucket != [] {
      MoveBucketMarks(bucket[..|bucket| - 1], keepFirst, s, top, n);
    }
  }

  lemma {:induction false} MovePhaseMarks(keys: seq<int>, others: map<int, seq<RWNode>>, mr: int, s: State, top: int, n: RWNode)
    requires forall x :: x in others ==> n !in others[x]
    ensures n in MovePhase(keys, others, mr, s, top).s.marked <==> n in s.marked
  {
    hide MoveBucketOf;
    if keys != [] {
      var p, x := MovePhase(keys[..|keys| - 1], others, mr, s, top), keys[|keys| - 1];
      MovePhaseMarks(keys[..|keys| - 1], others, mr, s, top, n);
      if x in others {
        MoveBucketMarks(others[x], x > mr, p.s, p.top, n);
      }
    }
  }

  /** After the reads only writes are assigned. */
  lemma ReadsKeepMarks(edges: Edges, keep: bool, k: Key, q: Queue, s: State, r: Result, g: int, p: Phases, n: RWNode)
    requires Ran(edges, keep, k, q, s, r, g, p) && n.kind == Read
    ensures n in r.s.marked <==> n in p.read.s.marked
  {
    hide IsQueue, Numbered, PhasesDone, ReadPhase, ClassifyPhase, RmwPhase, NewPhase, MovePhase, Ascending, InOrder, NewRise,
         Moved, OwnTransactions, Among, OtherAt;
    QueueIsOwn(edges, keep, k, q, s, r, g, p);
    RmwFacts(edges, keep, k, q, s, r, g, p);
    SameMarks(edges, keep, k, q, s, r, g, p);
    forall w | w in Placed(keep, p.c.rmw) ensures w.kind == Write {
      RmwsAre(edges, keep, k, q, s, r, g, p, w);
    }
    forall x | x in p.c.others ensures n !in p.c.others[x] {
      FiledIsOther(edges, keep, k, q, s, r, g, p, n);
    }
    NewPhaseMarks(p.c.others.Keys, q.wSlice, p.rmw.s, p.rmw.top, n);
    MovePhaseMarks(p.keys, p.c.others, FloorOf(p), p.added.s, Top(p.keys, p.added.top), n);
  }

  lemma SameMarks(edges: Edges, keep: bool, k: Key, q: Queue, s: State, r: Result, g: int, p: Phases)
    requires Ran(edges, keep, k, q, s, r, g, p)
    ensures p.c.s.marked == p.read.s.marked
  {
    hide IsQueue, Numbered, IsRun, RmwAt, OtherAt, InOrder, RmwPlaced, NewRise, Moved, Buckets, Ascending, IsMaxRead,
         IsReadNumber, PinnedTx, Num, Among;
  }

  lemma MarksAreExact(edges: Edges, keep: bool, k: Key, q: Queue, s: State, r: Result, g: int, p: Phases)
    requires Ran(edges, keep, k, q, s, r, g, p)
    ensures MarksExact(q, s, r.s)
  {
    hide IsQueue, Numbered, PhasesDone, IsRun, ReadPhase, Pinned, Second;
    AbortedAre(edges, keep, k, q, s, r, g, p);
    MaxReadIs(edges, keep, k, q, s, r, g, p);
    forall n: RWNode | n.kind == Read && Live(r.s, n.tx) ensures n in r.s.marked <==> n in s.marked || n in q.rSlice {
      ReadsKeepMarks(edges, keep, k, q, s, r, g, p, n);
      ReadMarks(edges, k, q, s, g, n);
    }
  }

  // ------------------------------------------------- the read-modify-writes

  lemma KeptIsPlaced(edges: Edges, keep: bool, k: Key, q: Queue, s: State, r: Result, g: int, p: Phases, t: TxId)
    requires Ran(edges, keep, k, q, s, r, g, p)
    ensures KeptRmw(k, q, r.s, t) <==> From(Placed(keep, p.c.rmw), 0, t)
  {
    hide Ran, RmwPlaced, Rmw, InOrder, Second, OwnTransactions, Pinned, Among;
    var rmw, w := p.c.rmw, RWNode(t, k, Write);
    QueueIsOwn(edges, keep, k, q, s, r, g, p);
    RmwFacts(edges, keep, k, q, s, r, g, p);
    OrderedIsOwn(q.wSlice, rmw);
    AbortedAre(edges, keep, k, q, s, r, g, p);
    SecondIsFrom(edges, keep, k, q, s, r, g, p, t);
    NoneBeyond(keep, rmw, t);
    PlacedOrBeyond(keep, rmw, t);
    NotPinned(edges, k, q, s, p.read.top, t);
    RmwsAre(edges, keep, k, q, s, r, g, p, w);
    if Rmw(k, q, t) {
      RmwInQueue(k, q, t);
    }
    if j :| 0 <= j < |rmw| && rmw[j].tx == t {
      RmwsAre(edges, keep, k, q, s, r, g, p, rmw[j]);
    }
  }

  lemma NotPinned(edges: Edges, k: Key, q: Queue, s: State, m: int, t: TxId)
    ensures Rmw(k, q, t) ==> !Pinned(edges, k, q, s, m, t)
  {
  }

  lemma PlacedOrBeyond(keep: bool, rmw: seq<RWNode>, t: TxId)
    requires OwnTransactions(rmw)
    ensures From(rmw, 0, t) <==> exists j :: 0 <= j < |rmw| && rmw[j].tx == t
    ensures From(Placed(keep, rmw), 0, t) <==> From(rmw, 0, t) && !From(rmw, |Placed(keep, rmw)|, t)
  {
    var placed := Placed(keep, rmw);
    if j :| 0 <= j < |rmw| && rmw[j].tx == t {
      assert j < |placed| ==> placed[j].tx == t;
    }
    if j :| 0 <= j < |placed| && placed[j].tx == t {
      assert rmw[j].tx == t;
    }
  }

  lemma PlacedNumber(edges: Edges, keep: bool, k: Key, q: Queue, s: State, r: Result, g: int, p: Phases, j: nat)
    requires Ran(edges, keep, k, q, s, r, g, p) && j < |Placed(keep, p.c.rmw)|
    ensures Num(r.s, Placed(keep, p.c.rmw)[j].tx) == Base(p.read.top) + 1 + j
    ensures Placed(keep, p.c.rmw)[j] == p.c.rmw[j] && p.c.rmw[j] in q.wSlice && Rmw(k, q, p.c.rmw[j].tx)
  {
    hide Ran, Num, Rmw, InOrder, NewRise, Moved, Ascending, Live;
    var w := p.c.rmw[j];
    RmwsAre(edges, keep, k, q, s, r, g, p, w);
    RmwFacts(edges, keep, k, q, s, r, g, p);
    MoveFacts(edges, keep, k, q, s, r, g, p);
    NotAdded(edges, keep, k, q, s, r, g, p, w.tx);
    NotMoved(edges, keep, k, q, s, r, g, p, w.tx);
  }

  lemma FloorIs(edges: Edges, keep: bool, k: Key, q: Queue, s: State, r: Result, g: int, p: Phases)
    requires Ran(edges, keep, k, q, s, r, g, p)
    ensures p.rmw.top == Base(p.read.top) + |Placed(keep, p.c.rmw)| == Base(r.maxRead)
    ensures r.maxRead == if p.c.rmw == [] then p.read.top else p.rmw.top
    ensures r.s == p.moved.s && r.maxWrite == p.moved.top
  {
    hide Ran, InOrder, NewRise, Moved, Ascending;
    RmwFacts(edges, keep, k, q, s, r, g, p);
    MoveFacts(edges, keep, k, q, s, r, g, p);
  }

  lemma RmwsAreExact(edges: Edges, keep: bool, k: Key, q: Queue, s: State, r: Result, g: int, p: Phases)
    requires Ran(edges, keep, k, q, s, r, g, p)
    ensures RmwsExact(k, q, r.s, p.read.top, r.maxRead)
  {
    hide Ran, Num, KeptRmw, Before;
    var placed, m := Placed(keep, p.c.rmw), p.read.top;
    FloorIs(edges, keep, k, q, s, r, g, p);
    if !SomeRmw(k, q, r.s) && p.c.rmw != [] {
      KeptIsPlaced(edges, keep, k, q, s, r, g, p, placed[0].tx);
      assert false;
    }
    forall t | KeptRmw(k, q, r.s, t) ensures m <= Base(m) < Num(r.s, t) <= r.maxRead {
      var j := PlacedAt(edges, keep, k, q, s, r, g, p, t);
    }
    forall t, t' | KeptRmw(k, q, r.s, t) && KeptRmw(k, q, r.s, t') && Before(k, q, t, t') ensures Num(r.s, t) < Num(r.s, t') {
      PlacedInOrder(edges, keep, k, q, s, r, g, p, t, t');
    }
    forall y | Base(m) < y <= r.maxRead ensures RmwHas(k, q, r.s, y) {
      var j := y - Base(m) - 1;
      PlacedNumber(edges, keep, k, q, s, r, g, p, j);
      KeptIsPlaced(edges, keep, k, q, s, r, g, p, placed[j].tx);
    }
  }

  lemma PlacedAt(edges: Edges, keep: bool, k: Key, q: Queue, s: State, r: Result, g: int, p: Phases, t: TxId) returns (j: nat)
    requires Ran(edges, keep, k, q, s, r, g, p) && KeptRmw(k, q, r.s, t)
    ensures j < |Placed(keep, p.c.rmw)| && p.c.rmw[j].tx == t && Num(r.s, t) == Base(p.read.top) + 1 + j
  {
    hide Ran, Num, KeptRmw;
    KeptIsPlaced(edges, keep, k, q, s, r, g, p, t);
    j :| 0 <= j < |Placed(keep, p.c.rmw)| && Placed(keep, p.c.rmw)[j].tx == t;
    PlacedNumber(edges, keep, k, q, s, r, g, p, j);
  }

  lemma PlacedInOrder(edges: Edges, keep: bool, k: Key, q: Queue, s: State, r: Result, g: int, p: Phases, t: TxId, t': TxId)
    requires Ran(edges, keep, k, q, s, r, g, p) && KeptRmw(k, q, r.s, t) && KeptRmw(k, q, r.s, t') && Before(k, q, t, t')
    ensures Num(r.s, t) < Num(r.s, t')
  {
    hide Ran, Num, KeptRmw, InOrder, OwnTransactions, Precedes, RmwPlaced, Rmw, Among;
    QueueIsOwn(edges, keep, k, q, s, r, g, p);
    RmwFacts(edges, keep, k, q, s, r, g, p);
    var i := PlacedAt(edges, keep, k, q, s, r, g, p, t);
    var j := PlacedAt(edges, keep, k, q, s, r, g, p, t');
    PlacedNumber(edges, keep, k, q, s, r, g, p, i);
    PlacedNumber(edges, keep, k, q, s, r, g, p, j);
    OrderAgrees(q.wSlice, p.c.rmw, i, j);
  }

  /** Of those in line the first survives, so the others stand behind a survivor. */
  lemma SecondIsLater(edges: Edges, keep: bool, k: Key, q: Queue, s: State, r: Result, g: int, p: Phases, t: TxId)
    requires Ran(edges, keep, k, q, s, r, g, p) && Live(s, t)
    ensures Second(k, q, s, t) <==> LaterRmw(k, q, r.s, t)
  {
    hide Ran, BehindAnother, Rmw, Pinned;
    AbortedAre(edges, keep, k, q, s, r, g, p);
    if Second(k, q, s, t) {
      SecondIsFrom(edges, keep, k, q, s, r, g, p, t);
      var j :| 1 <= j < |p.c.rmw| && p.c.rmw[j].tx == t;
      FromIsSecond(edges, keep, k, q, s, r, g, p, j);
      assert Placed(keep, p.c.rmw)[0] == p.c.rmw[0];
      KeptIsPlaced(edges, keep, k, q, s, r, g, p, p.c.rmw[0].tx);
    }
  }

  lemma AbortsAreExact(edges: Edges, keep: bool, k: Key, q: Queue, s: State, r: Result, g: int, p: Phases)
    requires Ran(edges, keep, k, q, s, r, g, p)
    ensures AbortsExact(edges, keep, k, q, s, r.s, p.read.top)
  {
    hide Ran, Pinned, Second, LaterRmw;
    AbortedAre(edges, keep, k, q, s, r, g, p);
    forall t | Live(s, t) ensures Second(k, q, s, t) <==> LaterRmw(k, q, r.s, t) {
      SecondIsLater(edges, keep, k, q, s, r, g, p, t);
    }
  }

  // -------------------------------------------------------- the new writers

  lemma HeldIs(edges: Edges, keep: bool, k: Key, q: Queue, s: State, r: Result, g: int, p: Phases, y: int)
    requires Ran(edges, keep, k, q, s, r, g, p)
    ensures Held(edges, k, q, s, p.read.top, y) <==> y in p.c.others
  {
    hide Ran, OldWriter, Num, NewRise, Moved, Ascending, InOrder;
    if t :| OldWriter(edges, k, q, s, p.read.top, t) && Num(s, t) == y {
      OldsAreFiled(edges, keep, k, q, s, r, g, p, t);
    }
    if y in p.c.others {
      MoveFacts(edges, keep, k, q, s, r, g, p);
      FiledIsOld(edges, keep, k, q, s, r, g, p, y, p.c.others[y][0]);
    }
  }

  /** A new writer's number is the one it is given on the way. */
  lemma NewNumber(edges: Edges, keep: bool, k: Key, q: Queue, s: State, r: Result, g: int, p: Phases, t: TxId)
    requires Ran(edges, keep, k, q, s, r, g, p) && NewWriter(k, q, s, t)
    ensures p.rmw.top < Num(r.s, t) <= p.added.top && Num(r.s, t) !in p.c.others && Num(r.s, t) == Num(p.added.s, t)
    ensures Num(p.rmw.s, t) == 0
  {
    hide Ran, Num, Moved, Ascending, InOrder, NewInOrder, NewDense, Rmw;
    MoveFacts(edges, keep, k, q, s, r, g, p);
    UnnumberedIsNew(edges, keep, k, q, s, r, g, p, t);
    NotMoved(edges, keep, k, q, s, r, g, p, t);
    assert RWNode(t, k, Write) in q.wSlice;
  }

  lemma NewAreExact(edges: Edges, keep: bool, k: Key, q: Queue, s: State, r: Result, g: int, p: Phases)
    requires Ran(edges, keep, k, q, s, r, g, p)
    ensures NewExact(edges, k, q, s, r.s, p.read.top, r.maxRead)
  {
    hide Ran, Num, NewWriter, Held, Before;
    FloorIs(edges, keep, k, q, s, r, g, p);
    forall t | NewWriter(k, q, s, t)
      ensures Base(r.maxRead) < Num(r.s, t) && !Held(edges, k, q, s, p.read.top, Num(r.s, t))
    {
      NewNumber(edges, keep, k, q, s, r, g, p, t);
      HeldIs(edges, keep, k, q, s, r, g, p, Num(r.s, t));
    }
    forall t, t' | NewWriter(k, q, s, t) && NewWriter(k, q, s, t') && Before(k, q, t, t') ensures Num(r.s, t) < Num(r.s, t') {
      NewRising(edges, keep, k, q, s, r, g, p, t, t');
    }
    forall t, y | NewWriter(k, q, s, t) && Base(r.maxRead) < y < Num(r.s, t)
      ensures Held(edges, k, q, s, p.read.top, y) || NewHas(k, q, s, r.s, y)
    {
      NewNumber(edges, keep, k, q, s, r, g, p, t);
      NewTaken(edges, keep, k, q, s, r, g, p, y);
    }
  }

  lemma NewRising(edges: Edges, keep: bool, k: Key, q: Queue, s: State, r: Result, g: int, p: Phases, t: TxId, t': TxId)
    requires Ran(edges, keep, k, q, s, r, g, p) && NewWriter(k, q, s, t) && NewWriter(k, q, s, t') && Before(k, q, t, t')
    ensures Num(r.s, t) < Num(r.s, t')
  {
    hide Ran, Num, Moved, Ascending, InOrder, NewWithin, NewDense, NewWriter;
    NewNumber(edges, keep, k, q, s, r, g, p, t);
    NewNumber(edges, keep, k, q, s, r, g, p, t');
    MoveFacts(edges, keep, k, q, s, r, g, p);
    var i, j :| 0 <= i < j < |q.wSlice| && q.wSlice[i] == RWNode(t, k, Write) && q.wSlice[j] == RWNode(t', k, Write);
  }

  /** Every number up to the last one given is held or given. */
  lemma NewTaken(edges: Edges, keep: bool, k: Key, q: Queue, s: State, r: Result, g: int, p: Phases, y: int)
    requires Ran(edges, keep, k, q, s, r, g, p) && p.rmw.top < y <= p.added.top
    ensures Held(edges, k, q, s, p.read.top, y) || NewHas(k, q, s, r.s, y)
  {
    hide Ran, Num, Moved, Ascending, InOrder, NewWithin, NewInOrder, NewWriter, Held, OwnTransactions, Among;
    MoveFacts(edges, keep, k, q, s, r, g, p);
    HeldIs(edges, keep, k, q, s, r, g, p, y);
    if y !in p.c.others {
      QueueIsOwn(edges, keep, k, q, s, r, g, p);
      var w :| w in q.wSlice && Num(p.rmw.s, w.tx) == 0 && Num(p.added.s, w.tx) == y;
      UnnumberedIsNew(edges, keep, k, q, s, r, g, p, w.tx);
      NewNumber(edges, keep, k, q, s, r, g, p, w.tx);
    }
  }

  // -------------------------------------------------------- the old writers

  /** Where an old writer is filed, and that it keeps its number until buckets are moved. */
  lemma FiledAt(edges: Edges, keep: bool, k: Key, q: Queue, s: State, r: Result, g: int, p: Phases, t: TxId) returns (i: nat)
    requires Ran(edges, keep, k, q, s, r, g, p) && OldWriter(edges, k, q, s, p.read.top, t)
    ensures Standing(p.keys, p.c.others, Num(s, t), i) && p.c.others[Num(s, t)][i] == RWNode(t, k, Write)
    ensures Num(p.added.s, t) == Num(s, t)
  {
    hide Ran, Num, NewRise, Moved, Ascending, InOrder, Pinned, Rmw, Among;
    OldsAreFiled(edges, keep, k, q, s, r, g, p, t);
    MoveFacts(edges, keep, k, q, s, r, g, p);
    Kinds(edges, keep, k, q, s, r, g, p, RWNode(t, k, Write));
    NotPlaced(edges, keep, k, q, s, r, g, p, t);
    NotAdded(edges, keep, k, q, s, r, g, p, t);
    var n := Num(s, t);
    i :| 0 <= i < |p.c.others[n]| && p.c.others[n][i] == RWNode(t, k, Write);
  }

  lemma SameBucket(edges: Edges, keep: bool, k: Key, q: Queue, s: State, r: Result, g: int, p: Phases, t: TxId, i: nat, t': TxId,
                   j: nat)
    requires Ran(edges, keep, k, q, s, r, g, p) && Num(s, t) == Num(s, t')
    requires Standing(p.keys, p.c.others, Num(s, t), i) && p.c.others[Num(s, t)][i] == RWNode(t, k, Write)
    requires Standing(p.keys, p.c.others, Num(s, t), j) && p.c.others[Num(s, t)][j] == RWNode(t', k, Write)
    ensures Before(k, q, t, t') <==> i < j
  {
    hide Ran, Num, NewRise, Moved, Ascending, OwnTransactions, Precedes, Among;
    QueueIsOwn(edges, keep, k, q, s, r, g, p);
    MoveFacts(edges, keep, k, q, s, r, g, p);
    if Before(k, q, t, t') {
      OrderAgrees(q.wSlice, p.c.others[Num(s, t)], i, j);
    }
  }

  /** The old writers that stay are the kept heads. */
  lemma StaysIs(edges: Edges, keep: bool, k: Key, q: Queue, s: State, r: Result, g: int, p: Phases, t: TxId, i: nat)
    requires Ran(edges, keep, k, q, s, r, g, p) && OldWriter(edges, k, q, s, p.read.top, t)
    requires Standing(p.keys, p.c.others, Num(s, t), i) && p.c.others[Num(s, t)][i] == RWNode(t, k, Write)
    ensures Stays(edges, k, q, s, p.read.top, r.maxRead, t) <==> KeptHead(r.maxRead, Num(s, t), i)
  {
    hide Ran, Num, OldWriter, Before;
    if t' :| OldWriter(edges, k, q, s, p.read.top, t') && Num(s, t') == Num(s, t) && Before(k, q, t', t) {
      var j := FiledAt(edges, keep, k, q, s, r, g, p, t');
      SameBucket(edges, keep, k, q, s, r, g, p, t', j, t, i);
    }
    if i > 0 {
      var w := p.c.others[Num(s, t)][0];
      FiledIsOld(edges, keep, k, q, s, r, g, p, Num(s, t), w);
      SameBucket(edges, keep, k, q, s, r, g, p, w.tx, 0, t, i);
    }
  }

  lemma OldNumber(edges: Edges, keep: bool, k: Key, q: Queue, s: State, r: Result, g: int, p: Phases, t: TxId)
    requires Ran(edges, keep, k, q, s, r, g, p) && OldWriter(edges, k, q, s, p.read.top, t)
    ensures if Stays(edges, k, q, s, p.read.top, r.maxRead, t) then Num(r.s, t) == Num(s, t)
            else Top(p.keys, p.added.top) < Num(r.s, t) <= r.maxWrite
  {
    hide Ran, Num, OldWriter, Stays, NewRise, MovedInOrder, MovedDense, Ascending, InOrder, Top, KeptHead, InBuckets;
    var i := FiledAt(edges, keep, k, q, s, r, g, p, t);
    StaysIs(edges, keep, k, q, s, r, g, p, t, i);
    MoveFacts(edges, keep, k, q, s, r, g, p);
  }

  lemma MovedRising(edges: Edges, keep: bool, k: Key, q: Queue, s: State, r: Result, g: int, p: Phases, t: TxId, t': TxId)
    requires Ran(edges, keep, k, q, s, r, g, p)
    requires Moves(edges, k, q, s, p.read.top, r.maxRead, t) && Moves(edges, k, q, s, p.read.top, r.maxRead, t')
    requires Num(s, t) < Num(s, t') || (Num(s, t) == Num(s, t') && Before(k, q, t, t'))
    ensures Num(r.s, t) < Num(r.s, t')
  {
    hide Ran, Num, OldWriter, Stays, NewRise, MovedWithin, MovedDense, Ascending, InOrder, Top, KeptHead, Before;
    var i := FiledAt(edges, keep, k, q, s, r, g, p, t);
    var j := FiledAt(edges, keep, k, q, s, r, g, p, t');
    StaysIs(edges, keep, k, q, s, r, g, p, t, i);
    StaysIs(edges, keep, k, q, s, r, g, p, t', j);
    MoveFacts(edges, keep, k, q, s, r, g, p);
    if Num(s, t) == Num(s, t') {
      SameBucket(edges, keep, k, q, s, r, g, p, t, i, t', j);
    }
  }

  lemma MovedTaken(edges: Edges, keep: bool, k: Key, q: Queue, s: State, r: Result, g: int, p: Phases, y: int)
    requires Ran(edges, keep, k, q, s, r, g, p) && Top(p.keys, p.added.top) < y <= r.maxWrite
    ensures MovedTo(edges, k, q, s, r.s, p.read.top, r.maxRead, y)
  {
    hide Ran, Num, OldWriter, Stays, NewRise, MovedWithin, MovedInOrder, Ascending, InOrder, Top, KeptHead;
    MoveFacts(edges, keep, k, q, s, r, g, p);
    assert MovedAt(p.keys, p.c.others, FloorOf(p), p.moved.s, y);
    var n, i: nat :| Standing(p.keys, p.c.others, n, i) && !KeptHead(FloorOf(p), n, i) && Num(p.moved.s, p.c.others[n][i].tx) == y;
    var w := p.c.others[n][i];
    FiledIsOld(edges, keep, k, q, s, r, g, p, n, w);
    StaysIs(edges, keep, k, q, s, r, g, p, w.tx, i);
  }

  lemma OldsAreExact(edges: Edges, keep: bool, k: Key, q: Queue, s: State, r: Result, g: int, p: Phases)
    requires Ran(edges, keep, k, q, s, r, g, p)
    ensures OldExact(edges, k, q, s, r.s, p.read.top, r.maxRead, Top(p.keys, p.added.top), r.maxWrite)
  {
    hide Ran, Num, OldWriter, Stays, Before, Top;
    var m, mr, top := p.read.top, r.maxRead, Top(p.keys, p.added.top);
    forall t | OldWriter(edges, k, q, s, m, t)
      ensures if Stays(edges, k, q, s, m, mr, t) then Num(r.s, t) == Num(s, t) else top < Num(r.s, t) <= r.maxWrite
    {
      OldNumber(edges, keep, k, q, s, r, g, p, t);
    }
    forall t | Stays(edges, k, q, s, m, mr, t) ensures Num(r.s, t) == Num(s, t) {
      StaysIsOld(edges, k, q, s, m, mr, t);
    }
    forall t, t' | Moves(edges, k, q, s, m, mr, t) && Moves(edges, k, q, s, m, mr, t') &&
                   (Num(s, t) < Num(s, t') || (Num(s, t) == Num(s, t') && Before(k, q, t, t')))
      ensures Num(r.s, t) < Num(r.s, t')
    {
      MovedRising(edges, keep, k, q, s, r, g, p, t, t');
    }
    forall y | top < y <= r.maxWrite ensures MovedTo(edges, k, q, s, r.s, m, mr, y) {
      MovedTaken(edges, keep, k, q, s, r, g, p, y);
    }
  }

  lemma StaysIsOld(edges: Edges, k: Key, q: Queue, s: State, m: int, mr: int, t: TxId)
    requires Stays(edges, k, q, s, m, mr, t)
    ensures OldWriter(edges, k, q, s, m, t)
  {
  }

  lemma TopIs(edges: Edges, keep: bool, k: Key, q: Queue, s: State, r: Result, g: int, p: Phases)
    requires Ran(edges, keep, k, q, s, r, g, p)
    ensures Top(p.keys, p.added.top) <= r.maxWrite
    ensures IsTop(edges, k, q, s, r.s, p.read.top, r.maxRead, Top(p.keys, p.added.top))
  {
    hide Ran, Num, OldWriter, NewWriter, Held, NewHas, InOrder, NewInOrder, NewDense, MovedInOrder, MovedDense, InBuckets,
         Standing, KeptHead, Ascending;
    var top := Top(p.keys, p.added.top);
    MoveFacts(edges, keep, k, q, s, r, g, p);
    FloorIs(edges, keep, k, q, s, r, g, p);
    forall t | NewWriter(k, q, s, t) ensures Num(r.s, t) <= top {
      NewNumber(edges, keep, k, q, s, r, g, p, t);
    }
    forall t | OldWriter(edges, k, q, s, p.read.top, t) ensures Num(s, t) <= top {
      OldsAreFiled(edges, keep, k, q, s, r, g, p, t);
      LastIsTop(p.keys, p.c.others.Keys, p.added.top, Num(s, t));
    }
    HeldIs(edges, keep, k, q, s, r, g, p, top);
    if top == p.added.top && top != Base(r.maxRead) {
      NewTaken(edges, keep, k, q, s, r, g, p, top);
    }
  }

  lemma LastIsTop(keys: seq<int>, numbers: set<int>, top: int, n: int)
    requires Ascending(keys, numbers) && n in keys
    ensures n <= Top(keys, top)
  {
    var i :| 0 <= i < |keys| && keys[i] == n;
  }

  // -------------------------------------------------------- the whole call

  /** Sorting one queue, exactly. */
  lemma SortIsExact(edges: Edges, keep: bool, k: Key, q: Queue, s: State, r: Result, g: int) returns (m: int)
    requires IsQueue(edges, k, q) && Numbered(edges, s, g) && g < MAX_INT32 && SortsTo(edges, keep, q, s, r)
    ensures SortedExactly(edges, keep, k, q, s, r, m) && m == ReadPhase(q, s).top
  {
    hide IsQueue, Numbered, SortsTo, PhasesDone, AbortsExactly, AbortsExact, ReadsExact, MarksExact, RmwsExact, NewExact, OldExact, IsTop, ReadPhase,
         ClassifyPhase, RmwPhase, NewPhase, MovePhase, Top, Ascending;
    var p := RunOf(edges, keep, q, s, r);
    PhasesAre(edges, keep, k, q, s, r, g, p);
    m := p.read.top;
    AbortsAreExact(edges, keep, k, q, s, r, g, p);
    ReadsAreExact(edges, keep, k, q, s, r, g, p);
    MarksAreExact(edges, keep, k, q, s, r, g, p);
    RmwsAreExact(edges, keep, k, q, s, r, g, p);
    NewAreExact(edges, keep, k, q, s, r, g, p);
    OldsAreExact(edges, keep, k, q, s, r, g, p);
    TopIs(edges, keep, k, q, s, r, g, p);
  }

  /** A survivor with an assigned read elsewhere and a number among the reads is moved exactly if
      it reads and writes this address. */
  lemma ReaderElsewhereMoves(edges: Edges, keep: bool, k: Key, q: Queue, s: State, r: Result, g: int, m: int, t: TxId)
    requires Numbered(edges, s, g) && IsQueue(edges, k, q) && SortedExactly(edges, keep, k, q, s, r, m)
    requires Live(r.s, t) && Determined(s, t) && Num(s, t) <= m && ReadBefore(edges, s, k, t)
    ensures Num(r.s, t) != Num(s, t) <==> Rmw(k, q, t)
  {
    hide Numbered, IsQueue, ReadBefore, NewExact, OldsPlaced, LaterRmw, Num;
    if Rmw(k, q, t) {
      assert KeptRmw(k, q, r.s, t);
    } else if Among(q.rSlice, t) {
      assert SomeDetermined(s, q.rSlice);
    }
  }
}

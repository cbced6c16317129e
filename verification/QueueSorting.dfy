/**
 The queue graph of `core/conflict_queue.go`, updated in place: sequence numbers
 per node, spread over each transaction's nodes, and the phases of sorting one
 queue.  With `keepsRmw` it is the variant of `core/nezha_variable.go`.
 */
module QueueSorting {
  import opened Sequences
  import opened Deltas
  import opened Footprint
  import opened AddressQueues
  import opened SortFunction
  import opened SortResult
  import opened Sorting

  class QueueGraph {
    const edges: Edges
    const keepsRmw: bool
    var queues: map<Key, Queue>
    var sequence: map<RWNode, int>
    var isAssigned: set<RWNode>
    var aborted: set<TxId>
    ghost var num: map<TxId, int>

    ghost function Now(): State
      reads this
    {
      State(num, isAssigned, aborted)
    }

    /** All nodes of a transaction share its number. */
    ghost predicate Linked()
      reads this`sequence, this`num
    {
      && WellFormed(edges) && num.Keys == edges.Keys
      && (forall n :: HasNode(edges, n) ==> n in sequence && sequence[n] == num[n.tx])
    }

    lemma EveryoneNumbered()
      requires Linked()
      ensures num.Keys == edges.Keys
    {
    }

    constructor (edges: Edges, queues: map<Key, Queue>, keepsRmw: bool)
      requires WellFormed(edges)
      ensures this.edges == edges && this.queues == queues && this.keepsRmw == keepsRmw && Linked()
      ensures aborted == {} && isAssigned == {} && forall t :: Num(Now(), t) == 0
    {
      this.edges, this.queues, this.keepsRmw := edges, queues, keepsRmw;
      sequence := map t, n | t in edges && n in edges[t] :: n := 0;
      isAssigned, aborted := {}, {};
      num := map t | t in edges :: 0;
    }

    /** The node's number, as its transaction's. */
    function SequenceOf(n: RWNode): (x: int)
      requires Linked() && HasNode(edges, n)
      reads this
      ensures x == Num(Now(), n.tx)
    {
      sequence[n]
    }

    /** Gives the node's number to the other nodes of its transaction. */
    method AssignSequence(rw: RWNode)
      requires WellFormed(edges) && HasNode(edges, rw) && rw in sequence
      requires num.Keys == edges.Keys && num[rw.tx] == sequence[rw]
      requires forall n :: HasNode(edges, n) ==> n in sequence && (n.tx == rw.tx || sequence[n] == num[n.tx])
      modifies this`sequence
      ensures Linked()
    {
      var edge := edges[rw.tx];
      var i := 0;
      while i < |edge|
        invariant 0 <= i <= |edge| && rw in sequence && sequence[rw] == num[rw.tx]
        invariant forall n :: HasNode(edges, n) ==> n in sequence
        invariant forall n :: HasNode(edges, n) && n.tx != rw.tx ==> sequence[n] == num[n.tx]
        invariant forall j :: 0 <= j < i ==> edge[j] in sequence && sequence[edge[j]] == num[rw.tx]
      {
        if edge[i] != rw {
          sequence := sequence[edge[i] := sequence[rw]];
        }
        i := i + 1;
      }
    }

    /** Numbers the node, flags it as assigned, and spreads the number. */
    method Assign(n: RWNode, x: int)
      requires Linked() && HasNode(edges, n)
      modifies this`sequence, this`isAssigned, this`num
      ensures Linked() && Now() == Put(old(Now()), n, x)
    {
      sequence := sequence[n := x];
      isAssigned := isAssigned + {n};
      num := num[n.tx := x];
      AssignSequence(n);
    }

    // ------------------------------------------------------------ the reads

    /** The readers whose number is determined. */
    method DeterminedReads(q: Queue) returns (tmp: seq<RWNode>)
      requires Linked() && forall r :: r in q.rSlice ==> HasNode(edges, r)
      ensures tmp == DeterminedOf(Now(), q.rSlice)
      ensures forall r :: r in tmp <==> r in q.rSlice && Determined(Now(), r.tx)
    {
      tmp := [];
      var i := 0;
      while i < |q.rSlice|
        invariant 0 <= i <= |q.rSlice| && tmp == DeterminedOf(Now(), q.rSlice[..i])
        invariant forall r :: r in tmp <==> r in q.rSlice[..i] && Determined(Now(), r.tx)
      {
        var r := q.rSlice[i];
        assert r in q.rSlice;
        if SequenceOf(r) != 0 && r.tx !in aborted {
          tmp := tmp + [r];
        }
        assert q.rSlice[..i + 1] == q.rSlice[..i] + [r] && q.rSlice[..i + 1][..i] == q.rSlice[..i];
        i := i + 1;
      }
      assert q.rSlice[..i] == q.rSlice;
    }

    /** The least and the greatest determined number; flags those readers. */
    method Survey(tmp: seq<RWNode>, ghost g: int) returns (min: int, max: int)
      requires Linked() && tmp != [] && forall r :: r in tmp ==> HasNode(edges, r) && Determined(Now(), r.tx)
      requires Numbered(edges, Now(), g) && g < MAX_INT32
      modifies this`isAssigned
      ensures Linked() && isAssigned == old(isAssigned) + Elements(tmp)
      ensures INITIAL_SEQUENCE <= min <= max <= g && WithinBounds(old(Now()), tmp, min, max)
      ensures min == Least(old(Now()), tmp) && max == Greatest(old(Now()), tmp)
    {
      hide Numbered, WithinBounds, Elements, HasNode, Determined, Num;
      ghost var s := Now();
      min, max := MAX_INT32, 0;
      NoNodes(tmp, isAssigned);
      NoBounds(s, tmp, min, max);
      var i := 0;
      while i < |tmp|
        invariant 0 <= i <= |tmp| && isAssigned == old(isAssigned) + Elements(tmp[..i]) && Linked()
        invariant if i == 0 then min == MAX_INT32 && max == 0 else INITIAL_SEQUENCE <= min <= max <= g
        invariant WithinBounds(s, tmp[..i], min, max) && min == Least(s, tmp[..i]) && max == Greatest(s, tmp[..i])
      {
        var tr := tmp[i];
        assert tr in tmp;
        isAssigned := isAssigned + {tr};
        var x := SequenceOf(tr);
        NumberInRange(edges, s, Now(), g, tr.tx);
        MoreBounds(s, tmp, i, min, max);
        assert tmp[..i + 1][..i] == tmp[..i];
        min := if x < min then x else min;
        max := if x > max then x else max;
        i := i + 1;
      }
      assert tmp[..i] == tmp;
    }

    /** Numbers readers with `x`: all of them, or those without a number. */
    method NumberReads(k: Key, q: Queue, x: int, all: bool, ghost g: int)
      requires Linked() && IsQueue(edges, k, q) && Numbered(edges, Now(), g) && INITIAL_SEQUENCE <= x <= g
      requires all ==> forall r :: r in q.rSlice ==> !Determined(Now(), r.tx)
      modifies this`sequence, this`isAssigned, this`num
      ensures Linked() && Reading(edges, k, q, q.rSlice, old(Now()), Now(), x, g)
      ensures Now() == ReadsAt(q.rSlice, old(Now()), x, all)
    {
      hide Reading, Numbered, IsQueue, Determined;
      ghost var s0 := Now();
      NothingRead(edges, k, q, s0, x, g);
      var i := 0;
      while i < |q.rSlice|
        invariant 0 <= i <= |q.rSlice| && Linked() && aborted == old(aborted)
        invariant Reading(edges, k, q, q.rSlice[..i], s0, Now(), x, g) && Now() == ReadsAt(q.rSlice[..i], s0, x, all)
      {
        var r := q.rSlice[i];
        NextRead(edges, k, q, i, s0, Now(), x, g);
        if all || SequenceOf(r) == 0 {
          ghost var s := Now();
          ReadOne(edges, k, q, q.rSlice[..i], s0, s, x, g, r);
          Assign(r, x);
        } else {
          ReadSkipped(edges, k, q, q.rSlice[..i], s0, Now(), x, g, r);
        }
        assert q.rSlice[..i + 1] == q.rSlice[..i] + [r] && q.rSlice[..i + 1][..i] == q.rSlice[..i];
        i := i + 1;
      }
      assert q.rSlice[..i] == q.rSlice;
    }

    /** Places the reads below everything written later. */
    method PlaceReads(k: Key, q: Queue, ghost g: int) returns (m: int)
      requires Linked() && IsQueue(edges, k, q) && Numbered(edges, Now(), g) && g < MAX_INT32
      modifies this`sequence, this`isAssigned, this`num
      ensures Linked() && ReadsPlaced(edges, k, q, old(Now()), Now(), m, g)
      ensures ReadPhase(q, old(Now())) == Mark(Now(), m)
    {
      hide ReadsPlaced, Reading, WithinBounds, Elements, ReadsAt, Least, Greatest, DeterminedOf;
      ghost var s0 := Now();
      var tmp := DeterminedReads(q);
      if tmp == [] {
        m := if q.rSlice == [] then 0 else INITIAL_SEQUENCE;
        NumberReads(k, q, INITIAL_SEQUENCE, true, g);
        ReadAll(edges, k, q, s0, s0, Now(), INITIAL_SEQUENCE, m, g);
      } else {
        var min;
        min, m := Survey(tmp, g);
        ghost var s1 := Now();
        assert tmp[0] in q.rSlice;
        SameNumbers(edges, s0, s1, g);
        SurveyMarks(q, s0, s1, tmp, min, m);
        NumberReads(k, q, min, false, g);
        ReadAll(edges, k, q, s0, s1, Now(), min, m, g);
      }
    }

    // ----------------------------------------------------------- the writes

    /** Looks for assigned reads of the write's transaction, at its own address or
        at another one. */
    method LookBack(w: RWNode) returns (isSame: bool, isBefore: bool)
      requires Linked() && HasNode(edges, w)
      ensures isSame <==> ReadHere(edges, Now(), w)
      ensures !isSame ==> (isBefore <==> ReadThere(edges, Now(), w))
    {
      var edge := edges[w.tx];
      isSame, isBefore := false, false;
      var i := 0;
      while i < |edge| && !isSame
        invariant 0 <= i <= |edge|
        invariant isSame ==> ReadHere(edges, Now(), w)
        invariant !isSame ==> forall j :: 0 <= j < i && edge[j].kind == Read && edge[j] in isAssigned ==> edge[j].key != w.key
        invariant !isSame ==> (isBefore <==> exists j :: 0 <= j < i && edge[j].kind == Read && edge[j] in isAssigned)
      {
        var rw := edge[i];
        if rw.kind == Read && rw in isAssigned {
          assert HasNode(edges, rw);
          if w.key == rw.key {
            isSame := true;
          } else {
            isBefore := true;
          }
        }
        i := i + 1;
      }
    }

    /** Sorts out the determined writes, aborting those that a read elsewhere pins. */
    method Classify(k: Key, q: Queue, m: int, ghost s0: State, ghost g: int)
      returns (rmw: seq<RWNode>, others: map<int, seq<RWNode>>)
      requires Linked() && IsQueue(edges, k, q) && ReadsPlaced(edges, k, q, s0, Now(), m, g)
      modifies this`aborted
      ensures Linked() && Classified(k, q, q.wSlice, old(Now()), Now(), m, rmw, others)
      ensures ClassifyPhase(edges, q.wSlice, old(Now()), m) == Classes(Now(), rmw, others)
    {
      hide Classified, ReadsPlaced, IsQueue, Rmw, ReadElsewhere, Determined, ReadHere, ReadThere;
      ghost var s1 := Now();
      rmw, others := [], map[];
      NothingClassified(k, q, s1, m);
      var i := 0;
      while i < |q.wSlice|
        invariant 0 <= i <= |q.wSlice| && Linked()
        invariant Classified(k, q, q.wSlice[..i], s1, Now(), m, rmw, others)
        invariant ClassifyPhase(edges, q.wSlice[..i], s1, m) == Classes(Now(), rmw, others)
      {
        var w := q.wSlice[i];
        ghost var ws, s := q.wSlice[..i], Now();
        NextWrite(edges, k, q, i);
        assert q.wSlice[..i + 1] == ws + [w] && q.wSlice[..i + 1][..i] == ws;
        if SequenceOf(w) == 0 || w.tx in aborted {
          UndeterminedWrite(s, w.tx);
          ClassifyUndetermined(k, q, ws, s1, s, m, rmw, others, w);
        } else {
          WriteIsDetermined(s, w.tx);
          rmw, others := ClassifyOne(k, q, m, s0, s1, g, i, rmw, others);
        }
        i := i + 1;
      }
      assert q.wSlice[..i] == q.wSlice;
    }

    method ClassifyOne(k: Key, q: Queue, m: int, ghost s0: State, ghost s1: State, ghost g: int, i: nat,
                       rmw0: seq<RWNode>, others0: map<int, seq<RWNode>>)
      returns (rmw: seq<RWNode>, others: map<int, seq<RWNode>>)
      requires Linked() && IsQueue(edges, k, q) && ReadsPlaced(edges, k, q, s0, s1, m, g) && i < |q.wSlice|
      requires Classified(k, q, q.wSlice[..i], s1, Now(), m, rmw0, others0) && Determined(Now(), q.wSlice[i].tx)
      modifies this`aborted
      ensures Linked() && Classified(k, q, q.wSlice[..i + 1], s1, Now(), m, rmw, others)
      ensures ClassifyStep(edges, Classes(old(Now()), rmw0, others0), q.wSlice[i], m) == Classes(Now(), rmw, others)
    {
      hide Classified, ReadsPlaced, IsQueue, Rmw, ReadElsewhere, Determined, ReadHere, ReadThere;
      var w := q.wSlice[i];
      ghost var ws, s := q.wSlice[..i], Now();
      rmw, others := rmw0, others0;
      NextWrite(edges, k, q, i);
      assert q.wSlice[..i + 1] == ws + [w];
      RmwIsBelow(edges, k, q, ws, s0, s1, s, m, g, rmw0, others0, w.tx);
      if SequenceOf(w) <= m {
        var isSame, isBefore := LookBack(w);
        SameMeansRmw(edges, k, q, s, w);
        if isSame {
          rmw := rmw + [w];
          ClassifyRmw(k, q, ws, s1, s, m, rmw0, others0, w);
        } else if isBefore {
          aborted := aborted + {w.tx};
          BeforeMeansElsewhere(edges, s, k, w);
          ClassifyAbort(k, q, ws, s1, s, m, rmw0, others0, w);
        } else {
          others := Filed(others, SequenceOf(w), w);
          ClassifyOther(k, q, ws, s1, s, m, rmw0, others0, w);
        }
      } else {
        others := Filed(others, SequenceOf(w), w);
        ClassifyOther(k, q, ws, s1, s, m, rmw0, others0, w);
      }
    }

    /** Places the read-modify-writes right above the reads. */
    method PlaceRmws(rmw: seq<RWNode>, m: int) returns (mw: int, mr: int)
      requires Linked() && OwnTransactions(rmw) && forall w :: w in rmw ==> HasNode(edges, w)
      modifies this`sequence, this`isAssigned, this`num, this`aborted
      ensures Linked() && RmwPlaced(keepsRmw, old(Now()), Now(), Base(m), rmw, mw)
      ensures mr == if rmw == [] then m else mw
      ensures RmwPhase(keepsRmw, rmw, old(Now()), Base(m)) == Mark(Now(), mw)
    {
      hide RmwPlaced, RmwPhase, HasNode, Put;
      ghost var s2 := Now();
      mw, mr := Base(m), m;
      NothingPlaced(keepsRmw, s2, mw);
      NoRmw(keepsRmw, s2, mw);
      assert rmw[..0] == [];
      var i := 0;
      while i < |rmw|
        invariant 0 <= i <= |rmw| && Linked()
        invariant RmwPlaced(keepsRmw, s2, Now(), Base(m), rmw[..i], mw)
        invariant mr == if i == 0 then m else mw
        invariant RmwPhase(keepsRmw, rmw[..i], s2, Base(m)) == Mark(Now(), mw)
      {
        var w := rmw[i];
        ghost var s := Now();
        assert rmw[..i + 1] == rmw[..i] + [w] && w in rmw;
        RmwNext(keepsRmw, rmw, s2, Base(m), i);
        if i == 0 || keepsRmw {
          assert OwnTransactions(rmw[..i + 1]);
          PlaceRmw(keepsRmw, s2, s, Base(m), rmw[..i], mw, w);
          Assign(w, mw + 1);
          mw := mw + 1;
          mr := mw;
        } else {
          AbortRmw(s2, s, Base(m), rmw[..i], mw, w);
          aborted := aborted + {w.tx};
        }
        i := i + 1;
      }
      assert rmw[..i] == rmw;
    }

    /** The first number above `mw` that no kept write has. */
    method NextFree(keys: seq<int>, mw: int, ghost h: int) returns (x: int)
      requires mw <= h && h + 1 < MAX_INT32 && forall n :: n in keys ==> n <= h
      ensures mw < x <= h + 1 && x !in Elements(keys) && forall y :: mw < y < x ==> y in Elements(keys)
    {
      x := mw + 1;
      while x < MAX_INT32 && x in keys
        invariant mw < x <= h + 1 && forall y :: mw < y < x ==> y in keys
        decreases MAX_INT32 - x
      {
        x := x + 1;
      }
    }

    /** Numbers the writes that are still undetermined. */
    method PlaceNewWrites(k: Key, q: Queue, keys: seq<int>, mw0: int, ghost g: int, ghost used0: set<RWNode>)
      returns (mw: int, ghost used: set<RWNode>)
      requires Linked() && IsQueue(edges, k, q) && mw0 <= g + |used0| && g + |q.wSlice| < MAX_INT32
      requires INITIAL_SEQUENCE - 1 <= mw0 && Numbered(edges, Now(), g + |used0|)
      requires (forall n :: n in keys ==> n <= g) && Spent(q.wSlice, 0, used0, used0, Now())
      requires forall w :: w in used0 ==> Num(Now(), w.tx) != 0
      modifies this`sequence, this`isAssigned, this`num
      ensures Linked() && NewPlaced(k, q.wSlice, Elements(keys), old(Now()), Now(), mw0, mw)
      ensures Numbered(edges, Now(), g + |used|) && mw <= g + |used|
      ensures Spent(q.wSlice, |q.wSlice|, used0, used, old(Now()))
      ensures NewPhase(Elements(keys), q.wSlice, old(Now()), mw0) == Mark(Now(), mw)
    {
      hide NewPlaced, Numbered, IsQueue, Spent, Elements;
      ghost var s3 := Now();
      mw, used := mw0, used0;
      NothingNew(k, q.wSlice, Elements(keys), s3, mw);
      var i := 0;
      while i < |q.wSlice|
        invariant 0 <= i <= |q.wSlice| && Linked() && aborted == old(aborted)
        invariant NewPlaced(k, q.wSlice[..i], Elements(keys), s3, Now(), mw0, mw)
        invariant Numbered(edges, Now(), g + |used|) && mw <= g + |used|
        invariant Spent(q.wSlice, i, used0, used, s3)
        invariant NewPhase(Elements(keys), q.wSlice[..i], s3, mw0) == Mark(Now(), mw)
      {
        assert q.wSlice[..i + 1][..i] == q.wSlice[..i];
        mw, used := PlaceNewWrite(k, q, keys, i, mw0, mw, g, used0, used, s3);
        i := i + 1;
      }
      assert q.wSlice[..i] == q.wSlice;
    }

    method PlaceNewWrite(k: Key, q: Queue, keys: seq<int>, i: nat, ghost mw0: int, mw1: int, ghost g: int,
                         ghost used0: set<RWNode>, ghost used1: set<RWNode>, ghost s3: State)
      returns (mw: int, ghost used: set<RWNode>)
      requires Linked() && IsQueue(edges, k, q) && i < |q.wSlice| && g + |q.wSlice| < MAX_INT32
      requires INITIAL_SEQUENCE - 1 <= mw0 && mw1 <= g + |used1| && Numbered(edges, Now(), g + |used1|)
      requires forall n :: n in keys ==> n <= g
      requires NewPlaced(k, q.wSlice[..i], Elements(keys), s3, Now(), mw0, mw1) && Spent(q.wSlice, i, used0, used1, s3)
      requires forall w :: w in used0 ==> Num(s3, w.tx) != 0
      modifies this`sequence, this`isAssigned, this`num
      ensures Linked() && NewPlaced(k, q.wSlice[..i + 1], Elements(keys), s3, Now(), mw0, mw)
      ensures Numbered(edges, Now(), g + |used|) && mw <= g + |used| && Spent(q.wSlice, i + 1, used0, used, s3)
      ensures Mark(Now(), mw) == NewStep(Elements(keys), q.wSlice[i], Mark(old(Now()), mw1))
    {
      hide NewPlaced, Numbered, IsQueue, Spent, Elements, Linked, HasNode, Num;
      mw, used := mw1, used1;
      var w := q.wSlice[i];
      ghost var ws, s, ks := q.wSlice[..i], Now(), Elements(keys);
      NextWrite(edges, k, q, i);
      StillUndetermined(edges, k, q, i, ks, s3, s, mw0, mw);
      assert q.wSlice[..i + 1] == ws + [w];
      if SequenceOf(w) == 0 {
        Spend(q.wSlice, i, used0, used, s3);
        var x := NextFree(keys, mw, g + |used|);
        FirstFreeIs(ks, mw + 1, x);
        PlaceNew(k, ws, ks, s3, s, mw0, mw, w, x);
        StaysAbove(k, ws, ks, s3, s, mw0, mw);
        PutNumbered(edges, s, g + |used|, w, x, g + |used + {w}|);
        Assign(w, x);
        mw, used := x, used + {w};
      } else {
        SkipNew(k, ws, ks, s3, s, mw0, mw, w);
        SpendNothing(q.wSlice, i, used0, used, s3);
      }
    }

    /** Moves one write behind everything. */
    method Move(k: Key, q: Queue, ww: RWNode, mr: int, mw0: int, ghost n: int, ghost bound: int,
                ghost s4: State, ghost done: set<RWNode>, ghost h: int)
      returns (mw: int)
      requires Linked() && Settling(k, q, s4, Now(), done, mr, mw0) && Numbered(edges, Now(), h)
      requires bound <= mw0 <= h && INITIAL_SEQUENCE - 1 <= mw0 && s4.num.Keys == edges.Keys
      requires Movable(k, q, s4, n, bound, ww) && HasNode(edges, ww) && ww !in done
      modifies this`sequence, this`isAssigned, this`num
      ensures Linked() && Settling(k, q, s4, Now(), done + {ww}, mr, mw) && mw == mw0 + 1
      ensures Now() == Put(old(Now()), ww, mw)
      ensures Numbered(edges, Now(), h + 1)
    {
      hide Settling, Numbered, Movable;
      ghost var s := Now();
      StillMovable(k, q, s4, n, bound, mw0, ww);
      Settle(k, q, s4, s, done, mr, mw0, ww);
      PutNumbered(edges, s, h, ww, mw0 + 1, h + 1);
      Assign(ww, mw0 + 1);
      mw := mw0 + 1;
    }

    /** Moves the writes of one bucket behind everything, save a first one that is
        above the reads already. */
    method MoveBucket(k: Key, q: Queue, n: int, bucket: seq<RWNode>, mr: int, mw0: int,
                      ghost s4: State, ghost done0: set<RWNode>, ghost used0: set<RWNode>, ghost g: int)
      returns (mw: int, ghost used: set<RWNode>)
      requires Linked() && Settling(k, q, s4, Now(), done0, mr, mw0) && Numbered(edges, Now(), g + |used0|)
      requires s4.num.Keys == edges.Keys
      requires mw0 <= g + |used0| && INITIAL_SEQUENCE - 1 <= mw0
      requires BucketOpen(edges, k, q, s4, n, bucket, mr, mw0, done0, used0)
      modifies this`sequence, this`isAssigned, this`num
      ensures Linked() && Settling(k, q, s4, Now(), done0 + Elements(bucket), mr, mw) && mw0 <= mw
      ensures Numbered(edges, Now(), g + |used|) && mw <= g + |used|
      ensures used0 <= used <= used0 + Elements(bucket)
      ensures MoveBucketOf(bucket, n > mr, old(Now()), mw0) == Mark(Now(), mw)
    {
      hide Settling, Numbered, HasNode, Elements, Movable, BucketOpen, Linked, MoveBucketOf, Put;
      ghost var s := Now();
      mw, used := mw0, used0;
      NoNodes(bucket, done0);
      NoMove(n > mr, s, mw0);
      assert bucket[..0] == [];
      var i := 0;
      while i < |bucket|
        invariant 0 <= i <= |bucket| && Linked() && aborted == old(aborted)
        invariant Settling(k, q, s4, Now(), done0 + Elements(bucket[..i]), mr, mw) && mw0 <= mw
        invariant Numbered(edges, Now(), g + |used|) && mw <= g + |used|
        invariant used0 <= used <= used0 + Elements(bucket[..i])
        invariant MoveBucketOf(bucket[..i], n > mr, s, mw0) == Mark(Now(), mw)
      {
        MoveNext(bucket, n > mr, s, mw0, i);
        var ww := bucket[i];
        ghost var done := done0 + Elements(bucket[..i]);
        NextInBucket(edges, k, q, s4, n, bucket, mr, mw0, done0, used0, i, used);
        if !(n > mr && i == 0) {
          mw := Move(k, q, ww, mr, mw, n, mw0, s4, done, g + |used|);
          used := used + {ww};
        }
        i := i + 1;
      }
      assert bucket[..i] == bucket;
    }

    /** Moves the remaining writes, bucket by bucket in increasing order. */
    method MoveOthers(k: Key, q: Queue, keys: seq<int>, others: map<int, seq<RWNode>>, mr: int, mw0: int,
                      ghost p: Pass, ghost g: int, ghost used4: set<RWNode>)
      returns (mw: int, ghost done: set<RWNode>)
      requires Linked() && Passed(edges, keepsRmw, k, q, g, p) && Now() == p.s4 && others == p.others && mr == p.mr
      requires p.mw4 <= mw0 <= g + |used4| && Above(others, mw0) && Numbered(edges, Now(), g + |used4|)
      requires Elements(keys) == others.Keys && (forall i, j :: 0 <= i < j < |keys| ==> keys[i] < keys[j])
      requires UsedBefore(k, q, p, used4)
      modifies this`sequence, this`isAssigned, this`num
      ensures Linked() && Settling(k, q, p.s4, Now(), done, mr, mw) && AllSettled(keepsRmw, q, p, done)
      ensures Numbered(edges, Now(), g + |q.wSlice|)
      ensures MovePhase(keys, others, mr, old(Now()), mw0) == Mark(Now(), mw)
    {
      hide Settling, Numbered, HasNode, Elements, Passed, AllSettled, Kept, Moving, BucketOpen, UsedBefore, Above, MoveBucketOf;
      mw, done := mw0, Kept(keepsRmw, q, p);
      ghost var used := used4;
      SettlingStarts(edges, keepsRmw, k, q, g, p, mw);
      NothingMoved(edges, keepsRmw, k, q, g, p, keys, used4);
      BoundsBefore(edges, keepsRmw, k, q, g, p);
      var a := 0;
      while a < |keys|
        invariant 0 <= a <= |keys| && Linked() && aborted == old(aborted)
        invariant Settling(k, q, p.s4, Now(), done, mr, mw) && mw0 <= mw
        invariant Numbered(edges, Now(), g + |used|) && mw <= g + |used|
        invariant Moving(keepsRmw, k, q, p, keys, a, done, used, used4)
        invariant MovePhase(keys[..a], others, mr, p.s4, mw0) == Mark(Now(), mw)
      {
        assert keys[..a + 1][..a] == keys[..a];
        BucketReady(edges, keepsRmw, k, q, g, p, keys, a, done, used, used4, mw0, mw);
        var n := keys[a];
        ghost var used0 := used;
        mw, used := MoveBucket(k, q, n, others[n], mr, mw, p.s4, done, used, g);
        MovingNext(edges, keepsRmw, k, q, g, p, keys, a, done, used0, used, used4);
        done := done + Elements(others[n]);
        a := a + 1;
      }
      assert keys[..a] == keys;
      MovedAll(edges, keepsRmw, k, q, g, p, keys, done, used, used4);
      NumberedMore(edges, Now(), g + |used|, g + |q.wSlice|);
    }

    /** `sortInQueue`: one queue, from its reads to its last write. */
    method SortInQueue(k: Key, ghost g: int) returns (ghost m: int)
      requires Linked() && k in queues && IsQueue(edges, k, queues[k]) && queues[k].maxRead == 0
      requires Numbered(edges, Now(), g) && g + |queues[k].wSlice| < MAX_INT32
      modifies this
      ensures Linked() && queues.Keys == old(queues).Keys
      ensures forall k' :: k' in queues && k' != k ==> queues[k'] == old(queues)[k']
      ensures queues[k].rSlice == old(queues)[k].rSlice && queues[k].wSlice == old(queues)[k].wSlice
      ensures QueueSorted(edges, keepsRmw, k, old(queues)[k], old(Now()), Now(), m, queues[k].maxRead,
                          g + |old(queues)[k].wSlice|)
      ensures SortsTo(edges, keepsRmw, old(queues)[k], old(Now()), Result(Now(), queues[k].maxRead, queues[k].maxWrite))
      ensures SortedExactly(edges, keepsRmw, k, old(queues)[k], old(Now()),
                            Result(Now(), queues[k].maxRead, queues[k].maxWrite), m)
    {
      hide Settling, Numbered, IsQueue, AllSettled, QueueSorted, NewPlaced, RmwPlaced, Classified, ReadsPlaced,
           UsedBefore, Above, Elements, Spent, Placed, HasNode, OwnTransactions, Num, Passed, ReadPhase, ClassifyPhase,
           RmwPhase, NewPhase, MovePhase, SortsTo, Linked, SortedExactly;
      var q := queues[k];
      ghost var s0 := Now();
      var maxRead := PlaceReads(k, q, g);
      ghost var s1 := Now();
      var rmw, others := Classify(k, q, maxRead, s0, g);
      ghost var s2 := Now();
      m := maxRead;
      RmwsReady(edges, k, q, s0, s1, s2, m, g, rmw, others);
      var keys := SortedNumbers(others.Keys);
      assert Elements(keys) == others.Keys by { SameRange(keys, others.Keys); }
      var mw, mr := PlaceRmws(rmw, maxRead);
      ghost var s3, mw3, used3 := Now(), mw, Elements(Placed(keepsRmw, rmw));
      EveryoneNumbered();
      RmwsNumbered(edges, keepsRmw, k, q, s0, s1, s2, s3, m, g, rmw, others, mw);
      ghost var used;
      mw, used := PlaceNewWrites(k, q, keys, mw, g, used3);
      ghost var p := Pass(s0, s1, s2, s3, Now(), m, mr, mw3, mw, rmw, others);
      UsedAfter(edges, keepsRmw, k, q, g, p, used3, used);
      PassIsMade(edges, keepsRmw, k, q, g, p);
      assert |keys| > 0 ==> keys[|keys| - 1] in keys && keys[|keys| - 1] in others.Keys;
      if |keys| > 0 && mw < keys[|keys| - 1] {
        mw := keys[|keys| - 1];
      }
      LastIsMost(keys, others, mw);
      ghost var done;
      mw, done := MoveOthers(k, q, keys, others, mr, mw, p, g, used);
      QueueIsSorted(edges, keepsRmw, k, q, g, p, Now(), done, mw, g + |q.wSlice|);
      SortsByPhases(edges, keepsRmw, q, p, keys, Now(), mw);
      ghost var m' := SortIsExact(edges, keepsRmw, k, q, s0, Result(Now(), mr, mw), g);
      queues := queues[k := q.(maxRead := mr, maxWrite := mw)];
    }
  }

  ghost predicate WithinBounds(s: State, rs: seq<RWNode>, min: int, max: int) {
    forall r :: r in rs ==> min <= Num(s, r.tx) <= max
  }

  lemma NoBounds(s: State, rs: seq<RWNode>, min: int, max: int)
    ensures WithinBounds(s, rs[..0], min, max)
  {
  }

  lemma MoreBounds(s: State, rs: seq<RWNode>, i: nat, min: int, max: int)
    requires i < |rs| && WithinBounds(s, rs[..i], min, max)
    ensures
      var x := Num(s, rs[i].tx);
      WithinBounds(s, rs[..i + 1], if x < min then x else min, if x > max then x else max)
    ensures Elements(rs[..i + 1]) == Elements(rs[..i]) + {rs[i]}
  {
    assert rs[..i + 1] == rs[..i] + [rs[i]];
  }

  lemma NumberInRange(edges: Edges, s: State, s': State, g: int, t: TxId)
    requires Numbered(edges, s, g) && Determined(s, t) && s'.num == s.num
    ensures INITIAL_SEQUENCE <= Num(s', t) == Num(s, t) <= g
  {
  }

  lemma SurveyMarks(q: Queue, s0: State, s1: State, tmp: seq<RWNode>, min: int, max: int)
    requires forall r :: r in tmp <==> r in q.rSlice && Determined(s0, r.tx)
    requires s1.marked == s0.marked + Elements(tmp) && WithinBounds(s0, tmp, min, max)
    ensures forall n :: n in s1.marked <==> n in s0.marked || (n in q.rSlice && Determined(s0, n.tx))
    ensures forall r :: r in q.rSlice && Determined(s0, r.tx) ==> min <= Num(s0, r.tx) <= max
  {
    hide Determined, Num;
  }

  lemma SameNumbers(edges: Edges, s: State, s': State, g: int)
    requires Numbered(edges, s, g) && s'.num == s.num && s'.aborted == s.aborted
    ensures Numbered(edges, s', g)
  {
    assert forall t :: Num(s', t) == Num(s, t);
  }

  lemma NothingRead(edges: Edges, k: Key, q: Queue, s: State, x: int, g: int)
    requires Numbered(edges, s, g)
    ensures Reading(edges, k, q, q.rSlice[..0], s, s, x, g)
  {
  }

  /** The next reader is a node of the queue not yet looked at. */
  lemma NextRead(edges: Edges, k: Key, q: Queue, i: nat, s0: State, s: State, x: int, g: int)
    requires IsQueue(edges, k, q) && i < |q.rSlice| && Reading(edges, k, q, q.rSlice[..i], s0, s, x, g)
    ensures
      var r := q.rSlice[i];
      && r in q.rSlice && r !in q.rSlice[..i] && HasNode(edges, r) && (Num(s, r.tx) == 0 ==> !Determined(s0, r.tx))
      && forall v :: v in q.rSlice[..i] + [r] ==> v == RWNode(v.tx, k, Read)
  {
    hide Numbered;
    forall v | v in q.rSlice[..i] + [q.rSlice[i]] ensures v in q.rSlice {
    }
  }

  // ------------------------------------------------------- steps on values

  lemma NextWrite(edges: Edges, k: Key, q: Queue, i: nat)
    requires IsQueue(edges, k, q) && i < |q.wSlice|
    ensures
      var w := q.wSlice[i];
      && w in q.wSlice && w !in q.wSlice[..i] && HasNode(edges, w)
      && forall v :: v in q.wSlice[..i] + [w] ==> v == RWNode(v.tx, k, Write)
  {
    forall v | v in q.wSlice[..i] + [q.wSlice[i]] ensures v in q.wSlice {
    }
  }

  lemma NothingClassified(k: Key, q: Queue, s: State, m: int)
    ensures Classified(k, q, q.wSlice[..0], s, s, m, [], map[])
  {
  }

  lemma UndeterminedWrite(s: State, t: TxId)
    requires Num(s, t) == 0 || t in s.aborted
    ensures !Determined(s, t)
  {
  }

  lemma WriteIsDetermined(s: State, t: TxId)
    requires Num(s, t) != 0 && t !in s.aborted
    ensures Determined(s, t)
  {
  }

  /** A surviving read-modify-write has its number from the reads, and its read
      node is assigned. */
  lemma RmwIsBelow(edges: Edges, k: Key, q: Queue, ws: seq<RWNode>, s0: State, s1: State, s: State, m: int, g: int,
                   rmw: seq<RWNode>, others: map<int, seq<RWNode>>, t: TxId)
    requires ReadsPlaced(edges, k, q, s0, s1, m, g) && Classified(k, q, ws, s1, s, m, rmw, others) && Determined(s, t)
    ensures Rmw(k, q, t) ==> Num(s, t) <= m && RWNode(t, k, Read) in s.marked
  {
    hide Numbered, Bucketed, InOrder, ReadElsewhere;
  }

  lemma SameMeansRmw(edges: Edges, k: Key, q: Queue, s: State, w: RWNode)
    requires IsQueue(edges, k, q) && w in q.wSlice
    requires Rmw(k, q, w.tx) ==> RWNode(w.tx, k, Read) in s.marked
    ensures ReadHere(edges, s, w) <==> Rmw(k, q, w.tx)
  {
    assert w == RWNode(w.tx, k, Write);
    if Rmw(k, q, w.tx) {
      assert HasNode(edges, RWNode(w.tx, k, Read));
    }
  }

  lemma BeforeMeansElsewhere(edges: Edges, s: State, k: Key, w: RWNode)
    requires ReadThere(edges, s, w) && w.key == k
    ensures ReadElsewhere(s, k, w.tx)
  {
  }

  lemma NothingPlaced(keep: bool, s: State, base: int)
    ensures RmwPlaced(keep, s, s, base, [], base)
  {
  }

  lemma NothingNew(k: Key, ws: seq<RWNode>, keys: set<int>, s: State, mw: int)
    ensures NewPlaced(k, ws[..0], keys, s, s, mw, mw)
  {
  }

  lemma StillUndetermined(edges: Edges, k: Key, q: Queue, i: nat, keys: set<int>, s0: State, s: State, mw0: int, mw: int)
    requires IsQueue(edges, k, q) && i < |q.wSlice| && NewPlaced(k, q.wSlice[..i], keys, s0, s, mw0, mw)
    ensures Num(s, q.wSlice[i].tx) == Num(s0, q.wSlice[i].tx)
  {
    NextWrite(edges, k, q, i);
  }

  lemma StaysAbove(k: Key, ws: seq<RWNode>, keys: set<int>, s0: State, s: State, mw0: int, mw: int)
    requires NewPlaced(k, ws, keys, s0, s, mw0, mw)
    ensures mw0 <= mw
  {
  }

  lemma RoomLeft(ws: seq<RWNode>, used: set<RWNode>, w: RWNode)
    requires (forall v :: v in used ==> v in ws) && w in ws && w !in used
    ensures |used + {w}| == |used| + 1 <= |ws|
  {
    Fits(ws, used + {w});
  }

  /** The writes that took a number of their own so far. */
  ghost predicate Spent(ws: seq<RWNode>, i: nat, used0: set<RWNode>, used: set<RWNode>, s: State) {
    && i <= |ws| && used0 <= used
    && (forall w :: w in used ==> w in ws && (w in used0 || (Num(s, w.tx) == 0 && w in ws[..i])))
  }

  lemma SpendNothing(ws: seq<RWNode>, i: nat, used0: set<RWNode>, used: set<RWNode>, s: State)
    requires i < |ws| && Spent(ws, i, used0, used, s)
    ensures Spent(ws, i + 1, used0, used, s)
  {
    assert ws[..i + 1] == ws[..i] + [ws[i]];
  }

  lemma Spend(ws: seq<RWNode>, i: nat, used0: set<RWNode>, used: set<RWNode>, s: State)
    requires i < |ws| && Spent(ws, i, used0, used, s) && Num(s, ws[i].tx) == 0 && ws[i] !in ws[..i]
    requires forall w :: w in used0 ==> Num(s, w.tx) != 0
    ensures Spent(ws, i + 1, used0, used + {ws[i]}, s) && ws[i] !in used
    ensures |used + {ws[i]}| == |used| + 1 <= |ws|
  {
    assert ws[..i + 1] == ws[..i] + [ws[i]];
    RoomLeft(ws, used, ws[i]);
  }

  /** A bucket before its turn: its writes may be moved and took no number yet; only
      a first one above the reads is settled already. */
  ghost predicate BucketOpen(edges: Edges, k: Key, q: Queue, s4: State, n: int, bucket: seq<RWNode>, mr: int, mw: int,
                             done: set<RWNode>, used: set<RWNode>) {
    && Distinct(bucket)
    && (forall w :: w in bucket ==> Movable(k, q, s4, n, mw, w) && HasNode(edges, w) && w !in used)
    && (forall i :: 0 <= i < |bucket| ==> (bucket[i] in done <==> n > mr && i == 0))
  }

  lemma NextInBucket(edges: Edges, k: Key, q: Queue, s4: State, n: int, bucket: seq<RWNode>, mr: int, mw: int,
                     done: set<RWNode>, used0: set<RWNode>, i: nat, used: set<RWNode>)
    requires BucketOpen(edges, k, q, s4, n, bucket, mr, mw, done, used0) && i < |bucket|
    requires used0 <= used <= used0 + Elements(bucket[..i])
    ensures
      var w, done' := bucket[i], done + Elements(bucket[..i]);
      && Movable(k, q, s4, n, mw, w) && HasNode(edges, w) && w !in used && |used + {w}| == |used| + 1
      && (w in done' <==> n > mr && i == 0) && done' + {w} == done + Elements(bucket[..i + 1])
      && used0 <= used + {w} <= used0 + Elements(bucket[..i + 1]) && Elements(bucket[..i]) <= Elements(bucket[..i + 1])
      && (w in done' ==> done' == done + Elements(bucket[..i + 1]))
  {
    hide Movable, HasNode;
    NextNode(bucket, i);
    var w := bucket[i];
    assert w in bucket;
    assert used + {w} - {w} == used;
  }

  lemma NoNodes(bucket: seq<RWNode>, done: set<RWNode>)
    ensures Elements(bucket[..0]) == {} && done + {} == done
  {
  }

  lemma NextNode(bucket: seq<RWNode>, i: nat)
    requires i < |bucket| && Distinct(bucket)
    ensures bucket[i] in bucket && bucket[i] !in Elements(bucket[..i])
    ensures Elements(bucket[..i + 1]) == Elements(bucket[..i]) + {bucket[i]}
  {
    assert bucket[..i + 1] == bucket[..i] + [bucket[i]];
  }

  /** A determined write, not a read-modify-write, that may still be moved. */
  ghost predicate Movable(k: Key, q: Queue, s: State, n: int, mw: int, w: RWNode) {
    w == RWNode(w.tx, k, Write) && !Rmw(k, q, w.tx) && Num(s, w.tx) == n && n <= mw && w.tx in s.num
  }

  lemma StillMovable(k: Key, q: Queue, s: State, n: int, mw: int, mw': int, w: RWNode)
    requires Movable(k, q, s, n, mw, w) && mw <= mw'
    ensures w == RWNode(w.tx, k, Write) && !Rmw(k, q, w.tx) && Num(s, w.tx) <= mw' && w.tx in s.num
  {
  }

  predicate IntLe(a: int, b: int) {
    a <= b
  }

  /** The numbers in increasing order. */
  method SortedNumbers(numbers: set<int>) returns (keys: seq<int>)
    ensures (forall n :: n in keys <==> n in numbers) && forall i, j :: 0 <= i < j < |keys| ==> keys[i] < keys[j]
  {
    var rest, found: seq<int> := numbers, [];
    while rest != {}
      invariant Distinct(found) && rest <= numbers
      invariant forall n :: n in found <==> n in numbers && n !in rest
      decreases rest
    {
      SetHasMember(rest);
      var n :| n in rest;
      rest, found := rest - {n}, found + [n];
    }
    IntOrder();
    keys := Sort(IntLe, found);
    SortKeeps(IntLe, found);
    forall i, j | 0 <= i < j < |keys| ensures keys[i] < keys[j] {
      assert IntLe(keys[i], keys[j]);
    }
  }

  lemma SetHasMember(s: set<int>)
    requires s != {}
    ensures exists n :: n in s
  {
    assert (forall n :: n !in s) ==> s == {};
  }

  lemma IntOrder()
    ensures TotalOrder(IntLe)
  {
  }

  // --------------------------------------------------- the last phase on values

  /** What took numbers before the moves: read-modify-writes and new writes. */
  ghost predicate UsedBefore(k: Key, q: Queue, p: Pass, used: set<RWNode>) {
    forall w :: w in used ==> w in q.wSlice && (Rmw(k, q, w.tx) || Num(p.s3, w.tx) == 0)
  }

  /** The buckets of `keys[..a]` are settled; the others are as they were. */
  ghost predicate Moving(keep: bool, k: Key, q: Queue, p: Pass, keys: seq<int>, a: nat,
                         done: set<RWNode>, used: set<RWNode>, used4: set<RWNode>) {
    && a <= |keys| && Kept(keep, q, p) <= done && used4 <= used
    && (forall w :: w in done ==> w in q.wSlice && (w in Kept(keep, q, p) || Num(p.s4, w.tx) in keys[..a]))
    && (forall w :: w in used ==> w in q.wSlice && (w in used4 || Num(p.s4, w.tx) in keys[..a]))
    && (forall b, w :: 0 <= b < a && keys[b] in p.others && w in p.others[keys[b]] ==> w in done)
  }

  lemma NothingMoved(edges: Edges, keep: bool, k: Key, q: Queue, g: int, p: Pass, keys: seq<int>, used4: set<RWNode>)
    requires Passed(edges, keep, k, q, g, p) && UsedBefore(k, q, p, used4)
    ensures Moving(keep, k, q, p, keys, 0, Kept(keep, q, p), used4, used4)
  {
    hide Passed;
  }

  lemma BoundsBefore(edges: Edges, keep: bool, k: Key, q: Queue, g: int, p: Pass)
    requires Passed(edges, keep, k, q, g, p)
    ensures INITIAL_SEQUENCE - 1 <= Base(p.m) <= p.mw3 <= p.mw4 && p.s4.num.Keys >= {}
  {
    hide Numbered, IsQueue, Classified, RmwPlaced, NewPlaced;
    MarkIsBelow(edges, keep, k, q, g, p);
    MaxIsBelow(edges, k, q, p.s0, p.s1, p.m, g);
  }

  lemma BucketReady(edges: Edges, keep: bool, k: Key, q: Queue, g: int, p: Pass, keys: seq<int>, a: nat,
                    done: set<RWNode>, used: set<RWNode>, used4: set<RWNode>, mw0: int, mw: int)
    requires Passed(edges, keep, k, q, g, p) && Moving(keep, k, q, p, keys, a, done, used, used4) && a < |keys|
    requires Elements(keys) == p.others.Keys && (forall i, j :: 0 <= i < j < |keys| ==> keys[i] < keys[j])
    requires UsedBefore(k, q, p, used4) && Above(p.others, mw0) && mw0 <= mw
    requires p.s4.num.Keys == edges.Keys
    ensures keys[a] in p.others && BucketOpen(edges, k, q, p.s4, keys[a], p.others[keys[a]], p.mr, mw, done, used)
  {
    hide Passed, Moving, UsedBefore, Kept, Rmw, Movable, Num;
    var n := keys[a];
    assert n in Elements(keys);
    var bucket := p.others[n];
    IsOneBucket(edges, keep, k, q, g, p, n);
    forall w | w in bucket ensures Movable(k, q, p.s4, n, mw, w) && HasNode(edges, w) && w !in used {
      MovableInBucket(edges, keep, k, q, g, p, n, w, mw);
      NotUsedYet(edges, keep, k, q, g, p, keys, a, done, used, used4, w);
    }
    forall i | 0 <= i < |bucket| ensures bucket[i] in done <==> n > p.mr && i == 0 {
      assert bucket[i] in bucket;
      DoneIfHead(edges, keep, k, q, g, p, keys, a, done, used, used4, i);
    }
  }

  lemma IsOneBucket(edges: Edges, keep: bool, k: Key, q: Queue, g: int, p: Pass, n: int)
    requires Passed(edges, keep, k, q, g, p) && n in p.others
    ensures Distinct(p.others[n])
  {
    hide Numbered, IsQueue, ReadsPlaced, RmwPlaced, NewPlaced, InOrder, Rmw;
    assert IsBucket(k, q, q.wSlice, p.s2, n, p.others[n]);
  }

  lemma MovableInBucket(edges: Edges, keep: bool, k: Key, q: Queue, g: int, p: Pass, n: int, w: RWNode, mw: int)
    requires Passed(edges, keep, k, q, g, p) && n in p.others && w in p.others[n] && n <= mw
    requires p.s4.num.Keys == edges.Keys
    ensures Movable(k, q, p.s4, n, mw, w) && HasNode(edges, w)
  {
    hide Numbered, Classified, ReadsPlaced, RmwPlaced, NewPlaced, Rmw;
    OtherRange(edges, keep, k, q, g, p, n, w);
  }

  lemma NotUsedYet(edges: Edges, keep: bool, k: Key, q: Queue, g: int, p: Pass, keys: seq<int>, a: nat,
                   done: set<RWNode>, used: set<RWNode>, used4: set<RWNode>, w: RWNode)
    requires Passed(edges, keep, k, q, g, p) && Moving(keep, k, q, p, keys, a, done, used, used4) && a < |keys|
    requires (forall i, j :: 0 <= i < j < |keys| ==> keys[i] < keys[j]) && UsedBefore(k, q, p, used4)
    requires keys[a] in p.others && w in p.others[keys[a]]
    ensures w !in used
  {
    hide Passed, Kept, Rmw, Num;
    OtherRange(edges, keep, k, q, g, p, keys[a], w);
  }

  lemma DoneIfHead(edges: Edges, keep: bool, k: Key, q: Queue, g: int, p: Pass, keys: seq<int>, a: nat,
                   done: set<RWNode>, used: set<RWNode>, used4: set<RWNode>, i: nat)
    requires Passed(edges, keep, k, q, g, p) && Moving(keep, k, q, p, keys, a, done, used, used4) && a < |keys|
    requires forall i, j :: 0 <= i < j < |keys| ==> keys[i] < keys[j]
    requires keys[a] in p.others && i < |p.others[keys[a]]| && Distinct(p.others[keys[a]])
    ensures p.others[keys[a]][i] in done <==> keys[a] > p.mr && i == 0
  {
    hide Passed, Kept, Rmw, Num;
    var n := keys[a];
    var w := p.others[n][i];
    OtherRange(edges, keep, k, q, g, p, n, w);
    HeadIsKept(edges, keep, k, q, g, p, n, i);
    assert n !in keys[..a];
  }

  lemma HeadIsKept(edges: Edges, keep: bool, k: Key, q: Queue, g: int, p: Pass, n: int, i: nat)
    requires Passed(edges, keep, k, q, g, p) && n in p.others && i < |p.others[n]| && Distinct(p.others[n])
    ensures p.others[n][i] in Kept(keep, q, p) <==> n > p.mr && i == 0
  {
    hide Passed, Rmw, Num;
    var w := p.others[n][i];
    OtherRange(edges, keep, k, q, g, p, n, w);
    assert n > p.mr && i == 0 ==> IsHead(p.others, p.mr, w);
    if w in Kept(keep, q, p) {
      KeptKinds(edges, keep, k, q, g, p, w);
      assert p.others[n][0] == w;
    }
  }

  lemma MovingNext(edges: Edges, keep: bool, k: Key, q: Queue, g: int, p: Pass, keys: seq<int>, a: nat,
                   done: set<RWNode>, used: set<RWNode>, used': set<RWNode>, used4: set<RWNode>)
    requires Passed(edges, keep, k, q, g, p) && Moving(keep, k, q, p, keys, a, done, used, used4) && a < |keys|
    requires keys[a] in p.others && used <= used' <= used + Elements(p.others[keys[a]])
    ensures Moving(keep, k, q, p, keys, a + 1, done + Elements(p.others[keys[a]]), used', used4)
  {
    hide Passed, Kept, Rmw, Num;
    var n, bucket := keys[a], p.others[keys[a]];
    assert keys[..a + 1] == keys[..a] + [n];
    forall w | w in Elements(bucket) ensures w in q.wSlice && Num(p.s4, w.tx) == n {
      OtherRange(edges, keep, k, q, g, p, n, w);
    }
  }

  lemma MovedAll(edges: Edges, keep: bool, k: Key, q: Queue, g: int, p: Pass, keys: seq<int>,
                 done: set<RWNode>, used: set<RWNode>, used4: set<RWNode>)
    requires Moving(keep, k, q, p, keys, |keys|, done, used, used4) && Elements(keys) == p.others.Keys
    ensures AllSettled(keep, q, p, done) && |used| <= |q.wSlice|
  {
    hide Kept, Num;
    Fits(q.wSlice, used);
    forall n, w | n in p.others && w in p.others[n] ensures w in done {
      assert n in Elements(keys);
      var b :| 0 <= b < |keys| && keys[b] == n;
    }
  }

  lemma NumberedMore(edges: Edges, s: State, g: int, g': int)
    requires Numbered(edges, s, g) && g <= g'
    ensures Numbered(edges, s, g')
  {
  }

  lemma RmwsReady(edges: Edges, k: Key, q: Queue, s0: State, s1: State, s2: State, m: int, g: int,
                  rmw: seq<RWNode>, others: map<int, seq<RWNode>>)
    requires IsQueue(edges, k, q) && ReadsPlaced(edges, k, q, s0, s1, m, g)
    requires Classified(k, q, q.wSlice, s1, s2, m, rmw, others)
    ensures OwnTransactions(rmw) && (forall w :: w in rmw ==> HasNode(edges, w)) && forall n :: n in others ==> n <= g
  {
    hide InOrder, Rmw, ReadElsewhere;
    forall i, j | 0 <= i < j < |rmw| ensures rmw[i].tx != rmw[j].tx {
      assert rmw[i] in rmw && rmw[j] in rmw;
      assert rmw[i] == RWNode(rmw[i].tx, k, Write) && rmw[j] == RWNode(rmw[j].tx, k, Write);
    }
    forall n | n in others ensures n <= g {
      assert IsBucket(k, q, q.wSlice, s2, n, others[n]);
      assert others[n][0] in others[n];
      assert Num(s2, others[n][0].tx) == Num(s1, others[n][0].tx);
    }
  }

  /** Placing the read-modify-writes costs one number each. */
  lemma RmwsNumbered(edges: Edges, keep: bool, k: Key, q: Queue, s0: State, s1: State, s2: State, s3: State, m: int,
                     g: int, rmw: seq<RWNode>, others: map<int, seq<RWNode>>, mw: int)
    requires IsQueue(edges, k, q) && ReadsPlaced(edges, k, q, s0, s1, m, g) && s3.num.Keys == edges.Keys
    requires Classified(k, q, q.wSlice, s1, s2, m, rmw, others) && RmwPlaced(keep, s2, s3, Base(m), rmw, mw)
    ensures
      var used := Elements(Placed(keep, rmw));
      && Numbered(edges, s3, g + |used|) && INITIAL_SEQUENCE - 1 <= mw <= g + |used|
      && Spent(q.wSlice, 0, used, used, s3) && forall w :: w in used ==> Num(s3, w.tx) != 0 && Rmw(k, q, w.tx)
  {
    hide InOrder, Rmw, ReadElsewhere, Bucketed, IsQueue, Numbered, ReadsPlaced;
    var placed := Placed(keep, rmw);
    DistinctSize(placed);
    MaxIsBelow(edges, k, q, s0, s1, m, g);
    forall w | w in placed ensures w in rmw && Num(s3, w.tx) != 0 {
    }
    ClassifiedNumbered(edges, k, q, s0, s1, s2, m, g, rmw, others);
    PlacedNumbered(edges, keep, s2, s3, Base(m), rmw, mw, g);
  }

  lemma ClassifiedNumbered(edges: Edges, k: Key, q: Queue, s0: State, s1: State, s2: State, m: int, g: int,
                           rmw: seq<RWNode>, others: map<int, seq<RWNode>>)
    requires IsQueue(edges, k, q) && ReadsPlaced(edges, k, q, s0, s1, m, g)
    requires Classified(k, q, q.wSlice, s1, s2, m, rmw, others)
    ensures Numbered(edges, s2, g) && forall w :: w in rmw ==> Num(s2, w.tx) != 0
  {
    hide InOrder, Rmw, ReadElsewhere, Bucketed;
    assert forall t :: Num(s2, t) == Num(s1, t);
    forall t | t in s2.aborted && t !in s1.aborted ensures t in edges {
      assert HasNode(edges, RWNode(t, k, Write));
    }
  }

  lemma PlacedNumbered(edges: Edges, keep: bool, s2: State, s3: State, base: int, rmw: seq<RWNode>, mw: int, g: int)
    requires Numbered(edges, s2, g) && RmwPlaced(keep, s2, s3, base, rmw, mw) && s3.num.Keys == edges.Keys
    requires INITIAL_SEQUENCE - 1 <= base <= g && forall w :: w in rmw ==> Num(s2, w.tx) != 0
    ensures Numbered(edges, s3, g + |Placed(keep, rmw)|)
  {
    var placed := Placed(keep, rmw);
    forall t ensures Num(s3, t) == 0 || INITIAL_SEQUENCE <= Num(s3, t) <= g + |placed| {
    }
    forall t | t in s3.aborted ensures t in edges && Num(s3, t) != 0 {
      if From(rmw, |placed|, t) {
        var j :| |placed| <= j < |rmw| && rmw[j].tx == t;
        assert rmw[j] in rmw;
      }
    }
  }

  lemma PassIsMade(edges: Edges, keep: bool, k: Key, q: Queue, g: int, p: Pass)
    requires IsQueue(edges, k, q) && Numbered(edges, p.s0, g) && ReadsPlaced(edges, k, q, p.s0, p.s1, p.m, g)
    requires Classified(k, q, q.wSlice, p.s1, p.s2, p.m, p.rmw, p.others)
    requires RmwPlaced(keep, p.s2, p.s3, Base(p.m), p.rmw, p.mw3) && p.mr == (if p.rmw == [] then p.m else p.mw3)
    requires NewPlaced(k, q.wSlice, p.others.Keys, p.s3, p.s4, p.mw3, p.mw4)
    ensures Passed(edges, keep, k, q, g, p)
  {
    hide IsQueue, Numbered, ReadsPlaced, Classified, RmwPlaced, NewPlaced;
  }

  lemma UsedAfter(edges: Edges, keep: bool, k: Key, q: Queue, g: int, p: Pass, used3: set<RWNode>, used: set<RWNode>)
    requires Spent(q.wSlice, |q.wSlice|, used3, used, p.s3) && forall w :: w in used3 ==> Rmw(k, q, w.tx)
    ensures UsedBefore(k, q, p, used)
  {
  }

  lemma LastIsMost(keys: seq<int>, others: map<int, seq<RWNode>>, mw: int)
    requires Elements(keys) == others.Keys && (forall i, j :: 0 <= i < j < |keys| ==> keys[i] < keys[j])
    requires keys == [] || keys[|keys| - 1] <= mw
    ensures Above(others, mw)
  {
    forall n | n in others ensures n <= mw {
      assert n in Elements(keys);
      var b :| 0 <= b < |keys| && keys[b] == n;
    }
  }

  lemma SameRange(keys: seq<int>, numbers: set<int>)
    requires forall n :: n in keys <==> n in numbers
    ensures Elements(keys) == numbers
  {
    var r := Elements(keys);
    assert forall n :: n in r <==> n in keys;
    assert forall n :: n in r <==> n in numbers;
  }

  /** The phases, one after the other, are the function. */
  lemma SortsByPhases(edges: Edges, keep: bool, q: Queue, p: Pass, keys: seq<int>, s: State, top: int)
    requires ReadPhase(q, p.s0) == Mark(p.s1, p.m)
    requires ClassifyPhase(edges, q.wSlice, p.s1, p.m) == Classes(p.s2, p.rmw, p.others)
    requires RmwPhase(keep, p.rmw, p.s2, Base(p.m)) == Mark(p.s3, p.mw3) && p.mr == (if p.rmw == [] then p.m else p.mw3)
    requires NewPhase(p.others.Keys, q.wSlice, p.s3, p.mw3) == Mark(p.s4, p.mw4)
    requires MovePhase(keys, p.others, p.mr, p.s4, Top(keys, p.mw4)) == Mark(s, top)
    requires Ascending(keys, p.others.Keys)
    ensures SortsTo(edges, keep, q, p.s0, Result(s, p.mr, top))
  {
    hide ReadPhase, ClassifyPhase, RmwPhase, NewPhase, MovePhase, Ascending;
    assert KeysOf(edges, q, p.s0) == p.others.Keys;
    assert SortedWith(edges, keep, q, p.s0, keys) == Result(s, p.mr, top);
  }
}

/**
 What each phase of sorting one queue does, in terms of the state it starts from: which
 numbers it gives to whom, in which order, and that it leaves none out.
 */
module SortExact {
  import opened Sequences
  import opened Deltas
  import opened Footprint
  import opened AddressQueues
  import opened SortFunction

  // --------------------------------------------------------------- the reads

  ghost predicate Among(rs: seq<RWNode>, t: TxId) {
    exists r :: r in rs && r.tx == t
  }

  lemma AmongMore(rs: seq<RWNode>, r: RWNode, t: TxId)
    ensures Among(rs + [r], t) <==> Among(rs, t) || r.tx == t
  {
    if r.tx == t {
      assert r in rs + [r];
    }
    if x :| x in rs && x.tx == t {
      assert x in rs + [r];
    }
  }

  lemma {:induction false} ReadsAtIs(rs: seq<RWNode>, s: State, x: int, all: bool, t: TxId)
    requires x != 0
    ensures
      var s' := ReadsAt(rs, s, x, all);
      && s'.aborted == s.aborted
      && Num(s', t) == if Among(rs, t) && (all || Num(s, t) == 0) then x else Num(s, t)
  {
    hide Num;
    if rs != [] {
      var n := |rs| - 1;
      ReadsAtIs(rs[..n], s, x, all, t);
      ReadsAtIs(rs[..n], s, x, all, rs[n].tx);
      AmongMore(rs[..n], rs[n], t);
      assert rs == rs[..n] + [rs[n]];
      PutNum(ReadsAt(rs[..n], s, x, all), rs[n], x, t);
    }
  }

  lemma PutNum(s: State, n: RWNode, x: int, t: TxId)
    ensures Num(Put(s, n, x), t) == if t == n.tx then x else Num(s, t)
    ensures Put(s, n, x).aborted == s.aborted
  {
  }

  lemma {:induction false} ReadsMark(rs: seq<RWNode>, s: State, x: int, all: bool, n: RWNode)
    requires x != 0 && OwnTransactions(rs)
    ensures n in ReadsAt(rs, s, x, all).marked <==> n in s.marked || (n in rs && (all || Num(s, n.tx) == 0))
  {
    hide Num;
    if rs != [] {
      var m := |rs| - 1;
      ReadsMark(rs[..m], s, x, all, n);
      ReadsAtIs(rs[..m], s, x, all, rs[m].tx);
      assert rs == rs[..m] + [rs[m]];
      assert !Among(rs[..m], rs[m].tx);
    }
  }

  lemma {:induction false} DeterminedAre(s: State, rs: seq<RWNode>)
    ensures forall r :: r in DeterminedOf(s, rs) <==> r in rs && Determined(s, r.tx)
  {
    hide Determined;
    if rs != [] {
      var n := |rs| - 1;
      DeterminedAre(s, rs[..n]);
      assert rs == rs[..n] + [rs[n]];
    }
  }

  /** `m` is the largest, or smallest, number of a determined reader. */
  ghost predicate IsGreatest(s: State, rs: seq<RWNode>, m: int) {
    && (exists r :: r in rs && Determined(s, r.tx) && Num(s, r.tx) == m)
    && (forall r :: r in rs && Determined(s, r.tx) ==> Num(s, r.tx) <= m)
  }

  ghost predicate IsLeast(s: State, rs: seq<RWNode>, m: int) {
    && (exists r :: r in rs && Determined(s, r.tx) && Num(s, r.tx) == m)
    && (forall r :: r in rs && Determined(s, r.tx) ==> m <= Num(s, r.tx))
  }

  lemma {:induction false} LeastIs(s: State, rs: seq<RWNode>)
    requires forall r :: r in rs ==> Num(s, r.tx) < MAX_INT32
    ensures forall r :: r in rs ==> Least(s, rs) <= Num(s, r.tx)
    ensures rs != [] ==> exists r :: r in rs && Num(s, r.tx) == Least(s, rs)
    ensures rs == [] ==> Least(s, rs) == MAX_INT32
  {
    hide Num;
    if rs != [] {
      var n := |rs| - 1;
      assert forall r :: r in rs[..n] ==> r in rs;
      LeastIs(s, rs[..n]);
      assert rs == rs[..n] + [rs[n]];
      assert rs[n] in rs;
    }
  }

  lemma {:induction false} GreatestIs(s: State, rs: seq<RWNode>)
    requires forall r :: r in rs ==> Num(s, r.tx) > 0
    ensures forall r :: r in rs ==> Num(s, r.tx) <= Greatest(s, rs)
    ensures rs != [] ==> exists r :: r in rs && Num(s, r.tx) == Greatest(s, rs)
    ensures rs == [] ==> Greatest(s, rs) == 0
  {
    hide Num;
    if rs != [] {
      var n := |rs| - 1;
      assert forall r :: r in rs[..n] ==> r in rs;
      GreatestIs(s, rs[..n]);
      assert rs == rs[..n] + [rs[n]];
      assert rs[n] in rs;
    }
  }

  ghost predicate SomeDetermined(s: State, rs: seq<RWNode>) {
    exists r :: r in rs && Determined(s, r.tx)
  }

  /** The largest read number of the address: of the determined readers, or the initial
      number when no reader is determined, or none. */
  ghost predicate IsMaxRead(q: Queue, s: State, m: int) {
    if q.rSlice == [] then m == 0
    else if SomeDetermined(s, q.rSlice) then IsGreatest(s, q.rSlice, m)
    else m == INITIAL_SEQUENCE
  }

  lemma MaxReadIsOne(q: Queue, s: State, m: int, m': int)
    requires IsMaxRead(q, s, m) && IsMaxRead(q, s, m')
    ensures m == m'
  {
  }

  /** The number a reader of the address has once the reads are placed: its own, the
      smallest of the determined readers', or the initial one. */
  ghost predicate IsReadNumber(q: Queue, s: State, t: TxId, x: int) {
    if !SomeDetermined(s, q.rSlice) then x == INITIAL_SEQUENCE
    else if Num(s, t) != 0 then x == Num(s, t)
    else IsLeast(s, q.rSlice, x)
  }

  lemma ReadPhaseIs(edges: Edges, q: Queue, s: State, g: int)
    requires Numbered(edges, s, g) && g < MAX_INT32
    ensures
      var r := ReadPhase(q, s);
      && r.s.aborted == s.aborted && IsMaxRead(q, s, r.top)
      && (forall t :: if Among(q.rSlice, t) then IsReadNumber(q, s, t, Num(r.s, t)) else Num(r.s, t) == Num(s, t))
  {
    hide ReadsAt;
    var r, tmp := ReadPhase(q, s), DeterminedOf(s, q.rSlice);
    DeterminedAre(s, q.rSlice);
    if tmp == [] {
      assert forall x :: x !in tmp;
      ReadsAtIs(q.rSlice, s, INITIAL_SEQUENCE, true, "");
      forall t ensures Num(r.s, t) == if Among(q.rSlice, t) then INITIAL_SEQUENCE else Num(s, t) {
        ReadsAtIs(q.rSlice, s, INITIAL_SEQUENCE, true, t);
      }
    } else {
      assert tmp[0] in tmp;
      assert SomeDetermined(s, q.rSlice);
      LeastIs(s, tmp);
      GreatestIs(s, tmp);
      var flagged, x := s.(marked := s.marked + Elements(tmp)), Least(s, tmp);
      ReadsAtIs(q.rSlice, flagged, x, false, "");
      forall t ensures Num(r.s, t) == if Among(q.rSlice, t) && Num(s, t) == 0 then x else Num(s, t) {
        ReadsAtIs(q.rSlice, flagged, x, false, t);
      }
      hide ReadPhase;
      assert IsLeast(s, q.rSlice, x) && IsGreatest(s, q.rSlice, r.top);
    }
  }

  // -------------------------------------------------------------- the writes

  /** A determined write whose own read is assigned. */
  ghost predicate RmwAt(edges: Edges, s: State, m: int, w: RWNode) {
    Determined(s, w.tx) && Num(s, w.tx) <= m && ReadHere(edges, s, w)
  }

  /** A determined write among the reads whose transaction has an assigned read elsewhere. */
  ghost predicate PinnedAt(edges: Edges, s: State, m: int, w: RWNode) {
    Determined(s, w.tx) && Num(s, w.tx) <= m && !ReadHere(edges, s, w) && ReadThere(edges, s, w)
  }

  ghost predicate OtherAt(edges: Edges, s: State, m: int, w: RWNode) {
    Determined(s, w.tx) && !RmwAt(edges, s, m, w) && !PinnedAt(edges, s, m, w)
  }

  ghost predicate PinnedTx(edges: Edges, ws: seq<RWNode>, s: State, m: int, t: TxId) {
    exists w :: w in ws && w.tx == t && PinnedAt(edges, s, m, w)
  }

  lemma PinnedTxMore(edges: Edges, ws: seq<RWNode>, s: State, m: int, w: RWNode, t: TxId)
    ensures PinnedTx(edges, ws + [w], s, m, t) <==> PinnedTx(edges, ws, s, m, t) || (w.tx == t && PinnedAt(edges, s, m, w))
  {
    hide PinnedAt;
    assert w in ws + [w];
    if x :| x in ws && x.tx == t && PinnedAt(edges, s, m, x) {
      assert x in ws + [w];
    }
  }

  ghost predicate ClassesAre(edges: Edges, ws: seq<RWNode>, s: State, m: int, c: Classes) {
    && c.s.num == s.num && c.s.marked == s.marked
    && (forall t :: t in c.s.aborted <==> t in s.aborted || PinnedTx(edges, ws, s, m, t))
    && (forall w :: w in c.rmw <==> w in ws && RmwAt(edges, s, m, w)) && InOrder(ws, c.rmw)
    && (forall n :: n in c.others ==> c.others[n] != [] && InOrder(ws, c.others[n]))
    && (forall n, w :: n in c.others && w in c.others[n] ==> w in ws && OtherAt(edges, s, m, w) && Num(s, w.tx) == n)
    && (forall w :: w in ws && OtherAt(edges, s, m, w) ==> Num(s, w.tx) in c.others && w in c.others[Num(s, w.tx)])
  }

  /** Looking at one more write does not depend on those aborted before it. */
  lemma StepSame(edges: Edges, ws: seq<RWNode>, s: State, m: int, c: Classes, w: RWNode)
    requires ClassesAre(edges, ws, s, m, c) && forall x :: x in ws ==> x.tx != w.tx
    ensures Determined(c.s, w.tx) <==> Determined(s, w.tx)
    ensures ReadHere(edges, c.s, w) <==> ReadHere(edges, s, w)
    ensures ReadThere(edges, c.s, w) <==> ReadThere(edges, s, w)
    ensures Num(c.s, w.tx) == Num(s, w.tx)
  {
    hide InOrder, RmwAt, OtherAt, PinnedAt, HasNode;
  }

  lemma {:induction false} ClassifyIs(edges: Edges, ws: seq<RWNode>, s: State, m: int)
    requires OwnTransactions(ws)
    ensures ClassesAre(edges, ws, s, m, ClassifyPhase(edges, ws, s, m))
  {
    hide ClassesAre, ClassifyStep;
    if ws == [] {
      NoClasses(edges, s, m);
    } else {
      var n := |ws| - 1;
      ClassifyIs(edges, ws[..n], s, m);
      assert ws == ws[..n] + [ws[n]];
      ClassifyMore(edges, ws[..n], s, m, ClassifyPhase(edges, ws[..n], s, m), ws[n]);
    }
  }

  lemma NoClasses(edges: Edges, s: State, m: int)
    ensures ClassesAre(edges, [], s, m, Classes(s, [], map[]))
  {
    hide RmwAt, OtherAt, PinnedAt;
  }

  lemma ClassifyMore(edges: Edges, ws: seq<RWNode>, s: State, m: int, c: Classes, w: RWNode)
    requires ClassesAre(edges, ws, s, m, c) && forall x :: x in ws ==> x.tx != w.tx
    ensures ClassesAre(edges, ws + [w], s, m, ClassifyStep(edges, c, w, m))
  {
    StepSame(edges, ws, s, m, c, w);
    OrdersGrow(ws, c, w);
    hide InOrder, ReadHere, ReadThere, Determined;
    if RmwAt(edges, s, m, w) {
      MoreRmw(edges, ws, s, m, c, w);
    } else if PinnedAt(edges, s, m, w) {
      MorePinned(edges, ws, s, m, c, w);
    } else if OtherAt(edges, s, m, w) {
      MoreOther(edges, ws, s, m, c, w);
    } else {
      MoreNone(edges, ws, s, m, c, w);
    }
  }

  ghost predicate OrdersAre(ws: seq<RWNode>, c: Classes) {
    InOrder(ws, c.rmw) && forall n :: n in c.others ==> InOrder(ws, c.others[n])
  }

  lemma OrdersGrow(ws: seq<RWNode>, c: Classes, w: RWNode)
    requires OrdersAre(ws, c)
    ensures OrdersAre(ws + [w], c)
  {
    hide InOrder;
    GrowOrder(ws, c.rmw, w);
    forall n | n in c.others ensures InOrder(ws + [w], c.others[n]) {
      GrowOrder(ws, c.others[n], w);
    }
  }

  lemma MoreNone(edges: Edges, ws: seq<RWNode>, s: State, m: int, c: Classes, w: RWNode)
    requires ClassesAre(edges, ws, s, m, c) && !Determined(s, w.tx) && OrdersAre(ws + [w], c)
    ensures ClassesAre(edges, ws + [w], s, m, c)
  {
    hide InOrder, ReadHere, ReadThere, PinnedTx;
    forall t ensures PinnedTx(edges, ws + [w], s, m, t) <==> PinnedTx(edges, ws, s, m, t) || (w.tx == t && PinnedAt(edges, s, m, w)) {
      PinnedTxMore(edges, ws, s, m, w, t);
    }
  }

  lemma MoreRmw(edges: Edges, ws: seq<RWNode>, s: State, m: int, c: Classes, w: RWNode)
    requires ClassesAre(edges, ws, s, m, c) && RmwAt(edges, s, m, w) && OrdersAre(ws + [w], c)
    ensures ClassesAre(edges, ws + [w], s, m, c.(rmw := c.rmw + [w]))
  {
    ExtendOrder(ws, c.rmw, w);
    hide InOrder, ReadHere, ReadThere, Determined, PinnedTx;
    forall t ensures PinnedTx(edges, ws + [w], s, m, t) <==> PinnedTx(edges, ws, s, m, t) || (w.tx == t && PinnedAt(edges, s, m, w)) {
      PinnedTxMore(edges, ws, s, m, w, t);
    }
  }

  lemma MorePinned(edges: Edges, ws: seq<RWNode>, s: State, m: int, c: Classes, w: RWNode)
    requires ClassesAre(edges, ws, s, m, c) && PinnedAt(edges, s, m, w) && OrdersAre(ws + [w], c)
    ensures ClassesAre(edges, ws + [w], s, m, c.(s := c.s.(aborted := c.s.aborted + {w.tx})))
  {
    hide InOrder, ReadHere, ReadThere, Determined, PinnedTx;
    assert w in ws + [w];
    forall t ensures PinnedTx(edges, ws + [w], s, m, t) <==> PinnedTx(edges, ws, s, m, t) || (w.tx == t && PinnedAt(edges, s, m, w)) {
      PinnedTxMore(edges, ws, s, m, w, t);
    }
  }

  lemma MoreOther(edges: Edges, ws: seq<RWNode>, s: State, m: int, c: Classes, w: RWNode)
    requires ClassesAre(edges, ws, s, m, c) && OtherAt(edges, s, m, w) && OrdersAre(ws + [w], c)
    ensures ClassesAre(edges, ws + [w], s, m, c.(others := Filed(c.others, Num(s, w.tx), w)))
  {
    hide InOrder, ReadHere, ReadThere, Determined, Num, PinnedTx;
    var n, others' := Num(s, w.tx), Filed(c.others, Num(s, w.tx), w);
    FiledOrder(ws, c.others, n, w);
    forall t ensures PinnedTx(edges, ws + [w], s, m, t) <==> PinnedTx(edges, ws, s, m, t) || (w.tx == t && PinnedAt(edges, s, m, w)) {
      PinnedTxMore(edges, ws, s, m, w, t);
    }
    forall x | x in ws + [w] && OtherAt(edges, s, m, x) ensures Num(s, x.tx) in others' && x in others'[Num(s, x.tx)] {
    }
  }

  lemma FiledOrder(ws: seq<RWNode>, others: map<int, seq<RWNode>>, n: int, w: RWNode)
    requires forall b :: b in others ==> InOrder(ws + [w], others[b])
    requires n in others ==> InOrder(ws, others[n]) && forall x :: x in others[n] ==> x in ws
    ensures forall b :: b in Filed(others, n, w) ==> InOrder(ws + [w], Filed(others, n, w)[b])
  {
    if n in others {
      ExtendOrder(ws, others[n], w);
    } else {
      assert InOrder(ws + [w], [] + [w]);
    }
    hide InOrder;
  }

  // ---------------------------------------------------------- new numbers

  lemma {:induction false} RmwPhaseIs(keep: bool, rmw: seq<RWNode>, s: State, base: int)
    requires OwnTransactions(rmw)
    ensures RmwPlaced(keep, s, RmwPhase(keep, rmw, s, base).s, base, rmw, RmwPhase(keep, rmw, s, base).top)
  {
    hide RmwPlaced;
    if rmw == [] {
      NoneRmwPlaced(keep, s, base);
    } else {
      var n := |rmw| - 1;
      var p := RmwPhase(keep, rmw[..n], s, base);
      RmwPhaseIs(keep, rmw[..n], s, base);
      assert rmw == rmw[..n] + [rmw[n]];
      if n == 0 || keep {
        PlaceRmw(keep, s, p.s, base, rmw[..n], p.top, rmw[n]);
      } else {
        AbortRmw(s, p.s, base, rmw[..n], p.top, rmw[n]);
      }
    }
  }

  lemma NoneRmwPlaced(keep: bool, s: State, base: int)
    ensures RmwPlaced(keep, s, s, base, [], base)
  {
  }

  /** New writes take free numbers above `top0`; nobody else changes. */
  ghost predicate NewWithin(ws: seq<RWNode>, keys: set<int>, s0: State, s: State, top0: int, top: int) {
    && top0 <= top && s.aborted == s0.aborted
    && (forall t :: !(Among(ws, t) && Num(s0, t) == 0) ==> Num(s, t) == Num(s0, t))
    && (forall w :: w in ws && Num(s0, w.tx) == 0 ==> top0 < Num(s, w.tx) <= top && Num(s, w.tx) !in keys)
  }

  /** They rise in queue order. */
  ghost predicate NewInOrder(ws: seq<RWNode>, s0: State, s: State) {
    forall i, j :: 0 <= i < j < |ws| && Num(s0, ws[i].tx) == 0 == Num(s0, ws[j].tx) ==>
                     Num(s, ws[i].tx) < Num(s, ws[j].tx)
  }

  ghost predicate NewAt(ws: seq<RWNode>, s0: State, s: State, y: int) {
    exists w :: w in ws && Num(s0, w.tx) == 0 && Num(s, w.tx) == y
  }

  /** No free number is left out. */
  ghost predicate NewDense(ws: seq<RWNode>, keys: set<int>, s0: State, s: State, top0: int, top: int) {
    forall y :: top0 < y <= top ==> y in keys || NewAt(ws, s0, s, y)
  }

  ghost predicate NewRise(ws: seq<RWNode>, keys: set<int>, s0: State, s: State, top0: int, top: int) {
    NewWithin(ws, keys, s0, s, top0, top) && NewInOrder(ws, s0, s) && NewDense(ws, keys, s0, s, top0, top)
  }

  lemma {:induction false} NewPhaseIs(keys: set<int>, ws: seq<RWNode>, s: State, top: int)
    requires OwnTransactions(ws) && INITIAL_SEQUENCE - 1 <= top
    ensures NewRise(ws, keys, s, NewPhase(keys, ws, s, top).s, top, NewPhase(keys, ws, s, top).top)
  {
    hide NewRise, NewStep;
    if ws == [] {
      NoneRise(keys, s, top);
    } else {
      var n := |ws| - 1;
      NewPhaseIs(keys, ws[..n], s, top);
      assert ws == ws[..n] + [ws[n]];
      NewMore(ws[..n], keys, s, NewPhase(keys, ws[..n], s, top), top, ws[n]);
    }
  }

  lemma NoneRise(keys: set<int>, s: State, top: int)
    ensures NewRise([], keys, s, s, top, top)
  {
  }

  lemma {:induction false} FreeIs(keys: set<int>, x: int)
    ensures FirstFree(keys, x) >= x && FirstFree(keys, x) !in keys && forall y :: x <= y < FirstFree(keys, x) ==> y in keys
    decreases keys
  {
    if x in keys {
      FreeIs(keys - {x}, x + 1);
    }
  }

  lemma NewMore(ws: seq<RWNode>, keys: set<int>, s0: State, p: Mark, top0: int, w: RWNode)
    requires NewRise(ws, keys, s0, p.s, top0, p.top) && (forall x :: x in ws ==> x.tx != w.tx) && INITIAL_SEQUENCE - 1 <= top0
    ensures NewRise(ws + [w], keys, s0, NewStep(keys, w, p).s, top0, NewStep(keys, w, p).top)
  {
    hide FirstFree, Num, NewInOrder, NewDense;
    assert !Among(ws, w.tx);
    if Num(s0, w.tx) == 0 {
      FreeIs(keys, p.top + 1);
      NewPut(ws, keys, s0, p, top0, w, FirstFree(keys, p.top + 1));
    } else {
      NewSkip(ws, keys, s0, p, top0, w);
    }
  }

  lemma NewSkip(ws: seq<RWNode>, keys: set<int>, s0: State, p: Mark, top0: int, w: RWNode)
    requires NewRise(ws, keys, s0, p.s, top0, p.top) && Num(s0, w.tx) != 0
    ensures NewRise(ws + [w], keys, s0, p.s, top0, p.top)
  {
    hide Num;
    forall t ensures Among(ws + [w], t) <==> Among(ws, t) || t == w.tx {
      AmongMore(ws, w, t);
    }
    forall y | NewAt(ws, s0, p.s, y) ensures NewAt(ws + [w], s0, p.s, y) {
      var v :| v in ws && Num(s0, v.tx) == 0 && Num(p.s, v.tx) == y;
      assert v in ws + [w];
    }
  }

  lemma NewPut(ws: seq<RWNode>, keys: set<int>, s0: State, p: Mark, top0: int, w: RWNode, x: int)
    requires NewRise(ws, keys, s0, p.s, top0, p.top) && (forall v :: v in ws ==> v.tx != w.tx) && Num(s0, w.tx) == 0
    requires p.top < x && x !in keys && forall y :: p.top < y < x ==> y in keys
    ensures NewRise(ws + [w], keys, s0, Put(p.s, w, x), top0, x)
  {
    hide Num, Put;
    var more, s' := ws + [w], Put(p.s, w, x);
    forall t ensures Num(s', t) == (if t == w.tx then x else Num(p.s, t)) && s'.aborted == p.s.aborted {
      PutNum(p.s, w, x, t);
    }
    PutNum(p.s, w, x, w.tx);
    forall t ensures Among(more, t) <==> Among(ws, t) || t == w.tx {
      AmongMore(ws, w, t);
    }
    assert NewInOrder(more, s0, s') by {
      forall i | 0 <= i < |ws| ensures more[i] == ws[i] && ws[i] in ws {
      }
    }
    forall y | top0 < y <= x && y !in keys ensures NewAt(more, s0, s', y) {
      if y <= p.top {
        var v :| v in ws && Num(s0, v.tx) == 0 && Num(p.s, v.tx) == y;
        assert v in more;
      } else {
        assert w in more && y == x;
      }
    }
  }

  // --------------------------------------------------------------- the moves

  /** All of a bucket but a kept head takes the next numbers, in order. */
  lemma {:induction false} MoveBucketIs(bucket: seq<RWNode>, keepFirst: bool, s: State, top: int, i: nat, t: TxId)
    requires OwnTransactions(bucket) && i < |bucket|
    ensures
      var p, d := MoveBucketOf(bucket, keepFirst, s, top), if keepFirst then 1 else 0;
      && p.s.aborted == s.aborted && p.top == top + |bucket| - d
      && Num(p.s, bucket[i].tx) == (if keepFirst && i == 0 then Num(s, bucket[0].tx) else top + 1 + i - d)
      && (!Among(bucket, t) ==> Num(p.s, t) == Num(s, t))
  {
    hide Num;
    var n := |bucket| - 1;
    assert bucket == bucket[..n] + [bucket[n]];
    AmongMore(bucket[..n], bucket[n], t);
    var p := MoveBucketOf(bucket[..n], keepFirst, s, top);
    if n > 0 {
      MoveBucketIs(bucket[..n], keepFirst, s, top, if i < n then i else 0, t);
      MoveBucketIs(bucket[..n], keepFirst, s, top, 0, bucket[n].tx);
    }
    PutNum(p.s, bucket[n], p.top + 1, bucket[i].tx);
    PutNum(p.s, bucket[n], p.top + 1, t);
  }

  /** Every write stands in one bucket, once. */
  ghost predicate Buckets(others: map<int, seq<RWNode>>) {
    && (forall n :: n in others ==> others[n] != [] && OwnTransactions(others[n]))
    && (forall n, n', x, y :: n in others && n' in others && n != n' && x in others[n] && y in others[n'] ==> x.tx != y.tx)
  }

  /** The write is the head of a bucket above the reads. */
  ghost predicate KeptHead(mr: int, n: int, i: nat) {
    n > mr && i == 0
  }

  ghost predicate Standing(keys: seq<int>, others: map<int, seq<RWNode>>, n: int, i: nat) {
    n in keys && n in others && i < |others[n]|
  }

  ghost predicate InBuckets(keys: seq<int>, others: map<int, seq<RWNode>>, t: TxId) {
    exists n :: n in keys && n in others && Among(others[n], t)
  }

  /** Kept heads stay, all others take numbers above `top0`; nobody else changes. */
  ghost predicate MovedWithin(keys: seq<int>, others: map<int, seq<RWNode>>, mr: int, s0: State, s: State, top0: int, top: int) {
    && top0 <= top && s.aborted == s0.aborted
    && (forall t :: !InBuckets(keys, others, t) ==> Num(s, t) == Num(s0, t))
    && (forall n, i: nat :: Standing(keys, others, n, i) ==>
          if KeptHead(mr, n, i) then Num(s, others[n][i].tx) == Num(s0, others[n][i].tx)
          else top0 < Num(s, others[n][i].tx) <= top)
  }

  /** The moved ones rise by bucket, and by place in it. */
  ghost predicate MovedInOrder(keys: seq<int>, others: map<int, seq<RWNode>>, mr: int, s: State) {
    forall n, i: nat, n', i': nat ::
      Standing(keys, others, n, i) && Standing(keys, others, n', i') && !KeptHead(mr, n, i) && !KeptHead(mr, n', i') &&
      (n < n' || (n == n' && i < i')) ==>
        Num(s, others[n][i].tx) < Num(s, others[n'][i'].tx)
  }

  ghost predicate MovedAt(keys: seq<int>, others: map<int, seq<RWNode>>, mr: int, s: State, y: int) {
    exists n, i: nat :: Standing(keys, others, n, i) && !KeptHead(mr, n, i) && Num(s, others[n][i].tx) == y
  }

  /** They take every number. */
  ghost predicate MovedDense(keys: seq<int>, others: map<int, seq<RWNode>>, mr: int, s: State, top0: int, top: int) {
    forall y :: top0 < y <= top ==> MovedAt(keys, others, mr, s, y)
  }

  ghost predicate Moved(keys: seq<int>, others: map<int, seq<RWNode>>, mr: int, s0: State, s: State, top0: int, top: int) {
    && MovedWithin(keys, others, mr, s0, s, top0, top) && MovedInOrder(keys, others, mr, s)
    && MovedDense(keys, others, mr, s, top0, top)
  }

  lemma {:induction false} MovePhaseIs(keys: seq<int>, others: map<int, seq<RWNode>>, mr: int, s: State, top: int)
    requires Buckets(others) && (forall n :: n in keys ==> n in others)
    requires forall i, j :: 0 <= i < j < |keys| ==> keys[i] < keys[j]
    ensures Moved(keys, others, mr, s, MovePhase(keys, others, mr, s, top).s, top, MovePhase(keys, others, mr, s, top).top)
  {
    hide Moved, MoveBucketOf, Buckets;
    if keys == [] {
      NoneMoved(others, mr, s, top);
    } else {
      var m := |keys| - 1;
      assert forall n :: n in keys[..m] ==> n in keys;
      MovePhaseIs(keys[..m], others, mr, s, top);
      assert keys == keys[..m] + [keys[m]];
      assert keys[m] in keys;
      MoveMore(keys[..m], others, mr, s, MovePhase(keys[..m], others, mr, s, top), top, keys[m]);
    }
  }

  lemma NoneMoved(others: map<int, seq<RWNode>>, mr: int, s: State, top: int)
    ensures Moved([], others, mr, s, s, top, top)
  {
  }

  /** What one more bucket does: to its own writes, and to nobody else. */
  ghost predicate BucketMoved(bucket: seq<RWNode>, keepFirst: bool, s0: State, s: State, top0: int, top: int) {
    var d := if keepFirst then 1 else 0;
    && s.aborted == s0.aborted && top == top0 + |bucket| - d
    && (forall t :: !Among(bucket, t) ==> Num(s, t) == Num(s0, t))
    && (forall i :: 0 <= i < |bucket| ==>
          Num(s, bucket[i].tx) == if keepFirst && i == 0 then Num(s0, bucket[0].tx) else top0 + 1 + i - d)
  }

  lemma MoveBucketDoes(bucket: seq<RWNode>, keepFirst: bool, s: State, top: int)
    requires OwnTransactions(bucket) && bucket != []
    ensures BucketMoved(bucket, keepFirst, s, MoveBucketOf(bucket, keepFirst, s, top).s, top, MoveBucketOf(bucket, keepFirst, s, top).top)
  {
    hide MoveBucketOf, Num, Among;
    var p := MoveBucketOf(bucket, keepFirst, s, top);
    MoveBucketIs(bucket, keepFirst, s, top, 0, "");
    forall t | !Among(bucket, t) ensures Num(p.s, t) == Num(s, t) {
      MoveBucketIs(bucket, keepFirst, s, top, 0, t);
    }
    forall i | 0 <= i < |bucket|
      ensures Num(p.s, bucket[i].tx) ==
              if keepFirst && i == 0 then Num(s, bucket[0].tx) else top + 1 + i - if keepFirst then 1 else 0
    {
      MoveBucketIs(bucket, keepFirst, s, top, i, "");
    }
  }

  lemma OtherBucket(others: map<int, seq<RWNode>>, n: int, i: nat, n': int)
    requires Buckets(others) && n in others && n' in others && n != n' && i < |others[n]|
    ensures !Among(others[n'], others[n][i].tx)
  {
    assert others[n][i] in others[n];
  }

  lemma MoveMore(keys: seq<int>, others: map<int, seq<RWNode>>, mr: int, s0: State, p: Mark, top0: int, n: int)
    requires Buckets(others) && (forall x :: x in keys ==> x in others && x < n) && n in others
    requires Moved(keys, others, mr, s0, p.s, top0, p.top)
    ensures
      var p' := MoveBucketOf(others[n], n > mr, p.s, p.top);
      Moved(keys + [n], others, mr, s0, p'.s, top0, p'.top)
  {
    hide MoveBucketOf, Num, Among;
    MoveBucketDoes(others[n], n > mr, p.s, p.top);
    var p' := MoveBucketOf(others[n], n > mr, p.s, p.top);
    BeforeStays(keys, others, p.s, p'.s, n);
    MoveWithin(keys, others, mr, s0, p.s, p'.s, top0, p.top, p'.top, n);
    MoveInOrder(keys, others, mr, s0, p.s, p'.s, top0, p.top, p'.top, n);
    MoveDense(keys, others, mr, p.s, p'.s, top0, p.top, p'.top, n);
  }

  ghost predicate SameBefore(keys: seq<int>, others: map<int, seq<RWNode>>, s: State, s': State) {
    forall x, i: nat :: Standing(keys, others, x, i) ==> Num(s', others[x][i].tx) == Num(s, others[x][i].tx)
  }

  lemma BeforeStays(keys: seq<int>, others: map<int, seq<RWNode>>, s: State, s': State, n: int)
    requires Buckets(others) && (forall x :: x in keys ==> x in others && x < n) && n in others
    requires forall t :: !Among(others[n], t) ==> Num(s', t) == Num(s, t)
    ensures SameBefore(keys, others, s, s')
  {
    hide Num, Among, Buckets;
    forall x, i: nat | Standing(keys, others, x, i) ensures Num(s', others[x][i].tx) == Num(s, others[x][i].tx) {
      OtherBucket(others, x, i, n);
    }
  }

  lemma StandingMore(keys: seq<int>, others: map<int, seq<RWNode>>, n: int, x: int, i: nat)
    ensures Standing(keys + [n], others, x, i) <==> Standing(keys, others, x, i) || (x == n && n in others && i < |others[n]|)
  {
  }

  lemma MoveWithin(keys: seq<int>, others: map<int, seq<RWNode>>, mr: int, s0: State, s: State, s': State, top0: int, top: int,
                   top': int, n: int)
    requires Buckets(others) && (forall x :: x in keys ==> x in others && x < n) && n in others
    requires MovedWithin(keys, others, mr, s0, s, top0, top) && SameBefore(keys, others, s, s')
    requires BucketMoved(others[n], n > mr, s, s', top, top') && others[n] != []
    ensures MovedWithin(keys + [n], others, mr, s0, s', top0, top')
  {
    hide Num, Among, Buckets;
    var more := keys + [n];
    forall t | !InBuckets(more, others, t) ensures Num(s', t) == Num(s0, t) {
      assert n in more && forall x :: x in keys ==> x in more;
    }
    forall x, i: nat | Standing(more, others, x, i)
      ensures if KeptHead(mr, x, i) then Num(s', others[x][i].tx) == Num(s0, others[x][i].tx)
              else top0 < Num(s', others[x][i].tx) <= top'
    {
      StandingMore(keys, others, n, x, i);
      if !Standing(keys, others, x, i) {
        NotBefore(keys, others, n, i);
      }
    }
  }

  lemma NotBefore(keys: seq<int>, others: map<int, seq<RWNode>>, n: int, i: nat)
    requires Buckets(others) && (forall x :: x in keys ==> x in others && x < n) && n in others && i < |others[n]|
    ensures !InBuckets(keys, others, others[n][i].tx)
  {
    hide Among, Buckets;
    forall x | x in keys ensures !Among(others[x], others[n][i].tx) {
      OtherBucket(others, n, i, x);
    }
  }

  lemma MoveInOrder(keys: seq<int>, others: map<int, seq<RWNode>>, mr: int, s0: State, s: State, s': State, top0: int, top: int,
                    top': int, n: int)
    requires (forall x :: x in keys ==> x in others && x < n) && n in others
    requires MovedWithin(keys, others, mr, s0, s, top0, top) && MovedInOrder(keys, others, mr, s)
    requires SameBefore(keys, others, s, s') && BucketMoved(others[n], n > mr, s, s', top, top')
    ensures MovedInOrder(keys + [n], others, mr, s')
  {
    hide Num, Among, InBuckets;
    var more := keys + [n];
    forall a, i: nat, b, j: nat |
      Standing(more, others, a, i) && Standing(more, others, b, j) && !KeptHead(mr, a, i) && !KeptHead(mr, b, j) &&
      (a < b || (a == b && i < j))
      ensures Num(s', others[a][i].tx) < Num(s', others[b][j].tx)
    {
      StandingMore(keys, others, n, a, i);
      StandingMore(keys, others, n, b, j);
    }
  }

  lemma MoveDense(keys: seq<int>, others: map<int, seq<RWNode>>, mr: int, s: State, s': State, top0: int, top: int,
                  top': int, n: int)
    requires n in others && MovedDense(keys, others, mr, s, top0, top)
    requires SameBefore(keys, others, s, s') && BucketMoved(others[n], n > mr, s, s', top, top')
    ensures MovedDense(keys + [n], others, mr, s', top0, top')
  {
    hide Num, Among;
    var more := keys + [n];
    forall y | top0 < y <= top' ensures MovedAt(more, others, mr, s', y) {
      if y <= top {
        assert MovedAt(keys, others, mr, s, y);
        var x, i: nat :| Standing(keys, others, x, i) && !KeptHead(mr, x, i) && Num(s, others[x][i].tx) == y;
        StandingMore(keys, others, n, x, i);
      } else {
        var i := y - top - 1 + if n > mr then 1 else 0;
        StandingMore(keys, others, n, n, i);
        assert Num(s', others[n][i].tx) == y;
      }
    }
  }

  // ------------------------------------------------------ one call, exactly

  /** A read of the transaction at another address is assigned already. */
  ghost predicate ReadBefore(edges: Edges, s: State, k: Key, t: TxId) {
    exists n :: HasNode(edges, n) && n.tx == t && n.kind == Read && n in s.marked && n.key != k
  }

  ghost predicate Writes(k: Key, q: Queue, t: TxId) {
    RWNode(t, k, Write) in q.wSlice
  }

  /** A write that must not be moved behind the reads, because of a read elsewhere. */
  ghost predicate Pinned(edges: Edges, k: Key, q: Queue, s: State, m: int, t: TxId) {
    Writes(k, q, t) && !Rmw(k, q, t) && Determined(s, t) && Num(s, t) <= m && ReadBefore(edges, s, k, t)
  }

  /** A read-modify-write behind another one that was not aborted before. */
  ghost predicate Second(k: Key, q: Queue, s: State, t: TxId) {
    Live(s, t) && exists t' :: BehindAnother(k, q, t, t') && Live(s, t')
  }

  /** Who is aborted after the call. */
  ghost predicate AbortsExactly(edges: Edges, keep: bool, k: Key, q: Queue, s: State, s': State, m: int) {
    forall t :: t in s'.aborted <==> t in s.aborted || Pinned(edges, k, q, s, m, t) || (!keep && Second(k, q, s, t))
  }

  /** The intermediate results of one call. */
  datatype Phases = Phases(read: Mark, c: Classes, rmw: Mark, added: Mark, keys: seq<int>, moved: Mark)

  ghost function FloorOf(p: Phases): int {
    if p.c.rmw == [] then p.read.top else p.rmw.top
  }

  ghost predicate IsRun(edges: Edges, keep: bool, q: Queue, s: State, r: Result, p: Phases) {
    && p.read == ReadPhase(q, s) && p.c == ClassifyPhase(edges, q.wSlice, p.read.s, p.read.top)
    && p.rmw == RmwPhase(keep, p.c.rmw, p.c.s, Base(p.read.top))
    && p.added == NewPhase(p.c.others.Keys, q.wSlice, p.rmw.s, p.rmw.top)
    && Ascending(p.keys, p.c.others.Keys)
    && p.moved == MovePhase(p.keys, p.c.others, FloorOf(p), p.added.s, Top(p.keys, p.added.top))
    && r == Result(p.moved.s, FloorOf(p), p.moved.top)
  }

  lemma RunOf(edges: Edges, keep: bool, q: Queue, s: State, r: Result) returns (p: Phases)
    requires SortsTo(edges, keep, q, s, r)
    ensures IsRun(edges, keep, q, s, r, p)
  {
    hide ReadPhase, ClassifyPhase, RmwPhase, NewPhase, MovePhase, Ascending;
    var keys :| Ascending(keys, KeysOf(edges, q, s)) && r == SortedWith(edges, keep, q, s, keys);
    var read := ReadPhase(q, s);
    var c := ClassifyPhase(edges, q.wSlice, read.s, read.top);
    var w := RmwPhase(keep, c.rmw, c.s, Base(read.top));
    var n := NewPhase(c.others.Keys, q.wSlice, w.s, w.top);
    p := Phases(read, c, w, n, keys,
                MovePhase(keys, c.others, if c.rmw == [] then read.top else w.top, n.s, Top(keys, n.top)));
  }

  /** What the phases are known to have done. */
  ghost predicate PhasesDone(edges: Edges, keep: bool, q: Queue, s: State, r: Result, p: Phases) {
    && p.read.s.aborted == s.aborted && IsMaxRead(q, s, p.read.top)
    && (forall t :: if Among(q.rSlice, t) then IsReadNumber(q, s, t, Num(p.read.s, t)) else Num(p.read.s, t) == Num(s, t))
    && ClassesAre(edges, q.wSlice, p.read.s, p.read.top, p.c)
    && RmwPlaced(keep, p.c.s, p.rmw.s, Base(p.read.top), p.c.rmw, p.rmw.top)
    && NewRise(q.wSlice, p.c.others.Keys, p.rmw.s, p.added.s, p.rmw.top, p.added.top)
    && Ascending(p.keys, p.c.others.Keys) && Buckets(p.c.others)
    && Moved(p.keys, p.c.others, FloorOf(p), p.added.s, p.moved.s, Top(p.keys, p.added.top), p.moved.top)
    && r == Result(p.moved.s, FloorOf(p), p.moved.top)
  }

  lemma OwnNodes(edges: Edges, k: Key, q: Queue)
    requires IsQueue(edges, k, q)
    ensures OwnTransactions(q.wSlice) && OwnTransactions(q.rSlice)
    ensures forall w :: w in q.wSlice ==> w == RWNode(w.tx, k, Write)
    ensures forall r :: r in q.rSlice ==> r == RWNode(r.tx, k, Read)
    ensures forall t :: Among(q.rSlice, t) <==> RWNode(t, k, Read) in q.rSlice
    ensures forall t :: Among(q.wSlice, t) <==> RWNode(t, k, Write) in q.wSlice
  {
    hide HasNode;
    forall i, j | 0 <= i < j < |q.wSlice| ensures q.wSlice[i].tx != q.wSlice[j].tx {
      assert q.wSlice[i] in q.wSlice && q.wSlice[j] in q.wSlice;
    }
    forall i, j | 0 <= i < j < |q.rSlice| ensures q.rSlice[i].tx != q.rSlice[j].tx {
      assert q.rSlice[i] in q.rSlice && q.rSlice[j] in q.rSlice;
    }
  }

  lemma OrderedIsOwn(ws: seq<RWNode>, s: seq<RWNode>)
    requires InOrder(ws, s) && OwnTransactions(ws)
    ensures OwnTransactions(s)
  {
    forall i, j | 0 <= i < j < |s| ensures s[i].tx != s[j].tx {
      assert Precedes(ws, s[i], s[j]);
      var a, b :| 0 <= a < b < |ws| && ws[a] == s[i] && ws[b] == s[j];
    }
  }

  lemma ClassBuckets(edges: Edges, ws: seq<RWNode>, s: State, m: int, c: Classes)
    requires ClassesAre(edges, ws, s, m, c) && OwnTransactions(ws)
    ensures Buckets(c.others) && OwnTransactions(c.rmw)
  {
    hide OwnTransactions, InOrder, RmwAt, OtherAt, PinnedTx, Num;
    OrderedIsOwn(ws, c.rmw);
    forall n | n in c.others ensures OwnTransactions(c.others[n]) {
      OrderedIsOwn(ws, c.others[n]);
    }
  }

  lemma PhasesAre(edges: Edges, keep: bool, k: Key, q: Queue, s: State, r: Result, g: int, p: Phases)
    requires IsQueue(edges, k, q) && Numbered(edges, s, g) && g < MAX_INT32 && IsRun(edges, keep, q, s, r, p)
    ensures PhasesDone(edges, keep, q, s, r, p)
  {
    OwnNodes(edges, k, q);
    hide IsQueue, Numbered, ReadPhase, ClassifyPhase, RmwPhase, NewPhase, MovePhase, ClassesAre, RmwPlaced, NewRise, Moved,
         Buckets, IsMaxRead, IsReadNumber, OwnTransactions, Among, Num, Ascending;
    ReadPhaseIs(edges, q, s, g);
    ClassifyIs(edges, q.wSlice, p.read.s, p.read.top);
    ClassBuckets(edges, q.wSlice, p.read.s, p.read.top, p.c);
    RmwPhaseIs(keep, p.c.rmw, p.c.s, Base(p.read.top));
    MaxReadIsSmall(edges, q, s, g, p.read.top);
    TopIsSmall(keep, p.c.s, p.rmw.s, Base(p.read.top), p.c.rmw, p.rmw.top);
    NewPhaseIs(p.c.others.Keys, q.wSlice, p.rmw.s, p.rmw.top);
    AscendingKeys(p.keys, p.c.others);
    MovePhaseIs(p.keys, p.c.others, FloorOf(p), p.added.s, Top(p.keys, p.added.top));
  }

  /** A call that ran, with its intermediate results. */
  ghost predicate Ran(edges: Edges, keep: bool, k: Key, q: Queue, s: State, r: Result, g: int, p: Phases) {
    && IsQueue(edges, k, q) && Numbered(edges, s, g) && g < MAX_INT32 && IsRun(edges, keep, q, s, r, p)
    && PhasesDone(edges, keep, q, s, r, p)
  }

  lemma QueueIsOwn(edges: Edges, keep: bool, k: Key, q: Queue, s: State, r: Result, g: int, p: Phases)
    requires Ran(edges, keep, k, q, s, r, g, p)
    ensures OwnTransactions(q.wSlice) && OwnTransactions(q.rSlice)
    ensures forall w :: w in q.wSlice ==> w == RWNode(w.tx, k, Write)
    ensures forall x :: x in q.rSlice ==> x == RWNode(x.tx, k, Read)
    ensures forall t :: Among(q.rSlice, t) <==> RWNode(t, k, Read) in q.rSlice
    ensures forall t :: Among(q.wSlice, t) <==> RWNode(t, k, Write) in q.wSlice
  {
    hide Among, OwnTransactions;
    OwnNodes(edges, k, q);
  }

  lemma MaxReadIsSmall(edges: Edges, q: Queue, s: State, g: int, m: int)
    requires Numbered(edges, s, g) && IsMaxRead(q, s, m)
    ensures INITIAL_SEQUENCE - 1 <= Base(m)
  {
  }

  lemma TopIsSmall(keep: bool, s0: State, s: State, base: int, rmw: seq<RWNode>, mw: int)
    requires RmwPlaced(keep, s0, s, base, rmw, mw)
    ensures base <= mw
  {
  }

  lemma AscendingKeys(keys: seq<int>, others: map<int, seq<RWNode>>)
    requires Ascending(keys, others.Keys)
    ensures (forall n :: n in keys <==> n in others) && forall i, j :: 0 <= i < j < |keys| ==> keys[i] < keys[j]
  {
    forall n ensures n in keys <==> n in others {
      assert n in Elements(keys) <==> n in keys;
    }
  }

  // ------------------------------------------------------- kinds of writes

  /** Placing the reads marks every surviving reader here, and nothing elsewhere. */
  lemma ReadMarks(edges: Edges, k: Key, q: Queue, s: State, g: int, n: RWNode)
    requires IsQueue(edges, k, q) && Numbered(edges, s, g) && g < MAX_INT32
    ensures n.key != k ==> (n in ReadPhase(q, s).s.marked <==> n in s.marked)
    ensures n in q.rSlice && Live(s, n.tx) ==> n in ReadPhase(q, s).s.marked
    ensures n in s.marked ==> n in ReadPhase(q, s).s.marked
    ensures n in ReadPhase(q, s).s.marked ==> n in s.marked || n in q.rSlice
  {
    OwnNodes(edges, k, q);
    hide IsQueue, ReadsAt, OwnTransactions, Among;
    var tmp := DeterminedOf(s, q.rSlice);
    DeterminedAre(s, q.rSlice);
    if tmp == [] {
      ReadsMark(q.rSlice, s, INITIAL_SEQUENCE, true, n);
    } else {
      assert forall x :: x in Elements(tmp) <==> x in tmp;
      LeastIs(s, tmp);
      ReadsMark(q.rSlice, s.(marked := s.marked + Elements(tmp)), Least(s, tmp), false, n);
    }
  }

  lemma ReadKinds(edges: Edges, k: Key, q: Queue, s: State, g: int, w: RWNode)
    requires IsQueue(edges, k, q) && Numbered(edges, s, g) && g < MAX_INT32 && w in q.wSlice
    ensures
      var s1 := ReadPhase(q, s).s;
      && (ReadThere(edges, s1, w) <==> ReadBefore(edges, s, k, w.tx))
      && (ReadHere(edges, s1, w) ==> Rmw(k, q, w.tx))
      && (Rmw(k, q, w.tx) && Live(s, w.tx) ==> ReadHere(edges, s1, w))
  {
    OwnNodes(edges, k, q);
    var s1 := ReadPhase(q, s).s;
    hide ReadPhase, OwnTransactions, Among, Numbered;
    forall n: RWNode ensures n.key != k ==> (n in s1.marked <==> n in s.marked)
                     ensures n in q.rSlice && Live(s, n.tx) ==> n in s1.marked
    {
      ReadMarks(edges, k, q, s, g, n);
    }
    assert w == RWNode(w.tx, k, Write);
    if ReadHere(edges, s1, w) {
      var n :| HasNode(edges, n) && n.tx == w.tx && n.kind == Read && n in s1.marked && n.key == w.key;
      assert n == RWNode(w.tx, k, Read) && n in q.rSlice;
    }
    if Rmw(k, q, w.tx) && Live(s, w.tx) {
      var n := RWNode(w.tx, k, Read);
      assert HasNode(edges, n) && n in s1.marked;
    }
  }

  /** A surviving reader of the address is numbered, at or below the largest read number. */
  lemma ReaderIsBelow(edges: Edges, q: Queue, s: State, g: int, m: int, t: TxId, x: int)
    requires Numbered(edges, s, g) && IsMaxRead(q, s, m) && IsReadNumber(q, s, t, x) && Among(q.rSlice, t) && Live(s, t)
    ensures 0 < x <= m
  {
    var r :| r in q.rSlice && r.tx == t;
  }

  lemma ReadFacts(edges: Edges, keep: bool, k: Key, q: Queue, s: State, r: Result, g: int, p: Phases, t: TxId)
    requires Ran(edges, keep, k, q, s, r, g, p)
    ensures if Among(q.rSlice, t) then IsReadNumber(q, s, t, Num(p.read.s, t)) && Num(p.read.s, t) != 0
            else Num(p.read.s, t) == Num(s, t)
  {
    hide IsQueue, Numbered, IsRun, ClassesAre, RmwPlaced, NewRise, Moved, Buckets, Ascending, IsMaxRead, Num, Among;
  }

  lemma MaxReadIs(edges: Edges, keep: bool, k: Key, q: Queue, s: State, r: Result, g: int, p: Phases)
    requires Ran(edges, keep, k, q, s, r, g, p)
    ensures IsMaxRead(q, s, p.read.top) && p.read.s.aborted == s.aborted && p.read.s == ReadPhase(q, s).s
  {
    hide IsMaxRead, ReadPhase;
  }

  lemma Kinds(edges: Edges, keep: bool, k: Key, q: Queue, s: State, r: Result, g: int, p: Phases, w: RWNode)
    requires Ran(edges, keep, k, q, s, r, g, p) && w in q.wSlice
    ensures RmwAt(edges, p.read.s, p.read.top, w) <==> Rmw(k, q, w.tx) && Live(s, w.tx)
    ensures PinnedAt(edges, p.read.s, p.read.top, w) <==> Pinned(edges, k, q, s, p.read.top, w.tx)
    ensures OtherAt(edges, p.read.s, p.read.top, w) <==>
            !Rmw(k, q, w.tx) && Determined(s, w.tx) && !Pinned(edges, k, q, s, p.read.top, w.tx)
    ensures !Rmw(k, q, w.tx) ==> Num(p.read.s, w.tx) == Num(s, w.tx)
  {
    hide Ran, ReadPhase, OwnTransactions, ReadHere, ReadThere, ReadBefore, IsMaxRead, IsReadNumber, Num, Among;
    QueueIsOwn(edges, keep, k, q, s, r, g, p);
    MaxReadIs(edges, keep, k, q, s, r, g, p);
    ReadFacts(edges, keep, k, q, s, r, g, p, w.tx);
    KindsRead(edges, keep, k, q, s, r, g, p, w);
    assert w == RWNode(w.tx, k, Write);
  }

  lemma KindsRead(edges: Edges, keep: bool, k: Key, q: Queue, s: State, r: Result, g: int, p: Phases, w: RWNode)
    requires Ran(edges, keep, k, q, s, r, g, p) && w in q.wSlice
    ensures ReadThere(edges, p.read.s, w) <==> ReadBefore(edges, s, k, w.tx)
    ensures ReadHere(edges, p.read.s, w) ==> Rmw(k, q, w.tx)
    ensures Rmw(k, q, w.tx) && Live(s, w.tx) ==> ReadHere(edges, p.read.s, w) && 0 < Num(p.read.s, w.tx) <= p.read.top
  {
    hide IsQueue, IsRun, PhasesDone, ReadPhase, OwnTransactions, ReadHere, ReadThere, ReadBefore, IsMaxRead, IsReadNumber,
         Num, Among, Numbered;
    QueueIsOwn(edges, keep, k, q, s, r, g, p);
    MaxReadIs(edges, keep, k, q, s, r, g, p);
    ReadFacts(edges, keep, k, q, s, r, g, p, w.tx);
    ReadKinds(edges, k, q, s, g, w);
    if Rmw(k, q, w.tx) && Live(s, w.tx) {
      ReaderIsBelow(edges, q, s, g, p.read.top, w.tx, Num(p.read.s, w.tx));
    }
  }

  // --------------------------------------------------------- who is aborted

  lemma PinnedAre(edges: Edges, keep: bool, k: Key, q: Queue, s: State, r: Result, g: int, p: Phases, t: TxId)
    requires Ran(edges, keep, k, q, s, r, g, p)
    ensures PinnedTx(edges, q.wSlice, p.read.s, p.read.top, t) <==> Pinned(edges, k, q, s, p.read.top, t)
  {
    QueueIsOwn(edges, keep, k, q, s, r, g, p);
    hide Ran, OwnTransactions, PinnedAt, Rmw, Determined, ReadBefore, Among;
    if w :| w in q.wSlice && w.tx == t && PinnedAt(edges, p.read.s, p.read.top, w) {
      Kinds(edges, keep, k, q, s, r, g, p, w);
    }
    if Pinned(edges, k, q, s, p.read.top, t) {
      Kinds(edges, keep, k, q, s, r, g, p, RWNode(t, k, Write));
    }
  }

  lemma RmwsAre(edges: Edges, keep: bool, k: Key, q: Queue, s: State, r: Result, g: int, p: Phases, w: RWNode)
    requires Ran(edges, keep, k, q, s, r, g, p)
    ensures w in p.c.rmw <==> w in q.wSlice && Rmw(k, q, w.tx) && Live(s, w.tx)
    ensures InOrder(q.wSlice, p.c.rmw)
  {
    hide IsQueue, Numbered, IsRun, RmwAt, OtherAt, PinnedAt, Rmw, InOrder, RmwPlaced, NewRise, Moved, Buckets, Ascending,
         IsMaxRead, IsReadNumber, PinnedTx, Num, Among;
    if w in q.wSlice {
      Kinds(edges, keep, k, q, s, r, g, p, w);
    }
  }

  lemma PrecedesOnce(ws: seq<RWNode>, a: RWNode, b: RWNode)
    requires OwnTransactions(ws) && Precedes(ws, a, b)
    ensures a != b && !Precedes(ws, b, a)
  {
  }

  /** Places in an ordered selection go with places in the queue. */
  lemma OrderAgrees(ws: seq<RWNode>, sel: seq<RWNode>, i: nat, j: nat)
    requires OwnTransactions(ws) && InOrder(ws, sel) && i < |sel| && j < |sel| && Precedes(ws, sel[i], sel[j])
    ensures i < j
  {
    PrecedesOnce(ws, sel[i], sel[j]);
  }

  lemma FromIsSecond(edges: Edges, keep: bool, k: Key, q: Queue, s: State, r: Result, g: int, p: Phases, j: nat)
    requires Ran(edges, keep, k, q, s, r, g, p) && 1 <= j < |p.c.rmw|
    ensures Second(k, q, s, p.c.rmw[j].tx) && BehindAnother(k, q, p.c.rmw[j].tx, p.c.rmw[0].tx)
  {
    hide Ran, OwnTransactions, Rmw, InOrder, Among, Live;
    QueueIsOwn(edges, keep, k, q, s, r, g, p);
    var w, w' := p.c.rmw[j], p.c.rmw[0];
    RmwsAre(edges, keep, k, q, s, r, g, p, w);
    RmwsAre(edges, keep, k, q, s, r, g, p, w');
    OrderedAt(q.wSlice, p.c.rmw, 0, j);
    assert BehindAnother(k, q, w.tx, w'.tx);
  }

  lemma SecondIsBehind(edges: Edges, keep: bool, k: Key, q: Queue, s: State, r: Result, g: int, p: Phases, t: TxId)
    requires Ran(edges, keep, k, q, s, r, g, p) && Second(k, q, s, t)
    ensures From(p.c.rmw, 1, t)
  {
    hide Ran, OwnTransactions, Rmw, InOrder, Precedes, Among, Live;
    QueueIsOwn(edges, keep, k, q, s, r, g, p);
    var t' :| BehindAnother(k, q, t, t') && Live(s, t');
    RmwInQueue(k, q, t);
    RmwInQueue(k, q, t');
    RmwsAre(edges, keep, k, q, s, r, g, p, RWNode(t, k, Write));
    RmwsAre(edges, keep, k, q, s, r, g, p, RWNode(t', k, Write));
    var i :| 0 <= i < |p.c.rmw| && p.c.rmw[i] == RWNode(t', k, Write);
    var j :| 0 <= j < |p.c.rmw| && p.c.rmw[j] == RWNode(t, k, Write);
    OrderAgrees(q.wSlice, p.c.rmw, i, j);
  }

  lemma SecondIsFrom(edges: Edges, keep: bool, k: Key, q: Queue, s: State, r: Result, g: int, p: Phases, t: TxId)
    requires Ran(edges, keep, k, q, s, r, g, p)
    ensures From(p.c.rmw, 1, t) <==> Second(k, q, s, t)
  {
    hide Ran, Second;
    if From(p.c.rmw, 1, t) {
      var j :| 1 <= j < |p.c.rmw| && p.c.rmw[j].tx == t;
      FromIsSecond(edges, keep, k, q, s, r, g, p, j);
    }
    if Second(k, q, s, t) {
      SecondIsBehind(edges, keep, k, q, s, r, g, p, t);
    }
  }

  lemma RmwInQueue(k: Key, q: Queue, t: TxId)
    requires Rmw(k, q, t)
    ensures RWNode(t, k, Write) in q.wSlice
  {
  }

  lemma OrderedAt(ws: seq<RWNode>, sel: seq<RWNode>, i: nat, j: nat)
    requires InOrder(ws, sel) && OwnTransactions(ws) && i < j < |sel|
    ensures Precedes(ws, sel[i], sel[j]) && sel[i].tx != sel[j].tx
  {
    OrderedIsOwn(ws, sel);
  }

  lemma AbortedAre(edges: Edges, keep: bool, k: Key, q: Queue, s: State, r: Result, g: int, p: Phases)
    requires Ran(edges, keep, k, q, s, r, g, p)
    ensures AbortsExactly(edges, keep, k, q, s, r.s, p.read.top)
  {
    hide IsQueue, Numbered, IsRun, Pinned, Second, PinnedTx, From, InOrder, RmwAt, OtherAt, Buckets, Ascending, IsMaxRead,
         IsReadNumber, Num, Among, NewInOrder, NewDense, MovedInOrder, MovedDense, InBuckets, Standing, KeptHead;
    var rmw := p.c.rmw;
    forall t ensures t in r.s.aborted <==>
                     t in s.aborted || Pinned(edges, k, q, s, p.read.top, t) || (!keep && Second(k, q, s, t))
    {
      PinnedAre(edges, keep, k, q, s, r, g, p, t);
      SecondIsFrom(edges, keep, k, q, s, r, g, p, t);
      NoneBeyond(keep, rmw, t);
    }
  }

  lemma NoneBeyond(keep: bool, rmw: seq<RWNode>, t: TxId)
    ensures From(rmw, |Placed(keep, rmw)|, t) <==> !keep && From(rmw, 1, t)
  {
  }
}

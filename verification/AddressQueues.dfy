/**
 Address queues of `core/conflict_queue.go` and of its variant
 `core/nezha_variable.go`, on values: what sorting one queue does to the
 sequence numbers and to the aborted transactions.

 A transaction has at most one read and one write node per address, so a node
 is identified by its transaction, its address and its label.
 */
module AddressQueues {
  import opened Sequences
  import opened Deltas
  import opened Footprint

  const INITIAL_SEQUENCE: int := 10
  const MAX_INT32: int := 0x7fff_ffff

  datatype Label = Read | Write

  datatype RWNode = RWNode(tx: TxId, key: Key, kind: Label)

  datatype Queue = Queue(rSlice: seq<RWNode>, wSlice: seq<RWNode>, maxRead: int, maxWrite: int)

  type Edges = map<TxId, seq<RWNode>>

  /** The number of each transaction (0 while undetermined), the nodes whose
      assigned flag is up, and the aborted transactions. */
  datatype State = State(num: map<TxId, int>, marked: set<RWNode>, aborted: set<TxId>)

  function Num(s: State, t: TxId): int {
    if t in s.num then s.num[t] else 0
  }

  ghost predicate Live(s: State, t: TxId) {
    t !in s.aborted
  }

  ghost predicate Determined(s: State, t: TxId) {
    Num(s, t) != 0 && Live(s, t)
  }

  function Put(s: State, n: RWNode, x: int): State {
    State(s.num[n.tx := x], s.marked + {n}, s.aborted)
  }

  ghost predicate HasNode(edges: Edges, n: RWNode) {
    n.tx in edges && n in edges[n.tx]
  }

  ghost predicate WellFormed(edges: Edges) {
    forall t :: t in edges ==> edges[t] != [] && forall n :: n in edges[t] ==> n.tx == t
  }

  /** `q` holds exactly the nodes of address `k`. */
  ghost predicate IsQueue(edges: Edges, k: Key, q: Queue) {
    && Distinct(q.rSlice) && Distinct(q.wSlice)
    && (forall n :: n in q.rSlice <==> HasNode(edges, n) && n.key == k && n.kind == Read)
    && (forall n :: n in q.wSlice <==> HasNode(edges, n) && n.key == k && n.kind == Write)
  }

  /** The transaction both reads and writes the address. */
  ghost predicate Rmw(k: Key, q: Queue, t: TxId) {
    RWNode(t, k, Read) in q.rSlice && RWNode(t, k, Write) in q.wSlice
  }

  /** Every number is undetermined or between the initial one and `g`, and only
      determined transactions are aborted. */
  ghost predicate Numbered(edges: Edges, s: State, g: int) {
    && g >= INITIAL_SEQUENCE && s.num.Keys == edges.Keys
    && (forall t :: Num(s, t) == 0 || INITIAL_SEQUENCE <= Num(s, t) <= g)
    && (forall t :: t in s.aborted ==> t in edges && Num(s, t) != 0)
  }

  // ------------------------------------------------------------ the phases

  /** The reads are placed: numbers already determined stay, every surviving
      reader ends at or below `m`. */
  ghost predicate ReadsPlaced(edges: Edges, k: Key, q: Queue, s0: State, s: State, m: int, g: int) {
    && Numbered(edges, s, g) && s.aborted == s0.aborted
    && (forall t :: Determined(s0, t) || RWNode(t, k, Read) !in q.rSlice ==> Num(s, t) == Num(s0, t))
    && (forall r :: r in q.rSlice ==> Num(s, r.tx) != 0 && (Live(s, r.tx) ==> Num(s, r.tx) <= m && r in s.marked))
    && (forall n :: n in s0.marked ==> n in s.marked)
    && (forall n :: n in s.marked ==> n in s0.marked || n in q.rSlice)
    && (if q.rSlice == [] then m == 0 else INITIAL_SEQUENCE <= m <= g)
    && ReadersLow(q, s0, s)
  }

  /** A surviving reader that had no number gets one no higher than any reader's. */
  ghost predicate ReadersLow(q: Queue, s0: State, s: State) {
    forall r, r' :: r in q.rSlice && r' in q.rSlice && Live(s, r.tx) && Live(s, r'.tx) && Num(s0, r.tx) == 0 ==>
                      Num(s, r.tx) <= Num(s, r'.tx)
  }

  /** Part of the readers is placed: those without a determined number at `x`. */
  ghost predicate Reading(edges: Edges, k: Key, q: Queue, rs: seq<RWNode>, s0: State, s: State, x: int, g: int) {
    && Numbered(edges, s, g) && s.aborted == s0.aborted
    && (forall t :: Determined(s0, t) || RWNode(t, k, Read) !in rs ==> Num(s, t) == Num(s0, t))
    && (forall r :: r in rs ==>
          Num(s, r.tx) != 0 && (Live(s0, r.tx) && !Determined(s0, r.tx) ==> Num(s, r.tx) == x && r in s.marked))
    && (forall n :: n in s0.marked ==> n in s.marked)
    && (forall n :: n in s.marked ==> n in s0.marked || n in q.rSlice)
  }

  lemma ReadOne(edges: Edges, k: Key, q: Queue, rs: seq<RWNode>, s0: State, s: State, x: int, g: int, r: RWNode)
    requires Reading(edges, k, q, rs, s0, s, x, g) && INITIAL_SEQUENCE <= x <= g && r.tx in edges
    requires forall v :: v in rs + [r] ==> v == RWNode(v.tx, k, Read)
    requires r !in rs && !Determined(s0, r.tx) && r in q.rSlice
    ensures Reading(edges, k, q, rs + [r], s0, Put(s, r, x), x, g)
  {
    hide Numbered;
    PutNumbered(edges, s, g, r, x, g);
  }

  lemma ReadSkipped(edges: Edges, k: Key, q: Queue, rs: seq<RWNode>, s0: State, s: State, x: int, g: int, r: RWNode)
    requires Reading(edges, k, q, rs, s0, s, x, g) && r !in rs && r == RWNode(r.tx, k, Read) && Num(s, r.tx) != 0
    ensures Reading(edges, k, q, rs + [r], s0, s, x, g)
  {
    hide Numbered;
  }

  lemma ReadAll(edges: Edges, k: Key, q: Queue, s0: State, s0': State, s: State, x: int, m: int, g: int)
    requires Reading(edges, k, q, q.rSlice, s0', s, x, g) && s0'.num == s0.num && s0'.aborted == s0.aborted
    requires forall n :: n in s0'.marked <==> n in s0.marked || (n in q.rSlice && Determined(s0, n.tx))
    requires if q.rSlice == [] then m == 0 else INITIAL_SEQUENCE <= m <= g && x <= m
    requires forall r :: r in q.rSlice && Determined(s0, r.tx) ==> x <= Num(s0, r.tx) <= m
    ensures ReadsPlaced(edges, k, q, s0, s, m, g)
  {
    hide Numbered;
  }

  /** A read of another address, already fixed, forbids moving the transaction. */
  ghost predicate ReadElsewhere(s: State, k: Key, t: TxId) {
    exists n :: n in s.marked && n.tx == t && n.kind == Read && n.key != k
  }

  /** `s` stands in `ws` in the order of `ws`. */
  ghost predicate InOrder(ws: seq<RWNode>, s: seq<RWNode>) {
    forall i, j :: 0 <= i < j < |s| ==> Precedes(ws, s[i], s[j])
  }

  ghost predicate Precedes(ws: seq<RWNode>, a: RWNode, b: RWNode) {
    exists i, j :: 0 <= i < j < |ws| && ws[i] == a && ws[j] == b
  }

  ghost predicate Bucketed(k: Key, q: Queue, ws: seq<RWNode>, s: State, others: map<int, seq<RWNode>>) {
    forall n :: n in others ==> IsBucket(k, q, ws, s, n, others[n])
  }

  ghost predicate IsBucket(k: Key, q: Queue, ws: seq<RWNode>, s: State, n: int, bucket: seq<RWNode>) {
    && bucket != [] && Distinct(bucket)
    && (forall w :: w in bucket ==> w in ws && !Rmw(k, q, w.tx) && Determined(s, w.tx) && Num(s, w.tx) == n)
  }

  /** The determined writes of `ws` are sorted out: read-modify-writes, those whose
      transaction must abort, and the others, by number. */
  ghost predicate Classified(k: Key, q: Queue, ws: seq<RWNode>, s0: State, s: State, m: int,
                             rmw: seq<RWNode>, others: map<int, seq<RWNode>>) {
    && s.num == s0.num && s.marked == s0.marked && s0.aborted <= s.aborted
    && (forall t :: t in s.aborted && t !in s0.aborted ==>
          RWNode(t, k, Write) in ws && !Rmw(k, q, t) && Num(s, t) != 0 && ReadElsewhere(s, k, t))
    && Distinct(rmw) && InOrder(ws, rmw)
    && (forall w :: w in rmw ==> w in ws && Rmw(k, q, w.tx) && Determined(s, w.tx) && Num(s, w.tx) <= m)
    && Bucketed(k, q, ws, s, others)
    && (forall w :: w in ws && Determined(s, w.tx) ==>
          if Rmw(k, q, w.tx) then w in rmw else Num(s, w.tx) in others && w in others[Num(s, w.tx)])
  }

  // One more write is looked at.

  lemma ClassifyUndetermined(k: Key, q: Queue, ws: seq<RWNode>, s0: State, s: State, m: int,
                             rmw: seq<RWNode>, others: map<int, seq<RWNode>>, w: RWNode)
    requires Classified(k, q, ws, s0, s, m, rmw, others) && !Determined(s, w.tx)
    ensures Classified(k, q, ws + [w], s0, s, m, rmw, others)
  {
    hide Rmw, ReadElsewhere, Determined;
    GrowOrder(ws, rmw, w);
  }

  lemma GrowOrder(ws: seq<RWNode>, rmw: seq<RWNode>, w: RWNode)
    requires InOrder(ws, rmw)
    ensures InOrder(ws + [w], rmw)
  {
    forall i, j | 0 <= i < j < |rmw| ensures Precedes(ws + [w], rmw[i], rmw[j]) {
      var a, b :| 0 <= a < b < |ws| && ws[a] == rmw[i] && ws[b] == rmw[j];
      assert (ws + [w])[a] == rmw[i] && (ws + [w])[b] == rmw[j];
    }
  }

  lemma ExtendOrder(ws: seq<RWNode>, rmw: seq<RWNode>, w: RWNode)
    requires InOrder(ws, rmw) && forall x :: x in rmw ==> x in ws
    ensures InOrder(ws + [w], rmw + [w])
  {
    GrowOrder(ws, rmw, w);
    var s := rmw + [w];
    forall i, j | 0 <= i < j < |s| ensures Precedes(ws + [w], s[i], s[j]) {
      if j == |rmw| {
        assert rmw[i] in ws;
        var a :| 0 <= a < |ws| && ws[a] == rmw[i];
        assert (ws + [w])[a] == s[i] && (ws + [w])[|ws|] == s[j];
      } else {
        assert Precedes(ws + [w], rmw[i], rmw[j]);
      }
    }
  }

  lemma ClassifyRmw(k: Key, q: Queue, ws: seq<RWNode>, s0: State, s: State, m: int,
                    rmw: seq<RWNode>, others: map<int, seq<RWNode>>, w: RWNode)
    requires Classified(k, q, ws, s0, s, m, rmw, others)
    requires w !in ws && Determined(s, w.tx) && Rmw(k, q, w.tx) && Num(s, w.tx) <= m
    ensures Classified(k, q, ws + [w], s0, s, m, rmw + [w], others)
  {
    hide Rmw, ReadElsewhere, Determined, InOrder;
    ExtendOrder(ws, rmw, w);
  }

  lemma ClassifyOther(k: Key, q: Queue, ws: seq<RWNode>, s0: State, s: State, m: int,
                      rmw: seq<RWNode>, others: map<int, seq<RWNode>>, w: RWNode)
    requires Classified(k, q, ws, s0, s, m, rmw, others)
    requires w !in ws && Determined(s, w.tx) && !Rmw(k, q, w.tx)
    ensures Classified(k, q, ws + [w], s0, s, m, rmw, Filed(others, Num(s, w.tx), w))
  {
    hide Rmw, ReadElsewhere, Determined, InOrder;
    GrowOrder(ws, rmw, w);
    var others' := Filed(others, Num(s, w.tx), w);
    forall n | n in others' ensures IsBucket(k, q, ws + [w], s, n, others'[n]) {
      if n in others {
        assert IsBucket(k, q, ws, s, n, others[n]);
      }
    }
  }

  function Filed(others: map<int, seq<RWNode>>, n: int, w: RWNode): map<int, seq<RWNode>> {
    others[n := (if n in others then others[n] else []) + [w]]
  }

  lemma ClassifyAbort(k: Key, q: Queue, ws: seq<RWNode>, s0: State, s: State, m: int,
                      rmw: seq<RWNode>, others: map<int, seq<RWNode>>, w: RWNode)
    requires Classified(k, q, ws, s0, s, m, rmw, others) && w == RWNode(w.tx, k, Write)
    requires forall x :: x in ws ==> x == RWNode(x.tx, k, Write)
    requires w !in ws && Determined(s, w.tx) && !Rmw(k, q, w.tx) && ReadElsewhere(s, k, w.tx)
    ensures Classified(k, q, ws + [w], s0, s.(aborted := s.aborted + {w.tx}), m, rmw, others)
  {
    hide Rmw, InOrder;
    GrowOrder(ws, rmw, w);
    var s' := s.(aborted := s.aborted + {w.tx});
    forall n | n in others ensures IsBucket(k, q, ws + [w], s', n, others[n]) {
      assert IsBucket(k, q, ws, s, n, others[n]);
    }
    forall t | t in s'.aborted && t !in s0.aborted ensures ReadElsewhere(s', k, t) {
      assert ReadElsewhere(s, k, t);
    }
  }

  // The read-modify-writes take the numbers right above the reads: all of them in
  // the variant, else only the first, and the others abort.

  ghost function Placed(keep: bool, rmw: seq<RWNode>): seq<RWNode> {
    if keep || rmw == [] then rmw else rmw[..1]
  }

  /** `t` stands in `s` at `lo` or later. */
  ghost predicate From(s: seq<RWNode>, lo: nat, t: TxId) {
    exists j :: lo <= j < |s| && s[j].tx == t
  }

  ghost predicate RmwPlaced(keep: bool, s0: State, s: State, base: int, rmw: seq<RWNode>, mw: int) {
    var placed := Placed(keep, rmw);
    && mw == base + |placed|
    && (forall t :: t in s.aborted <==> t in s0.aborted || From(rmw, |placed|, t))
    && (forall j :: 0 <= j < |placed| ==> Num(s, placed[j].tx) == base + 1 + j)
    && (forall t :: Num(s, t) == Num(s0, t) || From(placed, 0, t))
    && (forall n :: n in s.marked <==> n in s0.marked || n in placed)
  }

  ghost predicate OwnTransactions(s: seq<RWNode>) {
    forall i, j :: 0 <= i < j < |s| ==> s[i].tx != s[j].tx
  }

  lemma PlaceRmw(keep: bool, s0: State, s: State, base: int, rmw: seq<RWNode>, mw: int, w: RWNode)
    requires RmwPlaced(keep, s0, s, base, rmw, mw) && (keep || rmw == []) && OwnTransactions(rmw + [w])
    ensures RmwPlaced(keep, s0, Put(s, w, mw + 1), base, rmw + [w], mw + 1)
  {
    var rmw', s' := rmw + [w], Put(s, w, mw + 1);
    assert Placed(keep, rmw') == rmw' && Placed(keep, rmw) == rmw;
    forall j | 0 <= j < |rmw'| ensures Num(s', rmw'[j].tx) == base + 1 + j {
      if j < |rmw| {
        assert rmw'[j].tx != rmw'[|rmw|].tx;
      }
    }
    forall t ensures Num(s', t) == Num(s0, t) || From(rmw', 0, t) {
      if t == w.tx {
        assert rmw'[|rmw|].tx == t;
      } else if Num(s, t) != Num(s0, t) {
        var j :| 0 <= j < |rmw| && rmw[j].tx == t;
        assert rmw'[j].tx == t;
      }
    }
  }

  lemma AbortRmw(s0: State, s: State, base: int, rmw: seq<RWNode>, mw: int, w: RWNode)
    requires RmwPlaced(false, s0, s, base, rmw, mw) && rmw != []
    ensures RmwPlaced(false, s0, s.(aborted := s.aborted + {w.tx}), base, rmw + [w], mw)
  {
    var rmw' := rmw + [w];
    assert Placed(false, rmw') == Placed(false, rmw);
    forall t ensures From(rmw', 1, t) <==> t == w.tx || From(rmw, 1, t) {
      if t == w.tx {
        assert rmw'[|rmw|].tx == t;
      } else if j :| 1 <= j < |rmw| && rmw[j].tx == t {
        assert rmw'[j].tx == t;
      }
    }
  }

  /** The undetermined writes of `ws` take increasing numbers above `mw0`, none of
      them in `keys`. */
  ghost predicate NewPlaced(k: Key, ws: seq<RWNode>, keys: set<int>, s0: State, s: State, mw0: int, mw: int) {
    && s.aborted == s0.aborted && mw0 <= mw
    && (forall w :: w in ws && Num(s0, w.tx) == 0 ==> mw0 < Num(s, w.tx) <= mw && Num(s, w.tx) !in keys)
    && (forall w, w' :: w in ws && w' in ws && w != w' && Num(s0, w.tx) == 0 == Num(s0, w'.tx) ==>
          Num(s, w.tx) != Num(s, w'.tx))
    && (forall t :: Num(s0, t) != 0 || RWNode(t, k, Write) !in ws ==> Num(s, t) == Num(s0, t))
    && (forall n :: n in s0.marked ==> n in s.marked)
    && (forall n :: n in s.marked ==> n in s0.marked || n in ws)
  }

  lemma PlaceNew(k: Key, ws: seq<RWNode>, keys: set<int>, s0: State, s: State, mw0: int, mw: int, w: RWNode, x: int)
    requires NewPlaced(k, ws, keys, s0, s, mw0, mw) && forall v :: v in ws + [w] ==> v == RWNode(v.tx, k, Write)
    requires w !in ws && Num(s0, w.tx) == 0 && mw < x && x !in keys
    ensures NewPlaced(k, ws + [w], keys, s0, Put(s, w, x), mw0, x)
  {
  }

  lemma SkipNew(k: Key, ws: seq<RWNode>, keys: set<int>, s0: State, s: State, mw0: int, mw: int, w: RWNode)
    requires NewPlaced(k, ws, keys, s0, s, mw0, mw) && Num(s0, w.tx) != 0
    ensures NewPlaced(k, ws + [w], keys, s0, s, mw0, mw)
  {
  }

  /** The writes in `done` have their final numbers: distinct, at most `mw`, above
      `mr` unless they are read-modify-writes.  Numbers only rise. */
  ghost predicate Settling(k: Key, q: Queue, s0: State, s: State, done: set<RWNode>, mr: int, mw: int) {
    && s.aborted == s0.aborted && mr <= mw
    && (forall w :: w in done ==> w == RWNode(w.tx, k, Write) && Num(s, w.tx) <= mw)
    && (forall w :: w in done && !Rmw(k, q, w.tx) ==> mr < Num(s, w.tx))
    && (forall w, w' :: w in done && w' in done && w != w' ==> Num(s, w.tx) != Num(s, w'.tx))
    && (forall t :: Num(s, t) != Num(s0, t) ==>
          RWNode(t, k, Write) in done && Num(s0, t) < Num(s, t) && !Rmw(k, q, t))
    && (forall n :: n in s0.marked ==> n in s.marked)
    && (forall n :: n in s.marked ==> n in s0.marked || n in done)
  }

  lemma Settle(k: Key, q: Queue, s0: State, s: State, done: set<RWNode>, mr: int, mw: int, w: RWNode)
    requires Settling(k, q, s0, s, done, mr, mw) && w !in done && w == RWNode(w.tx, k, Write)
    requires Num(s0, w.tx) <= mw && !Rmw(k, q, w.tx)
    ensures Settling(k, q, s0, Put(s, w, mw + 1), done + {w}, mr, mw + 1)
  {
    hide Rmw;
    var s', done' := Put(s, w, mw + 1), done + {w};
    forall v | v in done' ensures Num(s', v.tx) == if v == w then mw + 1 else Num(s, v.tx) {
    }
    forall t ensures Num(s', t) == if t == w.tx then mw + 1 else Num(s, t) {
    }
    hide Num;
  }

  lemma PutNumbered(edges: Edges, s: State, g: int, n: RWNode, x: int, g': int)
    requires Numbered(edges, s, g) && n.tx in edges && INITIAL_SEQUENCE <= x <= g' && g <= g'
    ensures Numbered(edges, Put(s, n, x), g')
  {
    var s' := Put(s, n, x);
    forall t ensures Num(s', t) == 0 || INITIAL_SEQUENCE <= Num(s', t) <= g' {
      assert Num(s', t) == if t == n.tx then x else Num(s, t);
    }
    assert forall t :: t in s.aborted ==> Num(s, t) != 0;
  }

  // ------------------------------------------------- one queue as a whole

  /** Where one call of `sortInQueue` passes: before it, with the reads placed,
      the writes classified, the read-modify-writes and the new writes placed. */
  datatype Pass = Pass(s0: State, s1: State, s2: State, s3: State, s4: State,
                       m: int, mr: int, mw3: int, mw4: int,
                       rmw: seq<RWNode>, others: map<int, seq<RWNode>>)

  function Base(m: int): int {
    if m == 0 then INITIAL_SEQUENCE - 1 else m
  }

  ghost predicate Passed(edges: Edges, keep: bool, k: Key, q: Queue, g: int, p: Pass) {
    && IsQueue(edges, k, q) && Numbered(edges, p.s0, g)
    && ReadsPlaced(edges, k, q, p.s0, p.s1, p.m, g)
    && Classified(k, q, q.wSlice, p.s1, p.s2, p.m, p.rmw, p.others)
    && RmwPlaced(keep, p.s2, p.s3, Base(p.m), p.rmw, p.mw3)
    && p.mr == (if p.rmw == [] then p.m else p.mw3)
    && NewPlaced(k, q.wSlice, p.others.Keys, p.s3, p.s4, p.mw3, p.mw4)
  }

  ghost predicate IsHead(others: map<int, seq<RWNode>>, mr: int, w: RWNode) {
    exists n :: n in others && n > mr && others[n] != [] && others[n][0] == w
  }

  /** The writes that keep the number they have before the others move. */
  ghost function Kept(keep: bool, q: Queue, p: Pass): set<RWNode> {
    set w | w in q.wSlice && (w in Placed(keep, p.rmw) || Num(p.s3, w.tx) == 0 || IsHead(p.others, p.mr, w))
  }

  lemma PlacedRange(edges: Edges, keep: bool, k: Key, q: Queue, g: int, p: Pass, j: nat)
    requires Passed(edges, keep, k, q, g, p) && j < |Placed(keep, p.rmw)|
    ensures Num(p.s3, Placed(keep, p.rmw)[j].tx) == Num(p.s4, Placed(keep, p.rmw)[j].tx) == Base(p.m) + 1 + j
    ensures p.mr == p.mw3 && Base(p.m) + 1 + j <= p.mr && Rmw(k, q, Placed(keep, p.rmw)[j].tx)
  {
    hide ReadsPlaced, Numbered, IsQueue, Bucketed, InOrder, ReadElsewhere, Rmw;
    var w := Placed(keep, p.rmw)[j];
    assert w in p.rmw;
    MaxIsBelow(edges, k, q, p.s0, p.s1, p.m, g);
  }

  lemma PlacedIsRmw(k: Key, q: Queue, ws: seq<RWNode>, s0: State, s: State, m: int, keep: bool,
                    rmw: seq<RWNode>, others: map<int, seq<RWNode>>, t: TxId)
    requires Classified(k, q, ws, s0, s, m, rmw, others)
    ensures From(Placed(keep, rmw), 0, t) ==> Rmw(k, q, t)
  {
    hide Rmw, Bucketed, InOrder, ReadElsewhere;
    if From(Placed(keep, rmw), 0, t) {
      var j :| 0 <= j < |Placed(keep, rmw)| && Placed(keep, rmw)[j].tx == t;
      assert Placed(keep, rmw)[j] in rmw;
    }
  }

  /** Numbers before the moves: nothing but the placed and the new writes changed. */
  lemma Untouched(edges: Edges, keep: bool, k: Key, q: Queue, g: int, p: Pass, t: TxId)
    requires Passed(edges, keep, k, q, g, p) && Num(p.s1, t) != 0
    ensures Num(p.s4, t) == Num(p.s3, t) != 0
    ensures !From(Placed(keep, p.rmw), 0, t) ==> Num(p.s4, t) == Num(p.s1, t)
    ensures Num(p.s1, t) <= Num(p.s4, t)
  {
    hide ReadsPlaced, Numbered, IsQueue, Bucketed, InOrder, ReadElsewhere, Rmw;
    if From(Placed(keep, p.rmw), 0, t) {
      var j :| 0 <= j < |Placed(keep, p.rmw)| && Placed(keep, p.rmw)[j].tx == t;
      assert Placed(keep, p.rmw)[j] in p.rmw;
      MaxIsBelow(edges, k, q, p.s0, p.s1, p.m, g);
    }
  }

  lemma MaxIsBelow(edges: Edges, k: Key, q: Queue, s0: State, s: State, m: int, g: int)
    requires ReadsPlaced(edges, k, q, s0, s, m, g)
    ensures 0 <= m <= Base(m) <= g && INITIAL_SEQUENCE - 1 <= Base(m)
  {
  }

  lemma NewRange(edges: Edges, keep: bool, k: Key, q: Queue, g: int, p: Pass, w: RWNode)
    requires Passed(edges, keep, k, q, g, p) && w in q.wSlice && Num(p.s3, w.tx) == 0
    ensures p.mw3 < Num(p.s4, w.tx) <= p.mw4 && Num(p.s4, w.tx) !in p.others && !Rmw(k, q, w.tx)
  {
    hide Numbered, IsQueue, Classified, RmwPlaced;
    if Num(p.s1, w.tx) != 0 {
      Untouched(edges, keep, k, q, g, p, w.tx);
    }
  }

  lemma OtherRange(edges: Edges, keep: bool, k: Key, q: Queue, g: int, p: Pass, n: int, w: RWNode)
    requires Passed(edges, keep, k, q, g, p) && n in p.others && w in p.others[n]
    ensures w in q.wSlice && !Rmw(k, q, w.tx) && Num(p.s3, w.tx) == Num(p.s4, w.tx) == Num(p.s1, w.tx) == n != 0
    ensures w.tx !in p.s2.aborted
  {
    hide Numbered, IsQueue, RmwPlaced, ReadsPlaced, NewPlaced, Rmw, InOrder;
    assert IsBucket(k, q, q.wSlice, p.s2, n, p.others[n]);
    Untouched(edges, keep, k, q, g, p, w.tx);
    PlacedIsRmw(k, q, q.wSlice, p.s1, p.s2, p.m, keep, p.rmw, p.others, w.tx);
  }

  ghost predicate Above(others: map<int, seq<RWNode>>, mw: int) {
    forall n :: n in others ==> n <= mw
  }

  lemma MarkIsBelow(edges: Edges, keep: bool, k: Key, q: Queue, g: int, p: Pass)
    requires Passed(edges, keep, k, q, g, p)
    ensures p.m <= Base(p.m) <= p.mw3 <= p.mw4 && p.m <= p.mr <= p.mw3
  {
    hide Numbered, IsQueue, Classified;
    MaxIsBelow(edges, k, q, p.s0, p.s1, p.m, g);
  }

  /** A write that is kept has a number unlike every other kept write's. */
  lemma KeptDiffer(edges: Edges, keep: bool, k: Key, q: Queue, g: int, p: Pass, w: RWNode, w': RWNode)
    requires Passed(edges, keep, k, q, g, p) && w != w'
    requires w in Kept(keep, q, p) && w' in Kept(keep, q, p)
    ensures Num(p.s4, w.tx) != Num(p.s4, w'.tx)
  {
    hide Passed, Num, Rmw, IsHead;
    KeptKinds(edges, keep, k, q, g, p, w);
    KeptKinds(edges, keep, k, q, g, p, w');
    if Num(p.s3, w.tx) == 0 && Num(p.s3, w'.tx) == 0 {
      NewDiffer(edges, keep, k, q, g, p, w, w');
    }
  }

  lemma NewDiffer(edges: Edges, keep: bool, k: Key, q: Queue, g: int, p: Pass, w: RWNode, w': RWNode)
    requires Passed(edges, keep, k, q, g, p) && w != w' && w in q.wSlice && w' in q.wSlice
    requires Num(p.s3, w.tx) == 0 == Num(p.s3, w'.tx)
    ensures Num(p.s4, w.tx) != Num(p.s4, w'.tx)
  {
    hide Numbered, IsQueue, Classified, ReadsPlaced, RmwPlaced;
  }

  /** The three kinds of kept writes, and where each kind's numbers lie. */
  lemma KeptKinds(edges: Edges, keep: bool, k: Key, q: Queue, g: int, p: Pass, w: RWNode)
    requires Passed(edges, keep, k, q, g, p) && w in Kept(keep, q, p)
    ensures
      var x := Num(p.s4, w.tx);
      || (Rmw(k, q, w.tx) && p.mr == p.mw3 && x <= p.mw3 && Base(p.m) < x && x - Base(p.m) - 1 < |Placed(keep, p.rmw)|
          && Placed(keep, p.rmw)[x - Base(p.m) - 1] == w && Num(p.s3, w.tx) != 0)
      || (!Rmw(k, q, w.tx) && Num(p.s3, w.tx) == 0 && p.mw3 < x <= p.mw4 && x !in p.others)
      || (!Rmw(k, q, w.tx) && Num(p.s3, w.tx) != 0 && p.mr < x && x in p.others && p.others[x] != [] && p.others[x][0] == w)
  {
    hide Passed, Num, Rmw;
    if w in Placed(keep, p.rmw) {
      var j :| 0 <= j < |Placed(keep, p.rmw)| && Placed(keep, p.rmw)[j] == w;
      PlacedRange(edges, keep, k, q, g, p, j);
      MarkIsBelow(edges, keep, k, q, g, p);
      BaseIsPositive(edges, keep, k, q, g, p);
    } else if Num(p.s3, w.tx) == 0 {
      NewRange(edges, keep, k, q, g, p, w);
    } else {
      var n :| n in p.others && n > p.mr && p.others[n] != [] && p.others[n][0] == w;
      OtherRange(edges, keep, k, q, g, p, n, w);
    }
  }

  lemma BaseIsPositive(edges: Edges, keep: bool, k: Key, q: Queue, g: int, p: Pass)
    requires Passed(edges, keep, k, q, g, p)
    ensures Base(p.m) > 0
  {
    hide Numbered, IsQueue, Classified, RmwPlaced, NewPlaced;
  }

  lemma SettlingStarts(edges: Edges, keep: bool, k: Key, q: Queue, g: int, p: Pass, mw: int)
    requires Passed(edges, keep, k, q, g, p) && p.mw4 <= mw && Above(p.others, mw)
    ensures Settling(k, q, p.s4, p.s4, Kept(keep, q, p), p.mr, mw)
  {
    hide Num, Rmw, Passed, Kept;
    MarkIsBelow(edges, keep, k, q, g, p);
    forall w | w in Kept(keep, q, p)
      ensures w == RWNode(w.tx, k, Write) && Num(p.s4, w.tx) <= mw && (Rmw(k, q, w.tx) || p.mr < Num(p.s4, w.tx))
    {
      KeptKinds(edges, keep, k, q, g, p, w);
      KeptNode(edges, keep, k, q, g, p, w);
    }
    forall w, w' | w in Kept(keep, q, p) && w' in Kept(keep, q, p) && w != w'
      ensures Num(p.s4, w.tx) != Num(p.s4, w'.tx)
    {
      KeptDiffer(edges, keep, k, q, g, p, w, w');
    }
  }

  lemma KeptNode(edges: Edges, keep: bool, k: Key, q: Queue, g: int, p: Pass, w: RWNode)
    requires Passed(edges, keep, k, q, g, p) && w in Kept(keep, q, p)
    ensures w == RWNode(w.tx, k, Write) && w in q.wSlice
  {
    hide Numbered, Classified, ReadsPlaced, RmwPlaced, NewPlaced, Rmw;
  }

  /** Three bands: surviving pure readers up to `m`, surviving read-modify-writers
      above that up to `mr`, surviving blind writers beyond; all writes apart. */
  ghost predicate Bands(k: Key, q: Queue, s: State, m: int, mr: int) {
    && (forall r :: r in q.rSlice && Live(s, r.tx) && !Rmw(k, q, r.tx) ==> Num(s, r.tx) <= m)
    && (forall w :: w in q.wSlice && Live(s, w.tx) ==>
          if Rmw(k, q, w.tx) then m < Num(s, w.tx) <= mr else mr < Num(s, w.tx))
    && (forall w, w' :: w in q.wSlice && w' in q.wSlice && w != w' && Live(s, w.tx) && Live(s, w'.tx) ==>
          Num(s, w.tx) != Num(s, w'.tx))
    && m <= mr
  }

  ghost predicate OneRmw(k: Key, q: Queue, s: State) {
    forall t, t' :: Rmw(k, q, t) && Live(s, t) && Rmw(k, q, t') && Live(s, t') ==> t == t'
  }

  /** A read-modify-write that stands behind another one of the same address. */
  ghost predicate BehindAnother(k: Key, q: Queue, t: TxId, t': TxId) {
    && t' != t && Rmw(k, q, t) && Rmw(k, q, t')
    && Precedes(q.wSlice, RWNode(t', k, Write), RWNode(t, k, Write))
  }

  /** It stands behind one that survives. */
  ghost predicate LaterRmw(k: Key, q: Queue, s: State, t: TxId) {
    exists t' :: BehindAnother(k, q, t, t') && Live(s, t')
  }

  /** No determined survivor's number falls, and only the queue's writers' rise. */
  ghost predicate Rises(k: Key, q: Queue, s0: State, s: State) {
    && (forall t :: Determined(s0, t) ==> Num(s0, t) <= Num(s, t))
    && (forall t :: Determined(s0, t) && RWNode(t, k, Write) !in q.wSlice ==> Num(s0, t) == Num(s, t))
    && (forall t :: RWNode(t, k, Read) !in q.rSlice && RWNode(t, k, Write) !in q.wSlice ==> Num(s0, t) == Num(s, t))
  }

  /** Who is aborted by the call, and why. */
  ghost predicate Aborts(keep: bool, k: Key, q: Queue, s0: State, s: State) {
    && (forall t :: t in s0.aborted ==> t in s.aborted)
    && (forall t :: t in s.aborted && t !in s0.aborted ==>
          (RWNode(t, k, Write) in q.wSlice && !Rmw(k, q, t) && ReadElsewhere(s0, k, t)) || (!keep && LaterRmw(k, q, s, t)))
  }

  ghost predicate Marking(q: Queue, s0: State, s: State) {
    && (forall n :: n in s0.marked ==> n in s.marked)
    && (forall n :: n in s.marked ==> n in s0.marked || n in q.rSlice || n in q.wSlice)
  }

  ghost predicate QueueNumbered(q: Queue, s: State) {
    forall n :: n in q.rSlice || n in q.wSlice ==> Num(s, n.tx) != 0
  }

  /** A surviving pure reader that had no number stays at or below every reader. */
  ghost predicate NewReadersLow(k: Key, q: Queue, s0: State, s: State) {
    forall r, r' :: r in q.rSlice && r' in q.rSlice && Live(s, r.tx) && Live(s, r'.tx) && Num(s0, r.tx) == 0 &&
                    !Rmw(k, q, r.tx) ==>
                      Num(s, r.tx) <= Num(s, r'.tx)
  }

  /** What one call of `sortInQueue` achieves. */
  ghost predicate QueueSorted(edges: Edges, keep: bool, k: Key, q: Queue, s0: State, s: State, m: int, mr: int, g: int) {
    && Numbered(edges, s, g) && QueueNumbered(q, s) && Bands(k, q, s, m, mr) && (keep || OneRmw(k, q, s))
    && Rises(k, q, s0, s) && Aborts(keep, k, q, s0, s) && Marking(q, s0, s) && NewReadersLow(k, q, s0, s)
  }

  ghost predicate AllSettled(keep: bool, q: Queue, p: Pass, done: set<RWNode>) {
    && Kept(keep, q, p) <= done && (forall w :: w in done ==> w in q.wSlice)
    && (forall n, w :: n in p.others && w in p.others[n] ==> w in done)
  }

  lemma SurvivorIsDone(edges: Edges, keep: bool, k: Key, q: Queue, g: int, p: Pass, done: set<RWNode>, w: RWNode)
    requires Passed(edges, keep, k, q, g, p) && AllSettled(keep, q, p, done)
    requires w in q.wSlice && Live(p.s4, w.tx)
    ensures w in done
  {
    hide Numbered, ReadsPlaced, Rmw, Bucketed, InOrder, ReadElsewhere;
    if Num(p.s3, w.tx) == 0 {
      assert w in Kept(keep, q, p);
    } else {
      assert Determined(p.s2, w.tx) by {
        if Num(p.s2, w.tx) == 0 {
          PlacedWasDetermined(edges, keep, k, q, g, p, w.tx);
        }
      }
      if w in p.rmw {
        var j :| 0 <= j < |p.rmw| && p.rmw[j] == w;
        assert j < |Placed(keep, p.rmw)|;
        assert Placed(keep, p.rmw)[j] == w;
        assert w in Kept(keep, q, p);
      }
    }
  }

  lemma PlacedWasDetermined(edges: Edges, keep: bool, k: Key, q: Queue, g: int, p: Pass, t: TxId)
    requires Passed(edges, keep, k, q, g, p)
    ensures Num(p.s3, t) != 0 ==> Num(p.s2, t) != 0
  {
    hide Numbered, ReadsPlaced, Rmw, Bucketed, InOrder, ReadElsewhere, NewPlaced, IsQueue;
    if From(Placed(keep, p.rmw), 0, t) {
      var j :| 0 <= j < |Placed(keep, p.rmw)| && Placed(keep, p.rmw)[j].tx == t;
      assert Placed(keep, p.rmw)[j] in p.rmw;
    }
  }

  lemma BandsHold(edges: Edges, keep: bool, k: Key, q: Queue, g: int, p: Pass, s: State, done: set<RWNode>, mw: int)
    requires Passed(edges, keep, k, q, g, p) && AllSettled(keep, q, p, done)
    requires Settling(k, q, p.s4, s, done, p.mr, mw)
    ensures Bands(k, q, s, p.m, p.mr)
  {
    hide Num, Passed, Kept, Rmw;
    MarkIsBelow(edges, keep, k, q, g, p);
    forall r | r in q.rSlice && Live(s, r.tx) && !Rmw(k, q, r.tx) ensures Num(s, r.tx) <= p.m {
      PureReaderStays(edges, keep, k, q, g, p, r);
      NoWriteNode(edges, keep, k, q, g, p, done, r);
    }
    forall w | w in q.wSlice && Live(s, w.tx)
      ensures if Rmw(k, q, w.tx) then p.m < Num(s, w.tx) <= p.mr else p.mr < Num(s, w.tx)
    {
      SurvivorIsDone(edges, keep, k, q, g, p, done, w);
      if Rmw(k, q, w.tx) {
        RmwRange(edges, keep, k, q, g, p, w);
      }
    }
    forall w, w' | w in q.wSlice && w' in q.wSlice && w != w' && Live(s, w.tx) && Live(s, w'.tx)
      ensures Num(s, w.tx) != Num(s, w'.tx)
    {
      SurvivorIsDone(edges, keep, k, q, g, p, done, w);
      SurvivorIsDone(edges, keep, k, q, g, p, done, w');
    }
  }

  lemma PureReaderStays(edges: Edges, keep: bool, k: Key, q: Queue, g: int, p: Pass, r: RWNode)
    requires Passed(edges, keep, k, q, g, p) && r in q.rSlice && Live(p.s4, r.tx) && !Rmw(k, q, r.tx)
    ensures Num(p.s4, r.tx) <= p.m
  {
    hide Rmw, Bucketed, InOrder, ReadElsewhere, Numbered, IsQueue;
    Untouched(edges, keep, k, q, g, p, r.tx);
    PlacedIsRmw(k, q, q.wSlice, p.s1, p.s2, p.m, keep, p.rmw, p.others, r.tx);
  }

  lemma ReadersStayLow(edges: Edges, keep: bool, k: Key, q: Queue, g: int, p: Pass, s: State, done: set<RWNode>, mw: int)
    requires Passed(edges, keep, k, q, g, p) && AllSettled(keep, q, p, done)
    requires Settling(k, q, p.s4, s, done, p.mr, mw)
    ensures NewReadersLow(k, q, p.s0, s)
  {
    hide Num, Passed, Kept, Rmw;
    forall r, r' | r in q.rSlice && r' in q.rSlice && Live(s, r.tx) && Live(s, r'.tx) && Num(p.s0, r.tx) == 0 &&
                   !Rmw(k, q, r.tx)
      ensures Num(s, r.tx) <= Num(s, r'.tx)
    {
      NoWriteNode(edges, keep, k, q, g, p, done, r);
      ReaderStaysLow(edges, keep, k, q, g, p, r, r');
    }
  }

  lemma ReaderStaysLow(edges: Edges, keep: bool, k: Key, q: Queue, g: int, p: Pass, r: RWNode, r': RWNode)
    requires Passed(edges, keep, k, q, g, p) && r in q.rSlice && r' in q.rSlice && Live(p.s4, r.tx) && Live(p.s4, r'.tx)
    requires Num(p.s0, r.tx) == 0 && !Rmw(k, q, r.tx)
    ensures Num(p.s4, r.tx) <= Num(p.s4, r'.tx)
  {
    hide Rmw, Bucketed, InOrder, ReadElsewhere, Numbered, IsQueue;
    Untouched(edges, keep, k, q, g, p, r.tx);
    Untouched(edges, keep, k, q, g, p, r'.tx);
    PlacedIsRmw(k, q, q.wSlice, p.s1, p.s2, p.m, keep, p.rmw, p.others, r.tx);
  }

  lemma NoWriteNode(edges: Edges, keep: bool, k: Key, q: Queue, g: int, p: Pass, done: set<RWNode>, r: RWNode)
    requires Passed(edges, keep, k, q, g, p) && AllSettled(keep, q, p, done) && r in q.rSlice && !Rmw(k, q, r.tx)
    ensures RWNode(r.tx, k, Write) !in done
  {
    hide Bucketed, InOrder, ReadElsewhere, Numbered, Classified, RmwPlaced, ReadsPlaced, NewPlaced;
    assert r == RWNode(r.tx, k, Read);
  }

  lemma RmwRange(edges: Edges, keep: bool, k: Key, q: Queue, g: int, p: Pass, w: RWNode)
    requires Passed(edges, keep, k, q, g, p) && w in q.wSlice && Live(p.s4, w.tx) && Rmw(k, q, w.tx)
    ensures p.m < Num(p.s4, w.tx) <= p.mr && w in Placed(keep, p.rmw)
  {
    hide Bucketed, InOrder, ReadElsewhere, Numbered, NewPlaced;
    assert w == RWNode(w.tx, k, Write);
    assert Num(p.s1, w.tx) != 0;
    SameAborted(k, q.wSlice, p.others.Keys, p.s3, p.s4, p.mw3, p.mw4);
    assert Determined(p.s2, w.tx);
    var j :| 0 <= j < |p.rmw| && p.rmw[j] == w;
    var c: nat := |Placed(keep, p.rmw)|;
    assert j >= c ==> From(p.rmw, c, w.tx);
    assert Placed(keep, p.rmw)[j] == w;
    PlacedRange(edges, keep, k, q, g, p, j);
    MarkIsBelow(edges, keep, k, q, g, p);
  }

  lemma SameAborted(k: Key, ws: seq<RWNode>, keys: set<int>, s0: State, s: State, mw0: int, mw: int)
    requires NewPlaced(k, ws, keys, s0, s, mw0, mw)
    ensures s.aborted == s0.aborted
  {
  }

  lemma OneRmwLeft(edges: Edges, keep: bool, k: Key, q: Queue, g: int, p: Pass, s: State)
    requires Passed(edges, keep, k, q, g, p) && s.aborted == p.s4.aborted && !keep
    ensures OneRmw(k, q, s)
  {
    hide Passed;
    forall t, t' | Rmw(k, q, t) && Live(s, t) && Rmw(k, q, t') && Live(s, t') ensures t == t' {
      RmwRange(edges, keep, k, q, g, p, RWNode(t, k, Write));
      RmwRange(edges, keep, k, q, g, p, RWNode(t', k, Write));
      assert |Placed(keep, p.rmw)| <= 1;
    }
  }

  lemma NumbersRise(edges: Edges, keep: bool, k: Key, q: Queue, g: int, p: Pass, s: State, done: set<RWNode>, mw: int)
    requires Passed(edges, keep, k, q, g, p) && AllSettled(keep, q, p, done)
    requires Settling(k, q, p.s4, s, done, p.mr, mw)
    ensures Rises(k, q, p.s0, s) && QueueNumbered(q, s)
  {
    hide Num, Passed, Kept, Rmw;
    forall t | Determined(p.s0, t)
      ensures Num(p.s0, t) <= Num(s, t) && (RWNode(t, k, Write) !in q.wSlice ==> Num(p.s0, t) == Num(s, t))
    {
      DeterminedRises(edges, keep, k, q, g, p, t);
    }
    forall t | RWNode(t, k, Read) !in q.rSlice && RWNode(t, k, Write) !in q.wSlice ensures Num(p.s0, t) == Num(s, t) {
      OutsiderStays(edges, keep, k, q, g, p, t);
    }
    forall n | n in q.rSlice || n in q.wSlice ensures Num(s, n.tx) != 0 {
      NodeIsNumbered(edges, keep, k, q, g, p, n);
    }
  }

  lemma DeterminedRises(edges: Edges, keep: bool, k: Key, q: Queue, g: int, p: Pass, t: TxId)
    requires Passed(edges, keep, k, q, g, p) && Determined(p.s0, t)
    ensures Num(p.s0, t) <= Num(p.s4, t) && (RWNode(t, k, Write) !in q.wSlice ==> Num(p.s0, t) == Num(p.s4, t))
  {
    hide Bucketed, InOrder, ReadElsewhere, Numbered, IsQueue, RmwPlaced, NewPlaced;
    Untouched(edges, keep, k, q, g, p, t);
    PlacedIsRmw(k, q, q.wSlice, p.s1, p.s2, p.m, keep, p.rmw, p.others, t);
  }

  lemma OutsiderStays(edges: Edges, keep: bool, k: Key, q: Queue, g: int, p: Pass, t: TxId)
    requires Passed(edges, keep, k, q, g, p) && RWNode(t, k, Read) !in q.rSlice && RWNode(t, k, Write) !in q.wSlice
    ensures Num(p.s0, t) == Num(p.s4, t)
  {
    hide Bucketed, InOrder, ReadElsewhere, Numbered, IsQueue;
    PlacedIsRmw(k, q, q.wSlice, p.s1, p.s2, p.m, keep, p.rmw, p.others, t);
  }

  lemma NodeIsNumbered(edges: Edges, keep: bool, k: Key, q: Queue, g: int, p: Pass, n: RWNode)
    requires Passed(edges, keep, k, q, g, p) && (n in q.rSlice || n in q.wSlice)
    ensures Num(p.s4, n.tx) > 0
  {
    hide Bucketed, InOrder, ReadElsewhere, IsQueue, Rmw;
    MarkIsBelow(edges, keep, k, q, g, p);
    BaseIsPositive(edges, keep, k, q, g, p);
    if Num(p.s1, n.tx) != 0 {
      Untouched(edges, keep, k, q, g, p, n.tx);
    } else if Num(p.s3, n.tx) != 0 {
      PlacedWasDetermined(edges, keep, k, q, g, p, n.tx);
    }
  }

  lemma AbortsExplained(edges: Edges, keep: bool, k: Key, q: Queue, g: int, p: Pass, s: State)
    requires Passed(edges, keep, k, q, g, p) && s.aborted == p.s4.aborted
    ensures Aborts(keep, k, q, p.s0, s)
  {
    hide Bucketed, IsQueue, Rmw, InOrder, ReadElsewhere, LaterRmw, Numbered;
    forall t | t in s.aborted && t !in p.s0.aborted
      ensures (RWNode(t, k, Write) in q.wSlice && !Rmw(k, q, t) && ReadElsewhere(p.s0, k, t)) ||
              (!keep && LaterRmw(k, q, s, t))
    {
      if t in p.s2.aborted {
        ReadWasElsewhere(edges, k, q, p.s0, p.s1, p.m, g, t);
        assert ReadElsewhere(p.s2, k, t) ==> ReadElsewhere(p.s1, k, t) by { SameMarks(p.s1, p.s2, k, t); }
      } else {
        assert From(p.rmw, |Placed(keep, p.rmw)|, t);
        var j :| |Placed(keep, p.rmw)| <= j < |p.rmw| && p.rmw[j].tx == t;
        SecondIsLater(edges, keep, k, q, g, p, s, j);
      }
    }
  }

  lemma SameMarks(s: State, s': State, k: Key, t: TxId)
    requires s.marked == s'.marked
    ensures ReadElsewhere(s, k, t) <==> ReadElsewhere(s', k, t)
  {
  }

  lemma ReadWasElsewhere(edges: Edges, k: Key, q: Queue, s0: State, s: State, m: int, g: int, t: TxId)
    requires ReadsPlaced(edges, k, q, s0, s, m, g) && IsQueue(edges, k, q)
    ensures ReadElsewhere(s, k, t) ==> ReadElsewhere(s0, k, t)
  {
    hide Numbered;
  }

  /** The first read-modify-write survives the call. */
  lemma FirstSurvives(edges: Edges, keep: bool, k: Key, q: Queue, g: int, p: Pass)
    requires Passed(edges, keep, k, q, g, p) && p.rmw != []
    ensures Live(p.s4, p.rmw[0].tx)
  {
    hide Bucketed, Rmw, ReadElsewhere, Numbered, ReadsPlaced, InOrder;
    assert p.rmw[0] in p.rmw;
    forall j | 1 <= j < |p.rmw| ensures p.rmw[j].tx != p.rmw[0].tx {
      assert p.rmw[j] in p.rmw;
      assert p.rmw[0] == RWNode(p.rmw[0].tx, k, Write) && p.rmw[j] == RWNode(p.rmw[j].tx, k, Write);
    }
    assert Placed(keep, p.rmw) == p.rmw || |Placed(keep, p.rmw)| == 1;
  }

  lemma SecondIsLater(edges: Edges, keep: bool, k: Key, q: Queue, g: int, p: Pass, s: State, j: nat)
    requires Passed(edges, keep, k, q, g, p) && |Placed(keep, p.rmw)| <= j < |p.rmw| && s.aborted == p.s4.aborted
    ensures !keep && LaterRmw(k, q, s, p.rmw[j].tx)
  {
    hide Bucketed, Rmw, ReadElsewhere, Numbered, RmwPlaced, NewPlaced, ReadsPlaced, Precedes;
    FirstSurvives(edges, keep, k, q, g, p);
    assert p.rmw[0] in p.rmw && p.rmw[j] in p.rmw;
    assert Precedes(q.wSlice, p.rmw[0], p.rmw[j]);
    assert p.rmw[0] == RWNode(p.rmw[0].tx, k, Write) && p.rmw[j] == RWNode(p.rmw[j].tx, k, Write);
    assert BehindAnother(k, q, p.rmw[j].tx, p.rmw[0].tx);
  }

  lemma MarksGrow(edges: Edges, keep: bool, k: Key, q: Queue, g: int, p: Pass, s: State, done: set<RWNode>, mw: int)
    requires Passed(edges, keep, k, q, g, p) && AllSettled(keep, q, p, done)
    requires Settling(k, q, p.s4, s, done, p.mr, mw)
    ensures Marking(q, p.s0, s)
  {
    hide Bucketed, Rmw, ReadElsewhere, Numbered, InOrder, Kept, IsQueue;
    forall n | n in Placed(keep, p.rmw) ensures n in q.wSlice {
      assert n in p.rmw;
    }
  }

  /** The phases together: once every surviving write is settled, the queue is sorted. */
  lemma QueueIsSorted(edges: Edges, keep: bool, k: Key, q: Queue, g: int, p: Pass, s: State, done: set<RWNode>,
                      mw: int, g': int)
    requires Passed(edges, keep, k, q, g, p) && AllSettled(keep, q, p, done) && Numbered(edges, s, g')
    requires Settling(k, q, p.s4, s, done, p.mr, mw)
    ensures QueueSorted(edges, keep, k, q, p.s0, s, p.m, p.mr, g')
  {
    hide Passed, AllSettled, Numbered, Bands, OneRmw, Rises, QueueNumbered, Aborts, Marking, NewReadersLow;
    ReadersStayLow(edges, keep, k, q, g, p, s, done, mw);
    BandsHold(edges, keep, k, q, g, p, s, done, mw);
    if !keep {
      OneRmwLeft(edges, keep, k, q, g, p, s);
    }
    NumbersRise(edges, keep, k, q, g, p, s, done, mw);
    AbortsExplained(edges, keep, k, q, g, p, s);
    MarksGrow(edges, keep, k, q, g, p, s, done, mw);
  }

  /** Without the variant, survivors of a sorted queue are in a safe order: every
      read lies below every write of another transaction. */
  ghost predicate ReadsBelowWrites(q: Queue, s: State) {
    forall r, w :: r in q.rSlice && w in q.wSlice && r.tx != w.tx && Live(s, r.tx) && Live(s, w.tx) ==>
                     Num(s, r.tx) < Num(s, w.tx)
  }

  lemma BandsAreSafe(edges: Edges, k: Key, q: Queue, s: State, m: int, mr: int)
    requires IsQueue(edges, k, q) && Bands(k, q, s, m, mr) && OneRmw(k, q, s)
    ensures ReadsBelowWrites(q, s)
  {
    forall r, w | r in q.rSlice && w in q.wSlice && r.tx != w.tx && Live(s, r.tx) && Live(s, w.tx)
      ensures Num(s, r.tx) < Num(s, w.tx)
    {
      assert r == RWNode(r.tx, k, Read) && w == RWNode(w.tx, k, Write);
      if Rmw(k, q, r.tx) {
        assert RWNode(r.tx, k, Write) in q.wSlice;
        assert !Rmw(k, q, w.tx);
      }
    }
  }
}

/**
 The invariant every step of the Depurge protocol keeps.

 A world is the scheduler's state together with the history a reader of the
 protocol knows: the order in which transactions were added, which are in
 flight (popped and unfinished), which are gone (executed or aborted), and
 which keys each in-flight transaction has been pruned from.
 */
module DepurgeInvariant {
  import opened Sequences
  import opened Deltas
  import opened Footprint
  import opened DepurgeModel

  datatype World = World(
    s: Sched,
    order: seq<TxId>,
    flight: set<TxId>,
    gone: set<TxId>,
    pruned: map<TxId, set<Key>>)

  ghost function Pruned(w: World, t: TxId): set<Key> {
    if t in w.pruned then w.pruned[t] else {}
  }

  /** Transactions added but not popped yet. */
  ghost predicate Waiting(w: World, t: TxId) {
    t in w.order && t !in w.flight && t !in w.gone
  }

  /** `t` still stands in the queue of `k`. */
  ghost predicate Holds(w: World, t: TxId, k: Key) {
    t in w.order && t !in w.gone && k in KeysOf(w.s, t) && k !in Pruned(w, t)
  }

  /** The keys at whose front another transaction stands. */
  ghost function Behind(s: Sched, t: TxId): set<Key> {
    set k | k in KeysOf(s, t) && Front(s, k) != t
  }

  ghost predicate Increasing(order: seq<TxId>, q: seq<TxId>) {
    && (forall t :: t in q ==> t in order)
    && (forall i, j :: 0 <= i < j < |q| ==> Rank(order, q[i]) < Rank(order, q[j]))
  }

  ghost predicate Shape(w: World) {
    && Distinct(w.order) && NONE !in w.order
    && (forall t :: t in w.order <==> t in w.s.keysOf)
    && (forall t :: t in w.order <==> t in w.s.count)
    && (forall t :: t in w.order ==> Distinct(KeysOf(w.s, t)))
    && (forall t, k :: t in w.order && k in KeysOf(w.s, t) ==> k in w.s.queues)
    && (forall t :: t in w.flight ==> t in w.order && t !in w.gone)
    && (forall t :: t in w.gone ==> t in w.order)
    && (forall t :: Waiting(w, t) ==> Pruned(w, t) == {})
    && w.gone <= w.s.executed <= w.gone + w.flight
  }

  /** Each key's queue holds, in insertion order, exactly the unfinished
      transactions that list the key and have not been pruned from it. */
  ghost predicate Queued(w: World) {
    && (forall k, t :: k in w.s.queues ==> (t in w.s.queues[k] <==> Holds(w, t, k)))
    && (forall k :: k in w.s.queues ==> Increasing(w.order, w.s.queues[k]))
  }

  ghost predicate Counted(w: World) {
    forall t :: Waiting(w, t) ==> CountOf(w.s, t) == |Behind(w.s, t)|
  }

  ghost predicate AtFront(w: World) {
    && (forall t :: t in w.flight ==> CountOf(w.s, t) == 0)
    && (forall t, k :: t in w.flight && Holds(w, t, k) ==> Front(w.s, k) == t)
  }

  ghost predicate Lanes(w: World) {
    && Distinct(w.s.ready) && Distinct(w.s.pruneReady)
    && (forall t :: t in w.s.ready <==> t in w.s.inReady)
    && (forall t :: t in w.s.pruneReady <==> t in w.s.inPruneReady)
    && w.s.inReady !! w.s.inPruneReady
    && (forall t :: t in w.s.inReady + w.s.inPruneReady <==> Waiting(w, t) && CountOf(w.s, t) == 0)
  }

  ghost predicate Core(w: World) {
    Shape(w) && Queued(w) && Counted(w) && AtFront(w) && Lanes(w)
  }

  /** What holds between any two steps. */
  ghost predicate Inv(w: World) {
    Core(w) && w.s.executed == w.gone
  }

  // ------------------------------------------------- one key is given up

  /** `t` leaves the queue of `k`; its successor there is told. */
  ghost function Drop(w: World, t: TxId, k: Key, lane: Lane): World {
    w.(s := ReleaseOne(w.s, t, k, lane), pruned := w.pruned[t := Pruned(w, t) + {k}])
  }

  /** The queue of `k` without its front, before the successor is told. */
  ghost function Popped(w: World, t: TxId, k: Key): World
    requires k in w.s.queues && w.s.queues[k] != []
  {
    w.(s := PopFront(w.s, k), pruned := w.pruned[t := Pruned(w, t) + {k}])
  }

  lemma FrontHolds(w: World, t: TxId, k: Key)
    requires Core(w) && t in w.flight && Holds(w, t, k)
    ensures k in w.s.queues && w.s.queues[k] != [] && w.s.queues[k][0] == t
    ensures t !in w.s.queues[k][1..]
  {
    assert t in w.s.queues[k];
    var q := w.s.queues[k];
    assert Front(w.s, k) == t;
    assert forall i :: 1 <= i < |q| ==> q[i] != q[0];
  }

  /** The transaction that moves to the front was waiting, one key behind. */
  lemma NextWaits(w: World, t: TxId, k: Key)
    requires Core(w) && t in w.flight && Holds(w, t, k)
    requires k in w.s.queues && |w.s.queues[k]| > 1
    ensures var next := w.s.queues[k][1];
            Waiting(w, next) && next != t && next != NONE && next !in w.s.executed
            && k in Behind(w.s, next) && CountOf(w.s, next) > 0
  {
    hide Rank;
    FrontHolds(w, t, k);
    var next := w.s.queues[k][1];
    assert next in w.s.queues[k][1..];
    assert next in w.s.queues[k];
    assert Holds(w, next, k);
    assert next !in w.flight;
    assert k in Behind(w.s, next);
  }

  lemma PoppedFronts(w: World, t: TxId, k: Key)
    requires Core(w) && t in w.flight && Holds(w, t, k)
    requires k in w.s.queues && w.s.queues[k] != []
    ensures var s' := Popped(w, t, k).s;
            (forall k' :: k' != k ==> Front(s', k') == Front(w.s, k'))
            && Front(s', k) == (if |w.s.queues[k]| > 1 then w.s.queues[k][1] else NONE)
  {
  }

  lemma PoppedTables(w: World, t: TxId, k: Key)
    requires k in w.s.queues && w.s.queues[k] != [] && t in w.flight
    ensures
      var w' := Popped(w, t, k);
      && (forall u, k' :: Holds(w', u, k') <==> Holds(w, u, k') && !(u == t && k' == k))
      && (forall u :: Waiting(w', u) <==> Waiting(w, u))
      && w'.s.queues == w.s.queues[k := w.s.queues[k][1..]] && w'.order == w.order
  {
  }

  lemma TailIncreasing(order: seq<TxId>, q: seq<TxId>)
    requires Increasing(order, q) && q != []
    ensures Increasing(order, q[1..])
  {
    hide Rank;
  }

  lemma PoppedQueue(w: World, t: TxId, k: Key, k': Key)
    requires k in w.s.queues && w.s.queues[k] != [] && t in w.flight && k' in w.s.queues
    requires w.s.queues[k][0] == t && t !in w.s.queues[k][1..]
    requires Increasing(w.order, w.s.queues[k']) && forall u :: u in w.s.queues[k'] <==> Holds(w, u, k')
    ensures
      var w' := Popped(w, t, k);
      Increasing(w.order, w'.s.queues[k']) && forall u :: u in w'.s.queues[k'] <==> Holds(w', u, k')
  {
    hide Holds, Popped, Waiting, Increasing;
    PoppedTables(w, t, k);
    var q := w.s.queues[k];
    assert q == [q[0]] + q[1..];
    if k' == k {
      TailIncreasing(w.order, q);
    }
  }

  lemma PoppedQueued(w: World, t: TxId, k: Key)
    requires Core(w) && t in w.flight && Holds(w, t, k)
    requires k in w.s.queues && w.s.queues[k] != []
    ensures Shape(Popped(w, t, k)) && Queued(Popped(w, t, k))
  {
    hide Shape, Counted, AtFront, Lanes, Holds, Popped, Increasing;
    PoppedShape(w, t, k);
    FrontHolds(w, t, k);
    PoppedTables(w, t, k);
    forall k' | k' in w.s.queues
      ensures var w' := Popped(w, t, k);
              Increasing(w.order, w'.s.queues[k']) && forall u :: u in w'.s.queues[k'] <==> Holds(w', u, k')
    {
      PoppedQueue(w, t, k, k');
    }
  }

  lemma PoppedShape(w: World, t: TxId, k: Key)
    requires Shape(w) && t in w.flight && k in w.s.queues && w.s.queues[k] != []
    ensures Shape(Popped(w, t, k))
  {
    PoppedTables(w, t, k);
    hide Holds;
  }

  lemma PoppedBehind(w: World, t: TxId, k: Key, u: TxId)
    requires Core(w) && t in w.flight && Holds(w, t, k) && Waiting(w, u)
    requires k in w.s.queues && w.s.queues[k] != []
    ensures var s' := Popped(w, t, k).s;
            Behind(s', u) == if Front(s', k) == u then Behind(w.s, u) - {k} else Behind(w.s, u)
  {
    hide Rank;
    FrontHolds(w, t, k);
    PoppedFronts(w, t, k);
  }

  /** Giving up one key keeps the invariant, whichever lane the successor is
      told to take. */
  lemma DropKeeps(w: World, t: TxId, k: Key, lane: Lane)
    requires Core(w) && t in w.flight && Holds(w, t, k)
    ensures Core(Drop(w, t, k, lane))
  {
    FrontHolds(w, t, k);
    hide Shape, Queued, Counted, AtFront, Lanes, Holds, Notify;
    var p := Popped(w, t, k);
    PoppedQueued(w, t, k);
    PoppedFronts(w, t, k);
    PoppedCounts(w, t, k, lane);
    PoppedLanes(w, t, k, lane);
    DropCounts(w, t, k, lane);
    SameQueues(p, Drop(w, t, k, lane));
  }

  lemma SameQueues(p: World, w: World)
    requires Shape(p) && Queued(p)
    requires w.s.queues == p.s.queues && w.s.keysOf == p.s.keysOf && w.s.executed == p.s.executed
    requires w.order == p.order && w.flight == p.flight && w.gone == p.gone && w.pruned == p.pruned
    requires forall t :: t in w.s.count <==> t in p.s.count
    ensures Shape(w) && Queued(w)
  {
    hide Rank;
    assert forall t, k :: Holds(w, t, k) <==> Holds(p, t, k);
    assert forall t :: Waiting(w, t) <==> Waiting(p, t);
  }

  lemma NotifyChanges(s: Sched, next: TxId, lane: Lane)
    ensures var s' := Notify(s, next, lane);
            && s'.queues == s.queues && s'.keysOf == s.keysOf && s'.executed == s.executed
            && (forall u :: u != next || u == NONE || u in s.executed ==> CountOf(s', u) == CountOf(s, u))
            && (next != NONE && next !in s.executed ==> CountOf(s', next) == CountOf(s, next) - 1)
            && (next in s.count || next == NONE ==> forall u :: u in s'.count <==> u in s.count)
  {
  }

  lemma ReleasedFront(w: World, t: TxId, k: Key, lane: Lane)
    requires k in w.s.queues && w.s.queues[k] != [] && w.s.queues[k][0] == t
    ensures var s' := PopFront(w.s, k);
            Drop(w, t, k, lane).s == Notify(s', Front(s', k), lane)
            && Front(s', k) == (if |w.s.queues[k]| > 1 then w.s.queues[k][1] else NONE)
            && Front(Drop(w, t, k, lane).s, k) == Front(s', k)
  {
    NotifyChanges(PopFront(w.s, k), Front(PopFront(w.s, k), k), lane);
  }

  /** What telling the successor changes. */
  lemma DropCounts(w: World, t: TxId, k: Key, lane: Lane)
    requires Core(w) && t in w.flight && Holds(w, t, k)
    ensures var w' := Drop(w, t, k, lane);
            && (forall u :: u in w'.s.count <==> u in w.s.count)
            && (forall u :: w.s.queues[k] != [] && Front(w'.s, k) == u && u != NONE ==>
                  Waiting(w, u) && k in Behind(w.s, u) && CountOf(w'.s, u) == CountOf(w.s, u) - 1)
            && (forall u :: Front(w'.s, k) != u ==> CountOf(w'.s, u) == CountOf(w.s, u))
            && w'.s.queues == PopFront(w.s, k).queues && w'.s.keysOf == w.s.keysOf && w'.s.executed == w.s.executed
  {
    FrontHolds(w, t, k);
    ReleasedFront(w, t, k, lane);
    assert |w.s.queues[k]| > 1 ==> w.s.queues[k][1] in w.s.count by {
      if |w.s.queues[k]| > 1 { NextWaits(w, t, k); }
    }
    if |w.s.queues[k]| > 1 { NextWaits(w, t, k); }
    hide Rank, Core, Holds, Behind, Notify, Drop, Front;
    NotifyChanges(PopFront(w.s, k), Front(PopFront(w.s, k), k), lane);
  }

  lemma PoppedCounts(w: World, t: TxId, k: Key, lane: Lane)
    requires Core(w) && t in w.flight && Holds(w, t, k)
    ensures Counted(Drop(w, t, k, lane)) && AtFront(Drop(w, t, k, lane))
  {
    hide Rank, Increasing, Lanes, Queued;
    FrontHolds(w, t, k);
    PoppedFronts(w, t, k);
    DropCounts(w, t, k, lane);
    var p, w' := Popped(w, t, k), Drop(w, t, k, lane);
    hide ReleaseOne, PopFront, Notify;
    forall u | Waiting(w', u) ensures CountOf(w'.s, u) == |Behind(w'.s, u)| {
      assert Waiting(w, u) && u != NONE;
      PoppedBehind(w, t, k, u);
      assert Behind(w'.s, u) == Behind(p.s, u);
    }
    forall u, k' | u in w'.flight && Holds(w', u, k') ensures Front(w'.s, k') == u {
      assert Holds(w, u, k');
      assert Front(w.s, k) == t;
    }
  }

  lemma NotifyLanes(s: Sched, next: TxId, lane: Lane)
    requires next != NONE && next !in s.executed ==> next !in s.inReady && next !in s.inPruneReady
    ensures var s' := Notify(s, next, lane);
            if next != NONE && next !in s.executed && CountOf(s, next) == 1 then
              s' == Push(s.(count := s.count[next := 0]), next, lane)
            else
              s'.ready == s.ready && s'.pruneReady == s.pruneReady
              && s'.inReady == s.inReady && s'.inPruneReady == s.inPruneReady
  {
  }

  lemma PushKeepsLists(s: Sched, t: TxId, lane: Lane)
    requires Distinct(s.ready) && Distinct(s.pruneReady) && s.inReady !! s.inPruneReady
    requires forall u :: u in s.ready <==> u in s.inReady
    requires forall u :: u in s.pruneReady <==> u in s.inPruneReady
    requires t !in s.inReady && t !in s.inPruneReady
    ensures var s' := Push(s, t, lane);
            && Distinct(s'.ready) && Distinct(s'.pruneReady) && s'.inReady !! s'.inPruneReady
            && (forall u :: u in s'.ready <==> u in s'.inReady)
            && (forall u :: u in s'.pruneReady <==> u in s'.inPruneReady)
            && (forall u :: u in s'.inReady + s'.inPruneReady <==> u == t || u in s.inReady + s.inPruneReady)
  {
  }

  lemma PoppedLanes(w: World, t: TxId, k: Key, lane: Lane)
    requires Core(w) && t in w.flight && Holds(w, t, k)
    ensures Lanes(Drop(w, t, k, lane))
  {
    hide Rank, Shape, Queued, Counted, AtFront, Holds, Behind, Notify, ReleaseOne, Front;
    FrontHolds(w, t, k);
    ReleasedFront(w, t, k, lane);
    DropCounts(w, t, k, lane);
    var w', s' := Drop(w, t, k, lane), PopFront(w.s, k);
    var next := Front(s', k);
    assert forall u :: Waiting(w', u) <==> Waiting(w, u);
    if next != NONE {
      NextWaits(w, t, k);
      assert next !in w.s.inReady && next !in w.s.inPruneReady by { assert next !in w.s.inReady + w.s.inPruneReady; }
      NotifyLanes(s', next, lane);
      if CountOf(w.s, next) == 1 { PushKeepsLists(s'.(count := s'.count[next := 0]), next, lane); }
    } else {
      NotifyLanes(s', next, lane);
      NoneIsNobody(w);
    }
  }

  lemma NoneIsNobody(w: World)
    requires Core(w)
    ensures !Waiting(w, NONE)
  {
  }
}

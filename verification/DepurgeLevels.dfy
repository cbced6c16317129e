/**
 Levels: how deep a transaction stands below earlier ones it shares keys with.
 */
module DepurgeLevels {
  import opened Sequences
  import opened Deltas
  import opened Footprint
  import opened DepurgeModel
  import opened DepurgeInvariant
  import opened DepurgeSteps
  import D = Depths

  type Keys = map<TxId, seq<Key>>

  ghost function ListOf(keys: Keys, t: TxId): seq<Key> {
    if t in keys then keys[t] else []
  }

  ghost predicate Shares(keys: Keys, t: TxId, u: TxId) {
    exists k :: k in ListOf(keys, t) && k in ListOf(keys, u)
  }

  /** A later transaction depends on the earlier ones it shares a key with. */
  ghost function Sharing(keys: Keys, order: seq<TxId>): D.Relation {
    (a: nat, i: nat) => a < |order| && i < |order| && Shares(keys, order[a], order[i])
  }

  /** The number of levels above the `i`-th added transaction. */
  ghost function Depth(keys: Keys, order: seq<TxId>, i: nat): nat {
    D.Depth(Sharing(keys, order), i)
  }

  /** An earlier transaction sharing a key stands strictly higher. */
  lemma SharingDeepens(keys: Keys, order: seq<TxId>, a: nat, i: nat)
    requires a < i < |order| && Shares(keys, order[a], order[i])
    ensures Depth(keys, order, a) < Depth(keys, order, i)
  {
    D.Deepens(Sharing(keys, order), a, i);
  }

  /** Transactions on one level share no key. */
  lemma LevelIsDisjoint(keys: Keys, order: seq<TxId>, i: nat, j: nat)
    requires i < |order| && j < |order| && i != j && Depth(keys, order, i) == Depth(keys, order, j)
    ensures !Shares(keys, order[i], order[j])
  {
    hide Depth;
    SharesSymmetric(keys, order[i], order[j]);
    if Shares(keys, order[i], order[j]) {
      if i < j {
        SharingDeepens(keys, order, i, j);
      } else {
        SharingDeepens(keys, order, j, i);
      }
    }
  }

  lemma SharesSymmetric(keys: Keys, t: TxId, u: TxId)
    ensures Shares(keys, t, u) <==> Shares(keys, u, t)
  {
  }

  // ---------------------------------------- levels of a running scheduler

  ghost function Level(w: World, t: TxId): nat
    requires t in w.order
  {
    Depth(w.s.keysOf, w.order, Rank(w.order, t))
  }

  ghost predicate AllAbove(w: World, level: nat) {
    && w.flight == {} && w.s.pruneReady == []
    && (forall t :: t in w.order ==> (t in w.gone <==> Level(w, t) < level))
  }

  /** Two unfinished transactions sharing a key: the later one is not ready. */
  lemma LaterIsBehind(w: World, t: TxId, u: TxId)
    requires Inv(w) && w.flight == {} && Waiting(w, t) && Waiting(w, u)
    requires Shares(w.s.keysOf, u, t) && Rank(w.order, u) < Rank(w.order, t)
    ensures CountOf(w.s, t) != 0
  {
    var k :| k in ListOf(w.s.keysOf, u) && k in ListOf(w.s.keysOf, t);
    WaitingHolds(w, u, k);
    WaitingHolds(w, t, k);
    if CountOf(w.s, t) == 0 {
      ReadyHeads(w, t);
      NobodyBeforeFront(w, k, u);
    }
  }

  lemma NobodyBeforeFront(w: World, k: Key, u: TxId)
    requires Inv(w) && Holds(w, u, k)
    ensures k in w.s.queues && w.s.queues[k] != [] && Holds(w, Front(w.s, k), k)
    ensures Rank(w.order, Front(w.s, k)) <= Rank(w.order, u)
  {
    hide Rank, Counted, Lanes, AtFront;
    var q := w.s.queues[k];
    assert u in q;
    var i :| 0 <= i < |q| && q[i] == u;
    assert q[0] in q && Holds(w, q[0], k);
    assert Increasing(w.order, q);
  }

  lemma RankOf(order: seq<TxId>, t: TxId)
    requires t in order
    ensures Rank(order, t) < |order| && order[Rank(order, t)] == t
  {
  }

  lemma ReadyAreNext(w: World, level: nat, t: TxId)
    requires Inv(w) && AllAbove(w, level) && t in w.s.ready
    ensures t in w.order && Level(w, t) == level
  {
    assert Waiting(w, t) && CountOf(w.s, t) == 0 by {
      hide Rank, Shape, Queued, Counted, AtFront, AllAbove;
      assert t in w.s.inReady + w.s.inPruneReady;
    }
    hide Inv, Depth, Rank;
    var i := Rank(w.order, t);
    RankOf(w.order, t);
    if Level(w, t) > level {
      var a := DepthReached(w.s.keysOf, w.order, i);
      var u := w.order[a];
      InvDistinct(w);
      RankAt(w.order, a);
      LaterIsBehind(w, t, u);
    }
  }

  lemma DepthReached(keys: Keys, order: seq<TxId>, i: nat) returns (a: nat)
    requires i < |order| && Depth(keys, order, i) > 0
    ensures a < i && Shares(keys, order[a], order[i]) && Depth(keys, order, a) + 1 == Depth(keys, order, i)
  {
    a := D.Reached(Sharing(keys, order), i);
  }

  lemma InvDistinct(w: World)
    requires Inv(w)
    ensures Distinct(w.order)
  {
    hide Rank, Queued, Counted, AtFront, Lanes;
  }

  lemma RankAt(order: seq<TxId>, a: nat)
    requires Distinct(order) && a < |order|
    ensures order[a] in order && Rank(order, order[a]) == a
  {
  }

  lemma NextAreReady(w: World, level: nat, t: TxId)
    requires Inv(w) && AllAbove(w, level) && t in w.order && Level(w, t) == level
    ensures t in w.s.ready
  {
    assert Waiting(w, t);
    forall k | k in KeysOf(w.s, t) ensures Front(w.s, k) == t {
      WaitingHolds(w, t, k) by { assert Shape(w); }
      NobodyBeforeFront(w, k, t);
      var u := Front(w.s, k);
      hide Inv, Depth, Rank;
      RankOf(w.order, t);
      RankOf(w.order, u);
      if u != t {
        assert k in ListOf(w.s.keysOf, u) && k in ListOf(w.s.keysOf, t);
        SharingDeepens(w.s.keysOf, w.order, Rank(w.order, u), Rank(w.order, t));
      }
    }
    hide Rank, Queued, AtFront, AllAbove, Depth;
    assert Behind(w.s, t) == {};
    assert t in w.s.inReady + w.s.inPruneReady;
    assert t !in w.s.pruneReady by { NoPruned(w, level); }
  }

  lemma NoPruned(w: World, level: nat)
    requires AllAbove(w, level)
    ensures w.s.pruneReady == []
  {
  }

  // -------------------------------------------------- running one level

  /** One round of the inner loop of `schedule`. */
  ghost function RunFirst(w: World): World
    requires w.s.ready != []
  {
    Finished(PoppedReady(w), w.s.ready[0], Ready)
  }

  lemma {:induction false} ReleaseAllToReady(s: Sched, t: TxId, keys: seq<Key>)
    ensures var s' := ReleaseAll(s, t, keys, Ready);
            s'.pruneReady == s.pruneReady && s.ready <= s'.ready
  {
    if keys != [] {
      ReleaseAllToReady(s, t, keys[..|keys| - 1]);
    }
  }

  lemma ExecuteToReady(s: Sched, t: TxId)
    ensures Execute(s, t).pruneReady == s.pruneReady && s.ready <= Execute(s, t).ready
  {
    ReleaseAllToReady(s.(executed := s.executed + {t}), t, KeysOf(s, t));
  }

  ghost predicate Idle(w: World) {
    w.flight == {} && w.s.pruneReady == []
  }

  lemma RunFirstKeeps(w: World)
    requires Inv(w) && Idle(w) && w.s.ready != []
    ensures var w', t := RunFirst(w), w.s.ready[0];
            && Inv(w') && Idle(w') && w'.order == w.order && w'.s.keysOf == w.s.keysOf
            && w'.gone == w.gone + {t} && t in w.order && t !in w.gone && t != NONE
            && w.s.ready[1..] <= w'.s.ready
            && w'.s == Execute(PopReady(w.s), t)
  {
    var t, p := w.s.ready[0], PoppedReady(w);
    hide Inv, Finish;
    PopReadyKeeps(w);
    FinishKeeps(p, t, Ready);
    InFlightAlive(p, t) by { InvIsCore(p); }
    ExecuteToReady(p.s, t);
  }

  /** When everything that was ready at the start of a level has run, the next
      level begins. */
  lemma LevelDone(w: World, level: nat, w': World)
    requires Inv(w) && AllAbove(w, level)
    requires Idle(w') && w'.order == w.order && w'.s.keysOf == w.s.keysOf
    requires forall t :: t in w'.gone <==> t in w.gone || t in w.s.ready
    ensures AllAbove(w', level + 1)
  {
    forall t | t in w'.order ensures t in w'.gone <==> Level(w', t) < level + 1 {
      if t in w.s.ready { ReadyAreNext(w, level, t); }
      if Level(w, t) == level { NextAreReady(w, level, t); }
    }
  }

  lemma LevelIsSmall(w: World, t: TxId)
    requires t in w.order
    ensures Level(w, t) < |w.order|
  {
    var i := Rank(w.order, t);
    D.DepthIsSmall(Sharing(w.s.keysOf, w.order), i);
  }

  lemma SameLevel(w: World, w': World, t: TxId)
    requires t in w.order && w'.order == w.order && w'.s.keysOf == w.s.keysOf
    ensures Level(w', t) == Level(w, t)
  {
  }
}

/**
 What finishing and pruning do to the queues and to the two lists of dispatchable
 transactions: who leaves which queue, who is told, in which list they stand, and in
 which order.
 */
module DepurgeLanes {
  import opened Sequences
  import opened Deltas
  import opened Footprint
  import opened DepurgeModel
  import opened DepurgeInvariant
  import opened DepurgeSteps

  // -------------------------------------------------------------- one lane

  /** Only the given list changes, and it only grows at its end. */
  ghost predicate Fills(s: Sched, s': Sched, lane: Lane) {
    if lane.Ready? then s'.pruneReady == s.pruneReady && s'.inPruneReady == s.inPruneReady && s.ready <= s'.ready
    else s'.ready == s.ready && s'.inReady == s.inReady && s.pruneReady <= s'.pruneReady
  }

  lemma {:induction false} ReleaseAllFills(s: Sched, t: TxId, keys: seq<Key>, lane: Lane)
    ensures Fills(s, ReleaseAll(s, t, keys, lane), lane)
  {
    if keys != [] {
      ReleaseAllFills(s, t, keys[..|keys| - 1], lane);
    }
  }

  lemma {:induction false} PruneAllFills(s: Sched, t: TxId, keys: seq<Key>, realKeys: set<Key>)
    ensures Fills(s, PruneAll(s, t, keys, realKeys), PruneReady)
  {
    if keys != [] {
      PruneAllFills(s, t, keys[..|keys| - 1], realKeys);
    }
  }

  /** `Execute` fills the ready list, `Abort` and `Prune` the prune-ready list. */
  lemma LaneOf(s: Sched, t: TxId, realKeys: set<Key>)
    ensures Fills(s, Execute(s, t), Ready) && Fills(s, Abort(s, t), PruneReady)
    ensures Fills(s, Prune(s, t, realKeys), PruneReady)
  {
    hide ReleaseAll, PruneAll;
    ReleaseAllFills(s.(executed := s.executed + {t}), t, KeysOf(s, t), Ready);
    ReleaseAllFills(s.(executed := s.executed + {t}), t, KeysOf(s, t), PruneReady);
    PruneAllFills(s, t, KeysOf(s, t), realKeys);
  }

  // ------------------------------------------------------------- the queues

  /** `q'` is `q` without `t`; everyone else keeps their place. */
  ghost predicate LeftBy(q: seq<TxId>, q': seq<TxId>, t: TxId) {
    if t !in q then q' == q
    else exists i :: 0 <= i < |q| && q[i] == t && q' == q[..i] + q[i + 1..]
  }

  lemma OneFurther(q: seq<TxId>, i: nat)
    requires i + 1 < |q|
    ensures q[1..][i] == q[i + 1] && [q[0]] + (q[1..][..i] + q[1..][i + 1..]) == q[..i + 1] + q[i + 1 + 1..]
  {
    assert q[..i + 1] == [q[0]] + q[1..][..i] && q[i + 2..] == q[1..][i + 1..];
  }

  lemma {:induction false} RemoveLeaves(q: seq<TxId>, t: TxId)
    ensures LeftBy(q, Remove(q, t), t)
  {
    if q != [] {
      RemoveLeaves(q[1..], t);
      if q[0] == t {
        assert q[..0] + q[0 + 1..] == q[1..];
      } else if t in q {
        var i :| 0 <= i < |q[1..]| && q[1..][i] == t && Remove(q[1..], t) == q[1..][..i] + q[1..][i + 1..];
        OneFurther(q, i);
      }
    }
  }

  lemma NotifyQueues(s: Sched, next: TxId, lane: Lane)
    ensures Notify(s, next, lane).queues == s.queues
  {
  }

  lemma PruneOneQueues(s: Sched, t: TxId, k: Key)
    ensures PruneOne(s, t, k).queues ==
            if k in s.queues && t in s.queues[k] then s.queues[k := Remove(s.queues[k], t)] else s.queues
  {
    hide Notify, Remove;
    if k in s.queues && t in s.queues[k] {
      var s' := s.(queues := s.queues[k := Remove(s.queues[k], t)]);
      NotifyQueues(s', Front(s', k), PruneReady);
    }
  }

  lemma {:induction false} RemoveAbsent(q: seq<TxId>, t: TxId)
    requires t !in q
    ensures Remove(q, t) == q
  {
    if q != [] {
      RemoveAbsent(q[1..], t);
    }
  }

  /** In every state: the transaction leaves exactly the queues of the keys it lists
      outside the real ones, and everyone else keeps their place. */
  lemma {:induction false} PruneAllQueues(s: Sched, t: TxId, keys: seq<Key>, realKeys: set<Key>, k: Key)
    requires Distinct(keys)
    ensures
      var s' := PruneAll(s, t, keys, realKeys);
      && (k in s'.queues <==> k in s.queues)
      && (k in s.queues ==> s'.queues[k] == if k in keys && k !in realKeys then Remove(s.queues[k], t) else s.queues[k])
  {
    hide PruneOne, Remove;
    if keys != [] {
      var n := |keys| - 1;
      assert keys == keys[..n] + [keys[n]];
      PruneAllQueues(s, t, keys[..n], realKeys, k);
      var p := PruneAll(s, t, keys[..n], realKeys);
      PruneOneQueues(p, t, keys[n]);
      if keys[n] == k && k in s.queues && t !in s.queues[k] {
        RemoveAbsent(s.queues[k], t);
      }
    }
  }

  lemma PruneQueues(s: Sched, t: TxId, realKeys: set<Key>, k: Key)
    requires Distinct(KeysOf(s, t))
    ensures
      var s' := Prune(s, t, realKeys);
      && (k in s'.queues <==> k in s.queues)
      && (k in s.queues && k in KeysOf(s, t) && k !in realKeys ==> LeftBy(s.queues[k], s'.queues[k], t))
      && (k in s.queues && !(k in KeysOf(s, t) && k !in realKeys) ==> s'.queues[k] == s.queues[k])
  {
    hide Remove;
    PruneAllQueues(s, t, KeysOf(s, t), realKeys, k);
    if k in s.queues {
      RemoveLeaves(s.queues[k], t);
    }
  }

  /** In every state: a transaction that is not done leaves exactly the queues it heads
      among those of its keys. */
  lemma {:induction false} ReleaseAllQueues(s: Sched, t: TxId, keys: seq<Key>, lane: Lane, k: Key)
    requires Distinct(keys)
    ensures
      var s' := ReleaseAll(s, t, keys, lane);
      && (k in s'.queues <==> k in s.queues)
      && (k in s.queues ==>
            s'.queues[k] == if k in keys && s.queues[k] != [] && s.queues[k][0] == t then s.queues[k][1..] else s.queues[k])
  {
    hide Notify;
    if keys != [] {
      var n := |keys| - 1;
      assert keys == keys[..n] + [keys[n]];
      ReleaseAllQueues(s, t, keys[..n], lane, k);
      var p := ReleaseAll(s, t, keys[..n], lane);
      if keys[n] in p.queues && p.queues[keys[n]] != [] {
        NotifyQueues(PopFront(p, keys[n]), Front(PopFront(p, keys[n]), keys[n]), lane);
      }
    }
  }

  lemma FinishQueues(s: Sched, t: TxId, lane: Lane, k: Key)
    requires Distinct(KeysOf(s, t)) && t !in s.executed
    ensures
      var s' := if lane.Ready? then Execute(s, t) else Abort(s, t);
      && s'.executed == s.executed + {t} && (k in s'.queues <==> k in s.queues)
      && (k in s.queues ==>
            s'.queues[k] ==
              if k in KeysOf(s, t) && s.queues[k] != [] && s.queues[k][0] == t then s.queues[k][1..] else s.queues[k])
  {
    hide ReleaseAll;
    var m := s.(executed := s.executed + {t});
    ReleaseAllQueues(m, t, KeysOf(s, t), lane, k);
    ReleaseAllTables(m, t, KeysOf(s, t), lane);
  }

  lemma {:induction false} ReleaseAllTables(s: Sched, t: TxId, keys: seq<Key>, lane: Lane)
    ensures ReleaseAll(s, t, keys, lane).executed == s.executed
  {
    hide ReleaseOne;
    if keys != [] {
      ReleaseAllTables(s, t, keys[..|keys| - 1], lane);
      ReleaseKeepsTables(ReleaseAll(s, t, keys[..|keys| - 1], lane), t, keys[|keys| - 1], lane);
    }
  }

  /** A finished transaction stands in no queue. */
  lemma FinishedIsNowhere(w: World, t: TxId, lane: Lane)
    requires Inv(w) && t in w.flight
    ensures
      var w' := Finished(w, t, lane);
      Inv(w') && t in w'.s.executed && forall k :: k in w'.s.queues ==> t !in w'.s.queues[k]
  {
    FinishKeeps(w, t, lane);
    var w' := Finished(w, t, lane);
    hide Execute, Abort, Counted, AtFront, Lanes, Increasing;
    forall k | k in w'.s.queues ensures t !in w'.s.queues[k] {
      assert !Holds(w', t, k);
    }
  }

  // ------------------------------------------------------ order of arrival

  ghost function LaneList(s: Sched, lane: Lane): seq<TxId> {
    if lane.Ready? then s.ready else s.pruneReady
  }

  /** Part-way through giving up `keys`: whoever arrived waited only for keys given up
      so far, and later arrivals waited for a later key. */
  ghost predicate Arriving(w: World, keys: seq<Key>, w': World, lane: Lane) {
    var a, b := LaneList(w.s, lane), LaneList(w'.s, lane);
    && a <= b
    && (forall x :: Waiting(w, x) ==> Behind(w'.s, x) <= Behind(w.s, x) <= Behind(w'.s, x) + Elements(keys))
    && (forall j :: |a| <= j < |b| ==> Behind(w.s, b[j]) <= Elements(keys))
    && (forall j :: |a| <= j < |b| ==> Waiting(w, b[j]) && Behind(w.s, b[j]) != {})
    && (forall i, j :: |a| <= i < j < |b| ==> Later(w, keys, b[i], b[j]))
  }

  /** Some key that `y` waits for comes after all that `x` waits for. */
  ghost predicate Later(w: World, keys: seq<Key>, x: TxId, y: TxId) {
    exists n :: 0 <= n < |keys| && keys[n] in Behind(w.s, y) && Behind(w.s, x) <= Elements(keys[..n])
  }

  lemma LaterStill(w: World, keys: seq<Key>, k: Key, x: TxId, y: TxId)
    requires Later(w, keys, x, y)
    ensures Later(w, keys + [k], x, y)
  {
    hide Behind;
    var n :| 0 <= n < |keys| && keys[n] in Behind(w.s, y) && Behind(w.s, x) <= Elements(keys[..n]);
    assert (keys + [k])[..n] == keys[..n] && (keys + [k])[n] == keys[n];
  }

  /** What telling the successor appends: it, if the key was its last. */
  lemma DropAppends(w: World, t: TxId, k: Key, lane: Lane)
    requires Core(w) && t in w.flight && Holds(w, t, k)
    ensures
      var w' := Drop(w, t, k, lane);
      && (forall x :: Waiting(w', x) <==> Waiting(w, x))
      && (forall x :: Waiting(w, x) ==> Behind(w.s, x) - {k} <= Behind(w'.s, x) <= Behind(w.s, x))
      && (LaneList(w'.s, lane) == LaneList(w.s, lane)
          || exists x :: LaneList(w'.s, lane) == LaneList(w.s, lane) + [x] && Waiting(w, x) && Behind(w.s, x) == {k})
  {
    hide Rank, Shape, Queued, Lanes, Increasing, Holds;
    FrontHolds(w, t, k);
    ReleasedFront(w, t, k, lane);
    DropCounts(w, t, k, lane);
    var w', p, s' := Drop(w, t, k, lane), Popped(w, t, k), PopFront(w.s, k);
    var next := Front(s', k);
    forall x | Waiting(w, x) ensures Behind(w.s, x) - {k} <= Behind(w'.s, x) <= Behind(w.s, x) {
      PoppedBehind(w, t, k, x);
      assert Behind(w'.s, x) == Behind(p.s, x);
    }
    if next != NONE {
      NextWaits(w, t, k);
      OnlyKey(w, next, k);
    }
  }

  lemma OnlyKey(w: World, x: TxId, k: Key)
    requires Counted(w) && Waiting(w, x) && k in Behind(w.s, x)
    ensures CountOf(w.s, x) == 1 ==> Behind(w.s, x) == {k}
  {
    hide Behind;
    if CountOf(w.s, x) == 1 {
      assert |Behind(w.s, x) - {k}| == 0;
    }
  }

  lemma {:induction false} ReleasesArrive(w: World, t: TxId, keys: seq<Key>, lane: Lane)
    requires Core(w) && t in w.flight && Distinct(keys) && forall k :: k in keys ==> k in KeysOf(w.s, t)
    ensures Core(Released(w, t, keys, lane)) && Arriving(w, keys, Released(w, t, keys, lane), lane)
  {
    hide Core, ReleaseOne, Holds, Behind;
    ReleaseAllKeeps(w, t, keys, lane);
    if keys == [] {
    } else {
      var n := |keys| - 1;
      var front, k := keys[..n], keys[n];
      assert keys == front + [k];
      assert forall x :: x in front ==> x in keys;
      ReleasesArrive(w, t, front, lane);
      var p := Released(w, t, front, lane);
      ReleaseAllKeeps(w, t, front, lane);
      assert k in keys;
      ArriveNext(w, t, front, k, p, lane);
      assert Released(w, t, keys, lane).s == ReleaseOne(p.s, t, k, lane);
      SameArrival(w, keys, Drop(p, t, k, lane), Released(w, t, keys, lane), lane);
    }
  }

  lemma SameArrival(w: World, keys: seq<Key>, a: World, b: World, lane: Lane)
    requires Arriving(w, keys, a, lane) && a.s == b.s
    ensures Arriving(w, keys, b, lane)
  {
    hide Behind, Later;
  }

  lemma ArriveNext(w: World, t: TxId, front: seq<Key>, k: Key, p: World, lane: Lane)
    requires Core(p) && t in p.flight && Arriving(w, front, p, lane) && p.order == w.order && p.flight == w.flight && p.gone == w.gone
    ensures Arriving(w, front + [k], Drop(p, t, k, lane), lane)
  {
    hide Core, ReleaseOne, Holds, Behind, Later;
    var keys, p' := front + [k], Drop(p, t, k, lane);
    assert Elements(keys) == Elements(front) + {k};
    var a, b, b' := LaneList(w.s, lane), LaneList(p.s, lane), LaneList(p'.s, lane);
    forall i, j | |a| <= i < j < |b| ensures Later(w, keys, b[i], b[j]) {
      LaterStill(w, front, k, b[i], b[j]);
    }
    if Holds(p, t, k) {
      DropAppends(p, t, k, lane);
      assert forall x :: Waiting(p, x) <==> Waiting(w, x);
      if b' != b {
        var x :| b' == b + [x] && Waiting(p, x) && Behind(p.s, x) == {k};
        assert k in Behind(w.s, x);
        forall i | |a| <= i < |b| ensures Later(w, keys, b[i], x) {
          assert keys[|front|] == k && keys[..|front|] == front;
          LaterAt(w, keys, |front|, b[i], x);
        }
      }
    } else {
      ReleaseOneUnheld(p, t, k, lane);
    }
  }

  lemma LaterAt(w: World, keys: seq<Key>, n: nat, x: TxId, y: TxId)
    requires n < |keys| && keys[n] in Behind(w.s, y) && Behind(w.s, x) <= Elements(keys[..n])
    ensures Later(w, keys, x, y)
  {
  }

  // ---------------------------------------------------------- whole calls

  /** Finishing: whoever comes free waited only for the transaction, and they arrive in
      the order of the last of its keys they waited for. */
  lemma FinishArrives(w: World, t: TxId, lane: Lane)
    requires Inv(w) && t in w.flight
    ensures Arriving(w, KeysOf(w.s, t), Finished(w, t, lane), lane)
  {
    hide Core, Behind, Later;
    InvIsCore(w);
    InFlightAlive(w, t);
    KeysAreDistinct(w, t);
    MarkExecuted(w, t);
    var m := Marked(w, t);
    assert KeysOf(m.s, t) == KeysOf(w.s, t);
    ReleasesArrive(m, t, KeysOf(w.s, t), lane);
    NotDone(w, t);
    MarkedArrival(w, t, KeysOf(w.s, t), Released(m, t, KeysOf(w.s, t), lane), lane);
    SameArrival(w, KeysOf(w.s, t), Released(m, t, KeysOf(w.s, t), lane), Finished(w, t, lane), lane);
  }

  lemma KeysAreDistinct(w: World, t: TxId)
    requires Core(w) && t in w.order
    ensures Distinct(KeysOf(w.s, t))
  {
  }

  lemma NotDone(w: World, t: TxId)
    requires Inv(w) && t in w.flight
    ensures t !in w.s.executed
  {
  }

  lemma MarkedArrival(w: World, t: TxId, keys: seq<Key>, w': World, lane: Lane)
    requires Arriving(Marked(w, t), keys, w', lane)
    ensures Arriving(w, keys, w', lane)
  {
    MarkedSame(w, t);
    hide Behind;
    forall x, y | Later(Marked(w, t), keys, x, y) ensures Later(w, keys, x, y) {
    }
  }

  /** Pruning gives keys up one after the other, like finishing. */
  ghost function Outside(keys: seq<Key>, realKeys: set<Key>): seq<Key> {
    if keys == [] then []
    else
      var n := |keys| - 1;
      Outside(keys[..n], realKeys) + if keys[n] in realKeys then [] else [keys[n]]
  }

  lemma {:induction false} OutsideIs(keys: seq<Key>, realKeys: set<Key>)
    ensures forall k :: k in Outside(keys, realKeys) <==> k in keys && k !in realKeys
    ensures Distinct(keys) ==> Distinct(Outside(keys, realKeys))
  {
    if keys != [] {
      var n := |keys| - 1;
      assert keys == keys[..n] + [keys[n]];
      OutsideIs(keys[..n], realKeys);
    }
  }

  lemma {:induction false} PruneIsRelease(w: World, t: TxId, keys: seq<Key>, realKeys: set<Key>)
    requires Core(w) && t in w.flight && forall k :: k in keys ==> k in KeysOf(w.s, t)
    ensures PruneAll(w.s, t, keys, realKeys) == ReleaseAll(w.s, t, Outside(keys, realKeys), PruneReady)
  {
    hide Core, PruneOne, ReleaseOne;
    if keys != [] {
      var n := |keys| - 1;
      assert forall x :: x in keys[..n] ==> x in keys;
      PruneIsRelease(w, t, keys[..n], realKeys);
      PruneAllKeeps(w, t, keys[..n], realKeys);
      PruneOneIsDrop(Pruning(w, t, keys[..n], realKeys), t, keys[n]);
      var o := Outside(keys[..n], realKeys);
      assert o + [] == o && (o + [keys[n]])[..|o|] == o && (o + [keys[n]])[|o|] == keys[n];
    }
  }

  lemma PruneArrives(w: World, t: TxId, realKeys: set<Key>)
    requires Inv(w) && t in w.flight
    ensures Arriving(w, Outside(KeysOf(w.s, t), realKeys), PrunedWorld(w, t, realKeys), PruneReady)
  {
    hide Core, Behind, Later, Arriving;
    InvIsCore(w);
    InFlightAlive(w, t);
    KeysAreDistinct(w, t);
    var keys := Outside(KeysOf(w.s, t), realKeys);
    OutsideIs(KeysOf(w.s, t), realKeys);
    PruneIsRelease(w, t, KeysOf(w.s, t), realKeys);
    ReleasesArrive(w, t, keys, PruneReady);
    SameArrival(w, keys, Released(w, t, keys, PruneReady), PrunedWorld(w, t, realKeys), PruneReady);
  }
}

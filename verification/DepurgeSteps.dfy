/**
 Every step of the Depurge protocol keeps the invariant.
 */
module DepurgeSteps {
  import opened Sequences
  import opened Deltas
  import opened Footprint
  import opened DepurgeModel
  import opened DepurgeInvariant

  // ---------------------------------------------------- Execute and Abort

  /** The world part-way through the loop of `Execute` or `Abort`. */
  ghost function Released(w: World, t: TxId, keys: seq<Key>, lane: Lane): World {
    w.(s := ReleaseAll(w.s, t, keys, lane), pruned := w.pruned[t := Pruned(w, t) + Elements(keys)])
  }

  lemma ReleaseOneUnheld(w: World, t: TxId, k: Key, lane: Lane)
    requires Core(w) && !Holds(w, t, k)
    ensures ReleaseOne(w.s, t, k, lane) == w.s
  {
    hide Rank, Counted, AtFront, Lanes, Shape;
    if k in w.s.queues { assert t in w.s.queues[k] <==> Holds(w, t, k); }
  }

  lemma ReleaseKeepsTables(s: Sched, t: TxId, k: Key, lane: Lane)
    ensures ReleaseOne(s, t, k, lane).keysOf == s.keysOf && ReleaseOne(s, t, k, lane).executed == s.executed
  {
  }

  lemma {:induction false} ReleaseAllKeeps(w: World, t: TxId, keys: seq<Key>, lane: Lane)
    requires Core(w) && t in w.flight
    requires forall k :: k in keys ==> k in KeysOf(w.s, t)
    ensures Core(Released(w, t, keys, lane))
    ensures ReleaseAll(w.s, t, keys, lane).keysOf == w.s.keysOf
    ensures ReleaseAll(w.s, t, keys, lane).executed == w.s.executed
  {
    hide Core, ReleaseOne, Holds;
    if keys == [] {
      EmptyPrune(w, t);
      assert Pruned(w, t) + Elements([]) == Pruned(w, t);
      assert Released(w, t, keys, lane) == w.(pruned := w.pruned[t := Pruned(w, t)]);
    } else {
      var front, k := keys[..|keys| - 1], keys[|keys| - 1];
      assert forall x :: x in front ==> x in keys;
      ReleaseAllKeeps(w, t, front, lane);
      assert Elements(keys) == Elements(front) + {k} by { assert keys == front + [k]; }
      OneMore(Released(w, t, front, lane), t, k, lane);
      ReleaseKeepsTables(ReleaseAll(w.s, t, front, lane), t, k, lane);
      assert k in keys;
      assert Released(w, t, keys, lane) == Drop(Released(w, t, front, lane), t, k, lane) by {
        assert Pruned(w, t) + Elements(front) + {k} == Pruned(w, t) + Elements(keys);
      }
    }
  }

  lemma EmptyPrune(w: World, t: TxId)
    requires Core(w) && t in w.flight
    ensures Core(w.(pruned := w.pruned[t := Pruned(w, t)]))
  {
    SamePrunes(w, w.(pruned := w.pruned[t := Pruned(w, t)]));
  }

  /** Worlds whose prune records say the same satisfy the invariant alike. */
  lemma SamePrunes(w: World, w': World)
    requires Core(w) && w' == w.(pruned := w'.pruned)
    requires forall u :: Pruned(w', u) == Pruned(w, u)
    ensures Core(w')
  {
    hide Rank;
    assert forall u :: Waiting(w', u) <==> Waiting(w, u);
    assert forall u, k :: Holds(w', u, k) <==> Holds(w, u, k);
  }

  lemma OneMore(w: World, t: TxId, k: Key, lane: Lane)
    requires Core(w) && t in w.flight && k in KeysOf(w.s, t)
    ensures Core(Drop(w, t, k, lane))
  {
    if Holds(w, t, k) {
      DropKeeps(w, t, k, lane);
    } else {
      ReleaseOneUnheld(w, t, k, lane);
      var w' := Drop(w, t, k, lane);
      hide Core, ReleaseOne;
      assert k in Pruned(w, t) by { InFlightAlive(w, t); }
      SamePrunes(w, w');
    }
  }

  lemma InvIsCore(w: World)
    requires Inv(w)
    ensures Core(w)
  {
  }

  lemma InFlightAlive(w: World, t: TxId)
    requires Core(w) && t in w.flight
    ensures t in w.order && t !in w.gone && t in w.s.keysOf && t in w.s.count && t != NONE
  {
  }

  /** `Execute` or `Abort` of a transaction in flight. */
  ghost function Finished(w: World, t: TxId, lane: Lane): World {
    w.(s := if lane.Ready? then Execute(w.s, t) else Abort(w.s, t), flight := w.flight - {t}, gone := w.gone + {t})
  }

  ghost function Marked(w: World, t: TxId): World {
    w.(s := w.s.(executed := w.s.executed + {t}))
  }

  lemma MarkedSame(w: World, t: TxId)
    ensures var w' := Marked(w, t);
            && (forall u :: Waiting(w', u) <==> Waiting(w, u))
            && (forall u, k :: Holds(w', u, k) <==> Holds(w, u, k))
            && (forall u :: Behind(w'.s, u) == Behind(w.s, u))
  {
  }

  lemma MarkedShape(w: World, t: TxId)
    requires Shape(w) && t in w.flight
    ensures Shape(Marked(w, t))
  {
    hide Holds, Behind, Distinct;
    MarkedSame(w, t);
  }

  lemma MarkExecuted(w: World, t: TxId)
    requires Core(w) && t in w.flight
    ensures Core(Marked(w, t))
  {
    hide Shape, Rank, Holds, Waiting, Behind, Distinct;
    MarkedSame(w, t);
    MarkedShape(w, t);
  }

  lemma LetGo(w: World, t: TxId, w': World)
    requires Core(w) && t in w.flight && t in w.s.executed
    requires forall k :: k in KeysOf(w.s, t) ==> k in Pruned(w, t)
    requires w'.s == w.s && w'.order == w.order && w'.flight == w.flight - {t} && w'.gone == w.gone + {t}
    requires forall u :: u != t ==> Pruned(w', u) == Pruned(w, u)
    ensures Core(w')
  {
    hide Rank;
    assert forall u :: Waiting(w', u) <==> Waiting(w, u);
    assert forall u, k :: Holds(w', u, k) <==> Holds(w, u, k);
  }

  lemma FinishKeeps(w: World, t: TxId, lane: Lane)
    requires Inv(w) && t in w.flight
    ensures Inv(Finished(w, t, lane))
    ensures Finished(w, t, lane).s.keysOf == w.s.keysOf
  {
    InFlightAlive(w, t);
    var m := Marked(w, t);
    MarkExecuted(w, t);
    var keys := KeysOf(w.s, t);
    ReleaseAllKeeps(m, t, keys, lane);
    hide Core, ReleaseAll;
    var r := Released(m, t, keys, lane);
    LetGo(r, t, Finished(w, t, lane));
  }

  // --------------------------------------------------------------- Prune

  /** The world part-way through the loop of `Prune`. */
  ghost function Pruning(w: World, t: TxId, keys: seq<Key>, realKeys: set<Key>): World {
    w.(s := PruneAll(w.s, t, keys, realKeys), pruned := w.pruned[t := Pruned(w, t) + (Elements(keys) - realKeys)])
  }

  /** `Prune` of a transaction in flight: it gives up its keys outside the real ones. */
  ghost function PrunedWorld(w: World, t: TxId, realKeys: set<Key>): World {
    w.(s := Prune(w.s, t, realKeys), pruned := w.pruned[t := Pruned(w, t) + (Elements(KeysOf(w.s, t)) - realKeys)])
  }

  lemma PruneOneIsDrop(w: World, t: TxId, k: Key)
    requires Core(w) && t in w.flight
    ensures PruneOne(w.s, t, k) == ReleaseOne(w.s, t, k, PruneReady)
  {
    if Holds(w, t, k) {
      FrontHolds(w, t, k);
      assert Remove(w.s.queues[k], t) == w.s.queues[k][1..];
    } else {
      ReleaseOneUnheld(w, t, k, PruneReady);
      hide Rank, Counted, AtFront, Lanes;
      if k in w.s.queues { assert t in w.s.queues[k] <==> Holds(w, t, k); }
    }
  }

  lemma {:induction false} PruneAllKeeps(w: World, t: TxId, keys: seq<Key>, realKeys: set<Key>)
    requires Core(w) && t in w.flight
    requires forall k :: k in keys ==> k in KeysOf(w.s, t)
    ensures Core(Pruning(w, t, keys, realKeys))
    ensures PruneAll(w.s, t, keys, realKeys).keysOf == w.s.keysOf
    ensures PruneAll(w.s, t, keys, realKeys).executed == w.s.executed
  {
    hide Core, ReleaseOne, PruneOne, Holds;
    if keys == [] {
      EmptyPrune(w, t);
      assert Pruned(w, t) + (Elements([]) - realKeys) == Pruned(w, t);
      assert Pruning(w, t, keys, realKeys) == w.(pruned := w.pruned[t := Pruned(w, t)]);
    } else {
      var front, k := keys[..|keys| - 1], keys[|keys| - 1];
      assert forall x :: x in front ==> x in keys;
      PruneAllKeeps(w, t, front, realKeys);
      assert Elements(keys) == Elements(front) + {k} by { assert keys == front + [k]; }
      var p := Pruning(w, t, front, realKeys);
      assert k in keys;
      if k in realKeys {
        assert Elements(keys) - realKeys == Elements(front) - realKeys;
        assert Pruning(w, t, keys, realKeys) == p;
      } else {
        OneMore(p, t, k, PruneReady);
        PruneOneIsDrop(p, t, k);
        ReleaseKeepsTables(p.s, t, k, PruneReady);
        assert Pruning(w, t, keys, realKeys) == Drop(p, t, k, PruneReady) by {
          assert Pruned(w, t) + (Elements(front) - realKeys) + {k} == Pruned(w, t) + (Elements(keys) - realKeys);
        }
      }
    }
  }

  lemma PruneKeeps(w: World, t: TxId, realKeys: set<Key>)
    requires Inv(w) && t in w.flight
    ensures Inv(PrunedWorld(w, t, realKeys))
    ensures Prune(w.s, t, realKeys).keysOf == w.s.keysOf
  {
    PruneAllKeeps(w, t, KeysOf(w.s, t), realKeys);
  }

  // ---------------------------------------------------------------- pops

  ghost function PoppedReady(w: World): World {
    if w.s.ready == [] then w else w.(s := PopReady(w.s), flight := w.flight + {w.s.ready[0]})
  }

  ghost function PoppedPruneReady(w: World): World {
    if w.s.pruneReady == [] then w else w.(s := PopPruneReady(w.s), flight := w.flight + {w.s.pruneReady[0]})
  }

  /** A waiting transaction with nothing to wait for heads all its queues. */
  lemma ReadyHeads(w: World, t: TxId)
    requires Core(w) && Waiting(w, t) && CountOf(w.s, t) == 0
    ensures forall k :: k in KeysOf(w.s, t) ==> Front(w.s, k) == t
  {
    hide Rank, Queued, Lanes;
    assert |Behind(w.s, t)| == 0;
    forall k | k in KeysOf(w.s, t) ensures Front(w.s, k) == t {
      assert k !in Behind(w.s, t);
    }
  }

  ghost predicate TakesOff(w: World, t: TxId, w': World) {
    && w'.flight == w.flight + {t} && w'.order == w.order && w'.gone == w.gone && w'.pruned == w.pruned
    && w'.s == w.s.(ready := w'.s.ready, pruneReady := w'.s.pruneReady,
                    inReady := w'.s.inReady, inPruneReady := w'.s.inPruneReady)
  }

  lemma TakeOffTables(w: World, t: TxId, w': World)
    requires Waiting(w, t) && TakesOff(w, t, w')
    ensures forall u :: Waiting(w', u) <==> Waiting(w, u) && u != t
    ensures forall u, k :: Holds(w', u, k) <==> Holds(w, u, k)
    ensures forall k :: Front(w'.s, k) == Front(w.s, k)
    ensures forall u :: CountOf(w'.s, u) == CountOf(w.s, u) && KeysOf(w'.s, u) == KeysOf(w.s, u)
  {
  }

  lemma TakeOffShape(w: World, t: TxId, w': World)
    requires Shape(w) && Queued(w) && Waiting(w, t) && TakesOff(w, t, w')
    ensures Shape(w') && Queued(w')
  {
    TakeOffTables(w, t, w');
    hide Increasing, Holds, Distinct, Front, CountOf;
  }

  lemma TakeOffCounted(w: World, t: TxId, w': World)
    requires Counted(w) && Waiting(w, t) && TakesOff(w, t, w')
    ensures Counted(w')
  {
    TakeOffTables(w, t, w');
    hide Front, CountOf, KeysOf, Waiting, TakesOff, Holds;
    assert forall u :: Behind(w'.s, u) == Behind(w.s, u);
  }

  lemma TakeOff(w: World, t: TxId, w': World)
    requires Core(w) && Waiting(w, t) && CountOf(w.s, t) == 0 && TakesOff(w, t, w')
    ensures Shape(w') && Queued(w') && Counted(w') && AtFront(w')
  {
    TakeOffShape(w, t, w');
    TakeOffCounted(w, t, w');
    TakeOffTables(w, t, w');
    ReadyHeads(w, t);
    hide Lanes, Shape, Queued, Counted, Front, CountOf, KeysOf, Waiting, Holds;
  }

  lemma PopReadyKeeps(w: World)
    requires Inv(w)
    ensures Inv(PoppedReady(w))
    ensures w.s.ready != [] ==> Waiting(w, w.s.ready[0])
  {
    hide Rank;
    if w.s.ready != [] {
      var t, w' := w.s.ready[0], PoppedReady(w);
      assert t in w.s.inReady + w.s.inPruneReady;
      TakeOff(w, t, w');
      hide Shape, Queued, Counted, AtFront;
      assert w.s.ready == [t] + w.s.ready[1..];
      assert forall u :: Waiting(w', u) <==> Waiting(w, u) && u != t;
    }
  }

  lemma PopPruneReadyKeeps(w: World)
    requires Inv(w)
    ensures Inv(PoppedPruneReady(w))
    ensures w.s.pruneReady != [] ==> Waiting(w, w.s.pruneReady[0])
  {
    hide Rank;
    if w.s.pruneReady != [] {
      var t, w' := w.s.pruneReady[0], PoppedPruneReady(w);
      assert t in w.s.inReady + w.s.inPruneReady;
      TakeOff(w, t, w');
      hide Shape, Queued, Counted, AtFront;
      assert w.s.pruneReady == [t] + w.s.pruneReady[1..];
      assert forall u :: Waiting(w', u) <==> Waiting(w, u) && u != t;
    }
  }

  // ------------------------------------------------------- addTransaction

  ghost function Added(w: World, t: TxId, keys: seq<Key>): World {
    w.(s := AddTransaction(w.s, t, keys), order := w.order + [t], pruned := w.pruned - {t})
  }

  ghost function QueueOf(s: Sched, k: Key): seq<TxId> {
    if k in s.queues then s.queues[k] else []
  }

  /** Every queue of `keys`, one longer. */
  ghost function Extended(s: Sched, t: TxId, keys: seq<Key>): map<Key, seq<TxId>> {
    map k | k in s.queues.Keys + Elements(keys) :: if k in keys then QueueOf(s, k) + [t] else s.queues[k]
  }

  /** The keys nobody queues for yet. */
  ghost function Leads(s: Sched, keys: seq<Key>): set<Key> {
    set k | k in keys && QueueOf(s, k) == []
  }

  /** `s'` differs from `s` in its queues and counts at most. */
  ghost predicate SameRest(s: Sched, s': Sched) {
    && s'.keysOf == s.keysOf && s'.executed == s.executed && s'.ready == s.ready && s'.pruneReady == s.pruneReady
    && s'.inReady == s.inReady && s'.inPruneReady == s.inPruneReady
  }

  lemma EnqueueEffect(s: Sched, t: TxId, k: Key)
    requires t in s.count && t != NONE && t !in QueueOf(s, k)
    ensures var s' := Enqueue(s, t, k);
            && SameRest(s, s')
            && s'.queues == s.queues[k := QueueOf(s, k) + [t]]
            && s'.count == s.count[t := CountOf(s, t) - if QueueOf(s, k) == [] then 1 else 0]
  {
    var q := QueueOf(s, k);
    assert q != [] ==> (q + [t])[0] == q[0] && q[0] in q;
    if q != [] { assert s.count[t := s.count[t]] == s.count; }
  }

  lemma ExtendedMore(s: Sched, t: TxId, front: seq<Key>, k: Key)
    requires k !in front
    ensures Extended(s, t, front + [k]) == Extended(s, t, front)[k := QueueOf(s, k) + [t]]
    ensures |Leads(s, front + [k])| == |Leads(s, front)| + if QueueOf(s, k) == [] then 1 else 0
  {
    assert Leads(s, front + [k]) == if QueueOf(s, k) == [] then Leads(s, front) + {k} else Leads(s, front);
  }

  lemma UpdateTwice<K, V>(m: map<K, V>, k: K, a: V, b: V)
    ensures m[k := a][k := b] == m[k := b]
  {
  }

  ghost predicate Enqueued(s: Sched, s': Sched, t: TxId, keys: seq<Key>) {
    && SameRest(s, s') && s'.queues == Extended(s, t, keys)
    && s'.count == s.count[t := CountOf(s, t) - |Leads(s, keys)|]
  }

  lemma EnqueueStep(s: Sched, s1: Sched, t: TxId, front: seq<Key>, k: Key)
    requires t in s.count && t != NONE && t !in QueueOf(s, k) && k !in front && Enqueued(s, s1, t, front)
    ensures Enqueued(s, Enqueue(s1, t, k), t, front + [k])
  {
    hide Enqueue, Extended, Leads, QueueOf;
    ExtendedElsewhere(s, s1, t, front, k);
    EnqueueEffect(s1, t, k);
    ExtendedMore(s, t, front, k);
    UpdateTwice(s.count, t, CountOf(s1, t), CountOf(s, t) - |Leads(s, front + [k])|);
  }

  lemma ExtendedElsewhere(s: Sched, s1: Sched, t: TxId, front: seq<Key>, k: Key)
    requires s1.queues == Extended(s, t, front) && k !in front
    ensures QueueOf(s1, k) == QueueOf(s, k)
  {
  }

  /** What the loop of `addTransaction` does. */
  lemma {:induction false} EnqueueAllEffect(s: Sched, t: TxId, keys: seq<Key>)
    requires Distinct(keys) && t in s.count && t != NONE
    requires forall k :: t !in QueueOf(s, k)
    ensures Enqueued(s, EnqueueAll(s, t, keys), t, keys)
  {
    if keys == [] {
      NothingEnqueued(s, t);
    } else {
      hide Enqueue, Enqueued, QueueOf;
      var n := |keys| - 1;
      assert keys == keys[..n] + [keys[n]];
      EnqueueAllEffect(s, t, keys[..n]);
      EnqueueStep(s, EnqueueAll(s, t, keys[..n]), t, keys[..n], keys[n]);
    }
  }

  lemma NothingEnqueued(s: Sched, t: TxId)
    requires t in s.count
    ensures Enqueued(s, s, t, [])
  {
    assert Leads(s, []) == {};
    assert Extended(s, t, []) == s.queues;
    assert s.count[t := s.count[t]] == s.count;
  }

  // --------------------------------------------------- adding keeps the rest

  /** The scheduler with `t` queued for its keys, not yet in a lane. */
  ghost function Joined(s: Sched, t: TxId, ks: seq<Key>): Sched {
    s.(queues := Extended(s, t, ks), keysOf := s.keysOf[t := ks], count := s.count[t := |ks| - |Leads(s, ks)|])
  }

  lemma AddedState(w: World, t: TxId, keys: seq<Key>)
    requires Inv(w) && t !in w.order && t != NONE
    ensures var j := Joined(w.s, t, QueueKeys(keys));
            AddTransaction(w.s, t, keys) == if CountOf(j, t) == 0 then Push(j, t, Ready) else j
  {
    Unqueued(w, t);
    JoinEffect(w.s, t, QueueKeys(keys));
  }

  lemma JoinEffect(s: Sched, t: TxId, ks: seq<Key>)
    requires Distinct(ks) && t != NONE && t !in s.executed && forall k :: t !in QueueOf(s, k)
    ensures EnqueueAll(Register(s, t, ks), t, ks) == Joined(s, t, ks)
  {
    hide Leads, Extended, QueueOf, EnqueueAll, Distinct;
    var r := Register(s, t, ks);
    assert s.executed - {t} == s.executed;
    RegisterKeepsQueues(s, t, ks);
    EnqueueAllEffect(r, t, ks);
    UpdateTwice(s.count, t, |ks|, |ks| - |Leads(s, ks)|);
  }

  lemma RegisterKeepsQueues(s: Sched, t: TxId, ks: seq<Key>)
    ensures var r := Register(s, t, ks);
            && (forall k :: QueueOf(r, k) == QueueOf(s, k))
            && Leads(r, ks) == Leads(s, ks) && Extended(r, t, ks) == Extended(s, t, ks)
  {
    var r := Register(s, t, ks);
    assert forall k :: QueueOf(r, k) == QueueOf(s, k);
  }

  lemma Unqueued(w: World, t: TxId)
    requires Inv(w) && t !in w.order
    ensures (forall k :: t !in QueueOf(w.s, k)) && t !in w.s.executed
  {
    hide Rank, Counted, AtFront, Lanes;
    forall k ensures t !in QueueOf(w.s, k) {
      if k in w.s.queues { assert t in w.s.queues[k] <==> Holds(w, t, k); }
    }
  }

  ghost function JoinedWorld(w: World, t: TxId, ks: seq<Key>): World {
    w.(s := Joined(w.s, t, ks), order := w.order + [t], pruned := w.pruned - {t})
  }

  lemma JoinedHolds(w: World, t: TxId, ks: seq<Key>)
    requires Shape(w) && t !in w.order
    ensures var w' := JoinedWorld(w, t, ks);
            && (forall u :: Waiting(w', u) <==> Waiting(w, u) || u == t)
            && (forall u, k :: Holds(w', u, k) <==> if u == t then k in ks else Holds(w, u, k))
            && (forall u :: u != t ==> KeysOf(w'.s, u) == KeysOf(w.s, u) && CountOf(w'.s, u) == CountOf(w.s, u))
            && KeysOf(w'.s, t) == ks
  {
    hide Distinct, Leads, Extended;
    assert t !in w.gone && t !in w.flight;
  }

  lemma JoinedShape(w: World, t: TxId, ks: seq<Key>)
    requires Core(w) && t !in w.order && t != NONE && Distinct(ks)
    ensures Shape(JoinedWorld(w, t, ks))
  {
    hide Rank, Queued, Counted, AtFront, Lanes, Leads;
    JoinedHolds(w, t, ks);
  }

  lemma JoinedQueued(w: World, t: TxId, ks: seq<Key>)
    requires Core(w) && t !in w.order && t != NONE && Distinct(ks)
    ensures Queued(JoinedWorld(w, t, ks))
  {
    var w' := JoinedWorld(w, t, ks);
    hide Core, Holds, Joined, Increasing;
    forall k | k in w'.s.queues
      ensures Increasing(w'.order, w'.s.queues[k]) && forall u :: u in w'.s.queues[k] <==> Holds(w', u, k)
    {
      JoinedQueue(w, t, ks, k);
    }
  }

  lemma JoinedQueue(w: World, t: TxId, ks: seq<Key>, k: Key)
    requires Core(w) && t !in w.order && t != NONE && Distinct(ks) && k in JoinedWorld(w, t, ks).s.queues
    ensures
      var w' := JoinedWorld(w, t, ks);
      Increasing(w'.order, w'.s.queues[k]) && forall u :: u in w'.s.queues[k] <==> Holds(w', u, k)
  {
    JoinedHolds(w, t, ks);
    JoinedQueues(w, t, ks);
    QueueOfHolds(w, k);
    hide Counted, AtFront, Lanes, Leads, Waiting, Joined, Increasing, CountOf;
    var q := QueueOf(w.s, k);
    assert t !in q;
    GrownQueue(w.order, q, t);
  }

  lemma JoinedQueues(w: World, t: TxId, ks: seq<Key>)
    ensures JoinedWorld(w, t, ks).s.queues == Extended(w.s, t, ks)
  {
  }

  lemma QueueOfHolds(w: World, k: Key)
    requires Shape(w) && Queued(w)
    ensures Increasing(w.order, QueueOf(w.s, k)) && forall u :: u in QueueOf(w.s, k) <==> Holds(w, u, k)
  {
    hide Rank;
  }

  lemma GrownQueue(order: seq<TxId>, q: seq<TxId>, t: TxId)
    requires Increasing(order, q) && t !in order
    ensures Increasing(order + [t], q) && Increasing(order + [t], q + [t])
  {
    hide Rank;
    forall u | u in order + [t] ensures Rank(order + [t], u) == if u == t then |order| else Rank(order, u) {
      RankAppend(order, t, u);
    }
    assert forall i :: 0 <= i < |q| ==> q[i] in q;
  }

  /** Whoever stood in a queue still sees the same front. */
  lemma JoinedFronts(w: World, t: TxId, ks: seq<Key>, u: TxId, k: Key)
    requires Core(w) && t !in w.order && t != NONE && Distinct(ks) && Holds(w, u, k)
    ensures Front(JoinedWorld(w, t, ks).s, k) == Front(w.s, k)
  {
    QueueOfHolds(w, k);
  }

  lemma JoinedCounted(w: World, t: TxId, ks: seq<Key>)
    requires Core(w) && t !in w.order && t != NONE && Distinct(ks)
    ensures Counted(JoinedWorld(w, t, ks)) && AtFront(JoinedWorld(w, t, ks))
  {
    var w' := JoinedWorld(w, t, ks);
    JoinedHolds(w, t, ks);
    JoinedLeads(w, t, ks);
    hide Rank, Lanes, Queued, Leads, Joined, Extended, Holds;
    forall u | Waiting(w', u) ensures CountOf(w'.s, u) == |Behind(w'.s, u)| {
      if u != t {
        forall k | k in KeysOf(w.s, u) ensures Front(w'.s, k) == Front(w.s, k) {
          WaitingHolds(w, u, k);
          JoinedFronts(w, t, ks, u, k);
        }
        assert Behind(w'.s, u) == Behind(w.s, u);
      }
    }
    forall u, k | u in w'.flight && Holds(w', u, k) ensures Front(w'.s, k) == u {
      JoinedFronts(w, t, ks, u, k);
    }
  }

  lemma WaitingHolds(w: World, u: TxId, k: Key)
    requires Shape(w) && Waiting(w, u) && k in KeysOf(w.s, u)
    ensures Holds(w, u, k)
  {
  }

  /** A newcomer leads exactly the queues that were empty. */
  lemma JoinedFront(w: World, t: TxId, ks: seq<Key>, k: Key)
    requires Core(w) && t !in w.order && t != NONE && k in ks
    ensures Front(Joined(w.s, t, ks), k) == t <==> QueueOf(w.s, k) == []
  {
    hide Rank, Counted, AtFront, Lanes, Leads;
    QueueOfHolds(w, k);
    var q := QueueOf(w.s, k);
    assert Joined(w.s, t, ks).queues[k] == q + [t];
    assert q != [] ==> q[0] in q;
  }

  lemma JoinedBehind(s: Sched, t: TxId, ks: seq<Key>)
    requires forall k :: k in ks ==> (Front(Joined(s, t, ks), k) == t <==> QueueOf(s, k) == [])
    ensures Behind(Joined(s, t, ks), t) == Elements(ks) - Leads(s, ks) && Leads(s, ks) <= Elements(ks)
  {
    hide Front, QueueOf, Extended;
  }

  lemma DifferenceSize(a: set<Key>, b: set<Key>)
    requires b <= a
    ensures |a - b| == |a| - |b|
  {
    assert a == (a - b) + b;
  }

  lemma JoinedLeads(w: World, t: TxId, ks: seq<Key>)
    requires Core(w) && t !in w.order && t != NONE && Distinct(ks)
    ensures CountOf(JoinedWorld(w, t, ks).s, t) == |Behind(JoinedWorld(w, t, ks).s, t)|
  {
    hide Core, Distinct, Behind, Elements, Leads, Extended, Front;
    forall k | k in ks ensures Front(Joined(w.s, t, ks), k) == t <==> QueueOf(w.s, k) == [] {
      JoinedFront(w, t, ks, k);
    }
    JoinedBehind(w.s, t, ks);
    DifferenceSize(Elements(ks), Leads(w.s, ks));
    DistinctSize(ks);
  }

  /** `addTransaction` keeps the invariant at any time, not only before the
      workers start. */
  lemma AddKeeps(w: World, t: TxId, keys: seq<Key>)
    requires Inv(w) && t !in w.order && t != NONE
    ensures Inv(Added(w, t, keys))
  {
    var ks := QueueKeys(keys);
    var j := JoinedWorld(w, t, ks);
    JoinedShape(w, t, ks);
    JoinedQueued(w, t, ks);
    JoinedCounted(w, t, ks);
    AddedState(w, t, keys);
    hide Shape, Queued, Counted, AtFront, AddTransaction, Joined;
    if CountOf(j.s, t) == 0 {
      PushedSame(j, Added(w, t, keys), t);
    } else {
      assert Added(w, t, keys) == j;
    }
    AddedLanes(w, t, ks, Added(w, t, keys));
  }

  lemma AddedLanes(w: World, t: TxId, ks: seq<Key>, w': World)
    requires Inv(w) && t !in w.order
    requires var j := JoinedWorld(w, t, ks); w' == j.(s := if CountOf(j.s, t) == 0 then Push(j.s, t, Ready) else j.s)
    ensures Lanes(w') && w'.s.executed == w'.gone
  {
    hide Rank, Shape, Queued, Counted, AtFront, Holds, Extended, Leads, KeysOf;
    var j := JoinedWorld(w, t, ks);
    JoinedHolds(w, t, ks);
    assert t !in w.s.inReady && t !in w.s.inPruneReady by { assert t !in w.s.inReady + w.s.inPruneReady; }
    assert forall u :: Waiting(w', u) <==> Waiting(j, u);
    if CountOf(j.s, t) == 0 {
      PushKeepsLists(j.s, t, Ready);
    }
  }

  lemma PushedSame(j: World, w: World, t: TxId)
    requires w == j.(s := Push(j.s, t, Ready))
    requires Shape(j) && Queued(j) && Counted(j) && AtFront(j)
    ensures Shape(w) && Queued(w) && Counted(w) && AtFront(w)
    ensures forall u :: (Waiting(w, u) <==> Waiting(j, u)) && CountOf(w.s, u) == CountOf(j.s, u)
  {
    hide Rank;
    assert forall u :: Waiting(w, u) <==> Waiting(j, u);
    assert forall u, k :: Holds(w, u, k) <==> Holds(j, u, k);
    assert forall u :: Behind(w.s, u) == Behind(j.s, u);
    assert forall k :: Front(w.s, k) == Front(j.s, k);
  }

  lemma InitialInv()
    ensures Inv(World(INITIAL, [], {}, {}, map[]))
  {
  }
}

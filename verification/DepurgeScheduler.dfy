/**
 The Depurge scheduler as the program keeps it: one queue object per key, tables
 per transaction, and two ready lists, all updated in place.
 */
module DepurgeScheduler {
  import opened Sequences
  import opened Deltas
  import opened Footprint
  import opened Sorting
  import M = DepurgeModel
  import opened DepurgeInvariant
  import opened DepurgeSteps
  import opened DepurgeLanes
  import opened DepurgeLevels
  import opened DepurgeTheorems
  import R = DepurgeRuns

  /** A node of a linked list; the handle is its identity. */
  datatype Element = Element(handle: nat, value: TxId)

  function Values(q: seq<Element>): seq<TxId> {
    seq(|q|, i requires 0 <= i < |q| => q[i].value)
  }

  /** `list.Remove`: takes the node itself out, wherever it stands. */
  function Unlink(q: seq<Element>, e: Element): seq<Element> {
    if q == [] then [] else if q[0] == e then q[1..] else [q[0]] + Unlink(q[1..], e)
  }

  lemma {:induction false} UnlinkIsRemove(q: seq<Element>, e: Element)
    requires e in q && Distinct(Values(q))
    ensures Values(Unlink(q, e)) == M.Remove(Values(q), e.value)
    ensures forall x :: x in Unlink(q, e) <==> x in q && x != e
    ensures Distinct(Values(Unlink(q, e)))
  {
    var v := Values(q);
    assert v[1..] == Values(q[1..]);
    if q[0] == e {
      forall x | x in q[1..] ensures x != e {
        var i :| 1 <= i < |q| && q[i] == x;
        assert v[i] != v[0];
      }
      assert q == [e] + q[1..];
    } else {
      UnlinkIsRemove(q[1..], e);
      var i :| 1 <= i < |q| && q[i] == e;
      assert v[0] != v[i];
      var u := Unlink(q[1..], e);
      assert Values([q[0]] + u) == [q[0].value] + Values(u);
      forall j | 0 <= j < |u| ensures u[j].value != q[0].value {
        assert u[j] in q[1..];
        var k :| 1 <= k < |q| && q[k] == u[j];
        assert v[0] != v[k];
      }
    }
  }

  class TransactionQueue {
    var queue: seq<Element>
    var index: map<TxId, Element>
    var nextHandle: nat

    /** The index knows every queued transaction's own node, and nothing else. */
    ghost predicate Valid()
      reads this
    {
      && (forall e :: e in queue ==> e.handle < nextHandle)
      && Distinct(Contents())
      && (forall e :: e in queue ==> e.value in index && index[e.value] == e)
      && (forall t :: t in index ==> index[t] in queue && index[t].value == t)
    }

    ghost function Contents(): seq<TxId>
      reads this
    {
      Values(queue)
    }

    lemma IndexMirrors(t: TxId)
      requires Valid()
      ensures t in index <==> t in Contents()
    {
      assert forall i :: 0 <= i < |queue| ==> queue[i] in queue;
      if t in index {
        var i :| 0 <= i < |queue| && queue[i] == index[t];
        assert Contents()[i] == t;
      }
    }

    constructor ()
      ensures Valid() && Contents() == []
    {
      queue, index, nextHandle := [], map[], 0;
    }

    method Push(txID: TxId)
      requires Valid()
      modifies this
      ensures Valid()
      ensures Contents() == if txID in old(Contents()) then old(Contents()) else old(Contents()) + [txID]
    {
      IndexMirrors(txID);
      if txID in index {
        return;
      }
      var elem := Element(nextHandle, txID);
      queue := queue + [elem];
      index := index[txID := elem];
      nextHandle := nextHandle + 1;
      assert Contents() == old(Contents()) + [txID];
    }

    method Front() returns (txID: TxId)
      requires Valid()
      ensures txID == if Contents() == [] then M.NONE else Contents()[0]
    {
      txID := if queue == [] then M.NONE else queue[0].value;
    }

    method Pop() returns (txID: TxId)
      requires Valid()
      modifies this
      ensures Valid()
      ensures if old(Contents()) == [] then txID == M.NONE && Contents() == []
              else txID == old(Contents())[0] && Contents() == old(Contents())[1..]
    {
      if queue == [] {
        return M.NONE;
      }
      var elem := queue[0];
      assert Values(queue[1..]) == Contents()[1..];
      forall e | e in queue[1..] ensures e in queue && e.value != elem.value {
        var i :| 1 <= i < |queue| && queue[i] == e;
        assert Contents()[i] != Contents()[0];
      }
      txID := elem.value;
      queue := queue[1..];
      index := index - {txID};
    }

    method Contains(txID: TxId) returns (found: bool)
      requires Valid()
      ensures found <==> txID in Contents()
    {
      IndexMirrors(txID);
      found := txID in index;
    }

    method Remove(txID: TxId) returns (removed: bool)
      requires Valid()
      modifies this
      ensures Valid()
      ensures removed <==> txID in old(Contents())
      ensures Contents() == M.Remove(old(Contents()), txID)
    {
      IndexMirrors(txID);
      if txID !in index {
        RemoveAbsent(Contents(), txID);
        return false;
      }
      var elem := index[txID];
      UnlinkIsRemove(queue, elem);
      assert forall e :: e in queue && e.value == txID ==> e == elem;
      queue := Unlink(queue, elem);
      index := index - {txID};
      removed := true;
    }
  }

  /** The queue before and after, for a key that is given up or not. */
  ghost predicate PrunedQueue(q: seq<TxId>, q': seq<TxId>, t: TxId, givenUp: bool) {
    if givenUp then LeftBy(q, q', t) else q' == q
  }

  lemma ElementsAre<T>(s: seq<T>)
    ensures forall x :: x in Elements(s) <==> x in s
  {
  }

  /** Finishing a transaction in flight is a step of the protocol. */
  lemma FinishIsStep(s: M.Sched, t: TxId, lane: M.Lane)
    ensures
      var s', e := if lane.Ready? then M.Execute(s, t) else M.Abort(s, t), if lane.Ready? then R.Executes(t) else R.Aborts(t);
      && Fills(s, s', lane)
      && (forall w :: Tracks(w, s) && t in w.flight ==>
            Tracks(R.Next(w, e), s') && Arriving(w, M.KeysOf(w.s, t), R.Next(w, e), lane))
      && ((exists w :: Tracks(w, s) && t in w.flight) ==>
            t in s'.executed && forall k :: k in s'.queues ==> t !in s'.queues[k])
  {
    hide M.Finish, Inv, Arriving, Fills;
    LaneOf(s, t, {});
    forall w | Tracks(w, s) && t in w.flight
      ensures
        var w' := Finished(w, t, lane);
        Inv(w') && Arriving(w, M.KeysOf(w.s, t), w', lane) && t in w'.s.executed && forall k :: k in w'.s.queues ==> t !in w'.s.queues[k]
    {
      FinishedIsNowhere(w, t, lane);
      FinishArrives(w, t, lane);
    }
  }

  lemma PruneIsStep(s: M.Sched, t: TxId, realKeys: set<Key>)
    ensures
      var s', e := M.Prune(s, t, realKeys), R.Prunes(t, realKeys);
      && Fills(s, s', M.PruneReady)
      && (Distinct(M.KeysOf(s, t)) ==>
            forall k :: k in s.queues ==>
              k in s'.queues && PrunedQueue(s.queues[k], s'.queues[k], t, k in M.KeysOf(s, t) && k !in realKeys))
      && (forall w :: Tracks(w, s) && t in w.flight ==> Tracks(R.Next(w, e), s'))
      && (forall w :: Tracks(w, s) && t in w.flight ==>
            Arriving(w, Outside(M.KeysOf(w.s, t), realKeys), R.Next(w, e), M.PruneReady))
  {
    hide M.Prune, Inv, Arriving, Fills, LeftBy, Distinct;
    LaneOf(s, t, realKeys);
    if Distinct(M.KeysOf(s, t)) {
      forall k | k in s.queues
        ensures k in M.Prune(s, t, realKeys).queues &&
                PrunedQueue(s.queues[k], M.Prune(s, t, realKeys).queues[k], t, k in M.KeysOf(s, t) && k !in realKeys)
      {
        PruneQueues(s, t, realKeys, k);
      }
    }
    forall w | Tracks(w, s) && t in w.flight
      ensures Inv(PrunedWorld(w, t, realKeys))
      ensures Arriving(w, Outside(M.KeysOf(w.s, t), realKeys), PrunedWorld(w, t, realKeys), M.PruneReady)
    {
      PruneKeeps(w, t, realKeys);
      PruneArrives(w, t, realKeys);
    }
  }

  lemma PopIsStep(s: M.Sched)
    ensures forall w :: Tracks(w, s) ==> Tracks(R.Next(w, R.PopsReady), M.PopReady(s))
    ensures forall w :: Tracks(w, s) ==> Tracks(R.Next(w, R.PopsPruneReady), M.PopPruneReady(s))
  {
    hide Inv;
    forall w | Tracks(w, s) ensures Inv(PoppedReady(w)) && Inv(PoppedPruneReady(w)) {
      if w.s.ready != [] {
        PopReadyKeeps(w);
      }
      if w.s.pruneReady != [] {
        PopPruneReadyKeeps(w);
      }
    }
  }

  /** The transaction is queued for exactly the given keys, each once, alphabetically. */
  ghost predicate IsListed(s: M.Sched, t: TxId, keys: seq<Key>) {
    Distinct(M.KeysOf(s, t)) && Alphabetical(M.KeysOf(s, t)) && forall k :: k in M.KeysOf(s, t) <==> k in keys
  }

  lemma AddIsStep(s: M.Sched, t: TxId, keys: seq<Key>)
    ensures forall w :: Tracks(w, s) && t !in w.order && t != M.NONE ==>
              Tracks(R.Next(w, R.Adds(t, keys)), M.AddTransaction(s, t, keys)) && IsListed(M.AddTransaction(s, t, keys), t, keys)
  {
    hide Inv, M.AddTransaction, IsListed;
    forall w | Tracks(w, s) && t !in w.order && t != M.NONE
      ensures Inv(Added(w, t, keys)) && IsListed(M.AddTransaction(s, t, keys), t, keys)
    {
      AddKeeps(w, t, keys);
      AddedIsListed(w, t, keys);
    }
  }

  lemma AddedIsListed(w: World, t: TxId, keys: seq<Key>)
    requires Inv(w) && t !in w.order && t != M.NONE
    ensures IsListed(M.AddTransaction(w.s, t, keys), t, keys)
  {
    hide Inv, M.AddTransaction, Alphabetical;
    AddedState(w, t, keys);
  }

  /** Valid queues, one object per key. */
  ghost predicate QueuesValid(queues: map<Key, TransactionQueue>)
    reads queues.Values
  {
    && (forall k :: k in queues ==> queues[k].Valid())
    && (forall k, l :: k in queues && l in queues && k != l ==> queues[k] != queues[l])
  }

  ghost function ContentsOf(queues: map<Key, TransactionQueue>): map<Key, seq<TxId>>
    reads queues.Values
  {
    map k | k in queues :: queues[k].Contents()
  }

  lemma OneChanged(queues: map<Key, TransactionQueue>, key: Key, before: map<Key, seq<TxId>>)
    requires key in queues && QueuesValid(queues) && before.Keys == queues.Keys
    requires forall k :: k in queues && k != key ==> queues[k].Contents() == before[k]
    ensures ContentsOf(queues) == before[key := queues[key].Contents()]
  {
  }

  method PopQueue(queues: map<Key, TransactionQueue>, key: Key) returns (nextTx: TxId)
    requires QueuesValid(queues) && key in queues && queues[key].Contents() != []
    modifies queues[key]
    ensures QueuesValid(queues)
    ensures ContentsOf(queues) == old(ContentsOf(queues))[key := old(queues[key].Contents())[1..]]
    ensures nextTx == if queues[key].Contents() == [] then M.NONE else queues[key].Contents()[0]
  {
    hide TransactionQueue.Valid, TransactionQueue.Contents;
    ghost var before := ContentsOf(queues);
    var _ := queues[key].Pop();
    OneChanged(queues, key, before);
    nextTx := queues[key].Front();
  }

  function Head(q: seq<TxId>): TxId {
    if q == [] then M.NONE else q[0]
  }

  method RemoveFromQueue(queues: map<Key, TransactionQueue>, key: Key, txID: TxId)
    returns (wasFront: bool, nextTx: TxId)
    requires QueuesValid(queues) && key in queues
    modifies queues[key]
    ensures QueuesValid(queues)
    ensures ContentsOf(queues) == old(ContentsOf(queues))[key := M.Remove(old(ContentsOf(queues))[key], txID)]
    ensures wasFront <==> old(ContentsOf(queues))[key] != [] && old(ContentsOf(queues))[key][0] == txID
    ensures wasFront ==> nextTx == Head(ContentsOf(queues)[key])
  {
    hide M.Remove, TransactionQueue.Valid, TransactionQueue.Contents;
    ghost var before := ContentsOf(queues);
    wasFront, nextTx := false, M.NONE;
    var found := queues[key].Contains(txID);
    if found {
      var front := queues[key].Front();
      wasFront := front == txID;
      var _ := queues[key].Remove(txID);
      OneChanged(queues, key, before);
      nextTx := queues[key].Front();
    } else {
      RemoveAbsent(before[key], txID);
      assert before == before[key := before[key]];
    }
  }

  method PushQueue(queues: map<Key, TransactionQueue>, key: Key, txID: TxId) returns (front: TxId)
    requires QueuesValid(queues) && key in queues
    modifies queues[key]
    ensures QueuesValid(queues)
    ensures var q := old(ContentsOf(queues))[key];
            ContentsOf(queues) == old(ContentsOf(queues))[key := if txID in q then q else q + [txID]]
    ensures front == Head(ContentsOf(queues)[key])
  {
    hide TransactionQueue.Valid, TransactionQueue.Contents;
    ghost var before := ContentsOf(queues);
    queues[key].Push(txID);
    OneChanged(queues, key, before);
    front := queues[key].Front();
  }

  /** A new, empty queue for a key that has none. */
  method WithQueue(queues: map<Key, TransactionQueue>, key: Key) returns (r: map<Key, TransactionQueue>)
    requires QueuesValid(queues)
    ensures QueuesValid(r) && r.Keys == queues.Keys + {key}
    ensures fresh(r.Values - queues.Values)
    ensures ContentsOf(r) == if key in queues then ContentsOf(queues) else ContentsOf(queues)[key := []]
  {
    r := queues;
    if key !in queues {
      var q := new TransactionQueue();
      r := queues[key := q];
      forall k | k in queues ensures queues[k] in queues.Values && queues[k] != q && r[k] == queues[k] {
      }
    }
  }

  function Admitted(q: seq<TxId>, t: TxId): seq<TxId> {
    if t in q then q else q + [t]
  }

  /** Queues `txID` for `key`, making the queue if there is none. */
  method PushNew(queues: map<Key, TransactionQueue>, key: Key, txID: TxId)
    returns (r: map<Key, TransactionQueue>, front: TxId)
    requires QueuesValid(queues)
    modifies queues.Values
    ensures QueuesValid(r) && r.Keys == queues.Keys + {key}
    ensures fresh(r.Values - queues.Values)
    ensures var m := old(ContentsOf(queues));
            ContentsOf(r) == m[key := Admitted(if key in m then m[key] else [], txID)]
    ensures front == Head(ContentsOf(r)[key])
  {
    KeysOfContents(queues);
    hide QueuesValid, ContentsOf;
    r := WithQueue(queues, key);
    KeysOfContents(r);
    assert r[key] in r.Values;
    front := PushQueue(r, key, txID);
  }

  lemma KeysOfContents(queues: map<Key, TransactionQueue>)
    ensures ContentsOf(queues).Keys == queues.Keys
  {
  }

  /** Pruning one key, whether or not the transaction still stands there. */
  lemma RemoveIsPrune(s: M.Sched, t: TxId, k: Key)
    requires k in s.queues
    ensures var q := s.queues[k];
            var s' := s.(queues := s.queues[k := M.Remove(q, t)]);
            M.PruneOne(s, t, k) == if q != [] && q[0] == t then M.Notify(s', Head(s'.queues[k]), M.PruneReady) else s'
  {
    hide M.Notify;
    var q := s.queues[k];
    if t !in q {
      RemoveAbsent(q, t);
      assert s.queues[k := q] == s.queues;
    }
  }

  lemma EnqueueIs(s: M.Sched, t: TxId, k: Key)
    ensures var s' := s.(queues := s.queues[k := Admitted(if k in s.queues then s.queues[k] else [], t)]);
            M.Enqueue(s, t, k) == if Head(s'.queues[k]) == t
                                  then s'.(count := s'.count[t := M.CountOf(s, t) - 1])
                                  else s'
  {
  }

  lemma EnqueueAllStep(s: M.Sched, t: TxId, keys: seq<Key>, i: nat)
    requires i < |keys|
    ensures M.EnqueueAll(s, t, keys[..i + 1]) == M.Enqueue(M.EnqueueAll(s, t, keys[..i]), t, keys[i])
  {
    assert keys[..i + 1][..i] == keys[..i];
  }

  lemma ReleaseAllStep(s: M.Sched, t: TxId, keys: seq<Key>, i: nat, lane: M.Lane)
    requires i < |keys|
    ensures M.ReleaseAll(s, t, keys[..i + 1], lane) == M.ReleaseOne(M.ReleaseAll(s, t, keys[..i], lane), t, keys[i], lane)
  {
    assert keys[..i + 1][..i] == keys[..i];
  }

  lemma PruneAllStep(s: M.Sched, t: TxId, keys: seq<Key>, i: nat, realKeys: set<Key>)
    requires i < |keys|
    ensures var p := M.PruneAll(s, t, keys[..i], realKeys);
            M.PruneAll(s, t, keys[..i + 1], realKeys) == if keys[i] in realKeys then p else M.PruneOne(p, t, keys[i])
  {
    assert keys[..i + 1][..i] == keys[..i];
  }

  /** The scheduler's state is that of a world between two steps. */
  ghost predicate Tracks(w: World, s: M.Sched) {
    w.s == s && Inv(w)
  }

  class DepurgeScheduler {
    var keyQueues: map<Key, TransactionQueue>
    var txKeyMap: map<TxId, seq<Key>>
    var txExecuted: map<TxId, bool>
    var readyQueue: seq<TxId>
    var pruneReadyQueue: seq<TxId>
    var txReadyCount: map<TxId, int>
    var inReady: set<TxId>
    var inPruneReady: set<TxId>

    /** Every key a transaction lists has a queue of its own. */
    ghost predicate Valid()
      reads this, keyQueues.Values
    {
      && QueuesValid(keyQueues)
      && (forall t, k :: t in txKeyMap && k in txKeyMap[t] ==> k in keyQueues)
    }

    ghost function Done(): set<TxId>
      reads this
    {
      set t | t in txExecuted && txExecuted[t]
    }

    /** The state the scheduler represents. */
    ghost function State(): M.Sched
      reads this, keyQueues.Values
    {
      M.Sched(ContentsOf(keyQueues), txKeyMap, Done(), readyQueue, pruneReadyQueue, inReady, inPruneReady, txReadyCount)
    }

    constructor ()
      ensures Valid() && State() == M.INITIAL && keyQueues == map[]
    {
      keyQueues, txKeyMap, txExecuted := map[], map[], map[];
      readyQueue, pruneReadyQueue, txReadyCount := [], [], map[];
      inReady, inPruneReady := {}, {};
    }

    method Notify(nextTx: TxId, lane: M.Lane)
      requires Valid()
      modifies this`txReadyCount, this`readyQueue, this`inReady, this`pruneReadyQueue, this`inPruneReady
      ensures Valid() && State() == M.Notify(old(State()), nextTx, lane)
    {
      hide QueuesValid, ContentsOf;
      if nextTx != M.NONE && !(nextTx in txExecuted && txExecuted[nextTx]) {
        var count := (if nextTx in txReadyCount then txReadyCount[nextTx] else 0) - 1;
        txReadyCount := txReadyCount[nextTx := count];
        if count == 0 && nextTx !in inReady && (lane.Ready? || nextTx !in inPruneReady) {
          if lane.Ready? {
            readyQueue, inReady := readyQueue + [nextTx], inReady + {nextTx};
          } else {
            pruneReadyQueue, inPruneReady := pruneReadyQueue + [nextTx], inPruneReady + {nextTx};
          }
        }
      }
    }

    /** Pops the queue of `key` if `txID` heads it, and looks who follows. */
    method PopIfFront(txID: TxId, key: Key) returns (popped: bool, nextTx: TxId)
      requires Valid() && key in keyQueues && txID != M.NONE
      modifies keyQueues[key]
      ensures Valid()
      ensures popped <==> M.Front(old(State()), key) == txID
      ensures popped ==> State() == M.PopFront(old(State()), key) && nextTx == M.Front(State(), key)
      ensures !popped ==> State() == old(State())
    {
      var front := keyQueues[key].Front();
      popped, nextTx := front == txID, M.NONE;
      if popped {
        nextTx := PopQueue(keyQueues, key);
      }
    }

    /** The loop body of `Execute` and `Abort`. */
    method Release(txID: TxId, key: Key, lane: M.Lane)
      requires Valid() && key in keyQueues && txID != M.NONE
      modifies this`txReadyCount, this`readyQueue, this`inReady, this`pruneReadyQueue, this`inPruneReady
      modifies keyQueues[key]
      ensures Valid() && State() == M.ReleaseOne(old(State()), txID, key, lane)
    {
      var popped, nextTx := PopIfFront(txID, key);
      if popped {
        Notify(nextTx, lane);
      }
    }

    /** The loop of `Execute` and `Abort` over a transaction's keys. */
    method ReleaseKeys(txID: TxId, keys: seq<Key>, lane: M.Lane)
      requires Valid() && txID != M.NONE && forall k :: k in keys ==> k in keyQueues
      modifies this`txReadyCount, this`readyQueue, this`inReady, this`pruneReadyQueue, this`inPruneReady
      modifies keyQueues.Values
      ensures Valid() && State() == M.ReleaseAll(old(State()), txID, keys, lane)
    {
      hide M.ReleaseOne, QueuesValid, ContentsOf;
      ghost var s := State();
      var i := 0;
      while i < |keys|
        invariant 0 <= i <= |keys|
        invariant Valid() && State() == M.ReleaseAll(s, txID, keys[..i], lane)
      {
        ReleaseAllStep(s, txID, keys, i, lane);
        assert keyQueues[keys[i]] in keyQueues.Values;
        Release(txID, keys[i], lane);
        i := i + 1;
      }
      assert keys[..i] == keys;
    }

    method Finish(txID: TxId, lane: M.Lane)
      requires Valid() && txID != M.NONE
      modifies this, keyQueues.Values
      ensures Valid() && State() == M.Finish(old(State()), txID, lane)
      ensures keyQueues == old(keyQueues) && txKeyMap == old(txKeyMap)
    {
      hide QueuesValid, ContentsOf, M.ReleaseAll;
      if txID in txExecuted && txExecuted[txID] {
        return;
      }
      MarkExecuted(txID);
      var keys := if txID in txKeyMap then txKeyMap[txID] else [];
      ReleaseKeys(txID, keys, lane);
    }

    method MarkExecuted(txID: TxId)
      modifies this`txExecuted
      ensures State() == old(State()).(executed := old(State()).executed + {txID})
    {
      txExecuted := txExecuted[txID := true];
      assert Done() == old(Done()) + {txID};
    }

    /** `Execute`: one step of the protocol; whoever comes free is ready. */
    method Execute(txID: TxId)
      requires Valid() && txID != M.NONE
      modifies this, keyQueues.Values
      ensures Valid() && State() == M.Execute(old(State()), txID)
      ensures keyQueues == old(keyQueues) && txKeyMap == old(txKeyMap)
      ensures Fills(old(State()), State(), M.Ready)
      ensures forall w :: Tracks(w, old(State())) && txID in w.flight ==>
                Tracks(R.Next(w, R.Executes(txID)), State()) && Arriving(w, M.KeysOf(w.s, txID), R.Next(w, R.Executes(txID)), M.Ready)
      ensures (exists w :: Tracks(w, old(State())) && txID in w.flight) ==>
                txID in Done() && forall k :: k in keyQueues ==> txID !in ContentsOf(keyQueues)[k]
    {
      hide M.Finish, M.Prune, Inv, Fills, Arriving, QueuesValid, ContentsOf;
      ghost var s := State();
      Finish(txID, M.Ready);
      FinishIsStep(s, txID, M.Ready);
      KeysOfContents(keyQueues);
    }

    /** `Abort`: the same, but whoever comes free is prune-ready. */
    method Abort(txID: TxId)
      requires Valid() && txID != M.NONE
      modifies this, keyQueues.Values
      ensures Valid() && State() == M.Abort(old(State()), txID)
      ensures keyQueues == old(keyQueues) && txKeyMap == old(txKeyMap)
      ensures Fills(old(State()), State(), M.PruneReady)
      ensures forall w :: Tracks(w, old(State())) && txID in w.flight ==>
                Tracks(R.Next(w, R.Aborts(txID)), State()) && Arriving(w, M.KeysOf(w.s, txID), R.Next(w, R.Aborts(txID)), M.PruneReady)
      ensures (exists w :: Tracks(w, old(State())) && txID in w.flight) ==>
                txID in Done() && forall k :: k in keyQueues ==> txID !in ContentsOf(keyQueues)[k]
    {
      hide M.Finish, M.Prune, Inv, Fills, Arriving, QueuesValid, ContentsOf;
      ghost var s := State();
      Finish(txID, M.PruneReady);
      FinishIsStep(s, txID, M.PruneReady);
      KeysOfContents(keyQueues);
    }

    method PruneKey(txID: TxId, key: Key)
      requires Valid() && key in keyQueues && txID != M.NONE
      modifies this`txReadyCount, this`readyQueue, this`inReady, this`pruneReadyQueue, this`inPruneReady
      modifies keyQueues[key]
      ensures Valid() && State() == M.PruneOne(old(State()), txID, key)
    {
      hide M.Remove, M.Notify, QueuesValid, ContentsOf;
      KeysOfContents(keyQueues);
      RemoveIsPrune(State(), txID, key);
      var wasFront, nextTx := RemoveFromQueue(keyQueues, key, txID);
      if wasFront {
        Notify(nextTx, M.PruneReady);
      }
    }

    /** `Prune`: the transaction leaves the queues of the keys it lists outside the real
        ones, and no others; everyone else keeps their place, and whoever comes free is
        prune-ready. */
    method Prune(txID: TxId, realKeys: seq<Key>)
      requires Valid() && txID != M.NONE
      modifies this`txReadyCount, this`readyQueue, this`inReady, this`pruneReadyQueue, this`inPruneReady
      modifies keyQueues.Values
      ensures Valid() && State() == M.Prune(old(State()), txID, Elements(realKeys))
      ensures Fills(old(State()), State(), M.PruneReady)
      ensures Distinct(M.KeysOf(old(State()), txID)) ==>
                forall k :: k in keyQueues ==>
                  PrunedQueue(old(ContentsOf(keyQueues))[k], ContentsOf(keyQueues)[k], txID,
                              k in M.KeysOf(old(State()), txID) && k !in realKeys)
      ensures forall w :: Tracks(w, old(State())) && txID in w.flight ==>
                Tracks(R.Next(w, R.Prunes(txID, Elements(realKeys))), State())
      ensures forall w :: Tracks(w, old(State())) && txID in w.flight ==>
                Arriving(w, Outside(M.KeysOf(w.s, txID), Elements(realKeys)), R.Next(w, R.Prunes(txID, Elements(realKeys))),
                         M.PruneReady)
    {
      hide M.Prune, Inv, Fills, Arriving, QueuesValid, ContentsOf, Distinct, PrunedQueue, Elements;
      ghost var s := State();
      KeysOfContents(keyQueues);
      PruneLoop(txID, realKeys);
      PruneIsStep(s, txID, Elements(realKeys));
      assert forall k :: k in Elements(realKeys) <==> k in realKeys by { ElementsAre(realKeys); }
    }

    /** The loop of `Prune` over a transaction's keys. */
    method PruneLoop(txID: TxId, realKeys: seq<Key>)
      requires Valid() && txID != M.NONE
      modifies this`txReadyCount, this`readyQueue, this`inReady, this`pruneReadyQueue, this`inPruneReady
      modifies keyQueues.Values
      ensures Valid() && State() == M.Prune(old(State()), txID, Elements(realKeys))
    {
      hide M.PruneOne, QueuesValid, ContentsOf;
      var keys := if txID in txKeyMap then txKeyMap[txID] else [];
      ghost var s, spared := State(), Elements(realKeys);
      var i := 0;
      while i < |keys|
        invariant 0 <= i <= |keys|
        invariant Valid() && State() == M.PruneAll(s, txID, keys[..i], spared)
      {
        PruneAllStep(s, txID, keys, i, spared);
        if keys[i] !in realKeys {
          assert keyQueues[keys[i]] in keyQueues.Values;
          PruneKey(txID, keys[i]);
        }
        i := i + 1;
      }
      assert keys[..i] == keys;
    }

    method PopReady() returns (txID: TxId)
      requires Valid()
      modifies this`readyQueue, this`inReady
      ensures Valid() && State() == M.PopReady(old(State()))
      ensures txID == if old(readyQueue) == [] then M.NONE else old(readyQueue)[0]
      ensures readyQueue == if old(readyQueue) == [] then [] else old(readyQueue)[1..]
      ensures forall w :: Tracks(w, old(State())) ==> Tracks(R.Next(w, R.PopsReady), State())
    {
      PopIsStep(State());
      if readyQueue == [] {
        return M.NONE;
      }
      txID := readyQueue[0];
      readyQueue, inReady := readyQueue[1..], inReady - {txID};
    }

    method PopPruneReady() returns (txID: TxId)
      requires Valid()
      modifies this`pruneReadyQueue, this`inPruneReady
      ensures Valid() && State() == M.PopPruneReady(old(State()))
      ensures txID == if old(pruneReadyQueue) == [] then M.NONE else old(pruneReadyQueue)[0]
      ensures pruneReadyQueue == if old(pruneReadyQueue) == [] then [] else old(pruneReadyQueue)[1..]
      ensures forall w :: Tracks(w, old(State())) ==> Tracks(R.Next(w, R.PopsPruneReady), State())
    {
      PopIsStep(State());
      if pruneReadyQueue == [] {
        return M.NONE;
      }
      txID := pruneReadyQueue[0];
      pruneReadyQueue, inPruneReady := pruneReadyQueue[1..], inPruneReady - {txID};
    }

    method Enqueue(txID: TxId, key: Key)
      requires QueuesValid(keyQueues)
      modifies this`keyQueues, this`txReadyCount, keyQueues.Values
      ensures QueuesValid(keyQueues) && State() == M.Enqueue(old(State()), txID, key)
      ensures keyQueues.Keys == old(keyQueues.Keys) + {key}
      ensures fresh(keyQueues.Values - old(keyQueues.Values))
    {
      EnqueueIs(State(), txID, key);
      hide QueuesValid, ContentsOf, M.Enqueue;
      var front;
      keyQueues, front := PushNew(keyQueues, key, txID);
      if front == txID {
        txReadyCount := txReadyCount[txID := (if txID in txReadyCount then txReadyCount[txID] else 0) - 1];
      }
    }

    method EnqueueKeys(txID: TxId, keys: seq<Key>)
      requires QueuesValid(keyQueues)
      modifies this`keyQueues, this`txReadyCount, keyQueues.Values
      ensures QueuesValid(keyQueues) && State() == M.EnqueueAll(old(State()), txID, keys)
      ensures forall k :: k in keyQueues <==> k in old(keyQueues) || k in keys
      ensures fresh(keyQueues.Values - old(keyQueues.Values))
    {
      hide QueuesValid, ContentsOf, M.Enqueue;
      ghost var s := State();
      var i := 0;
      while i < |keys|
        invariant 0 <= i <= |keys|
        invariant QueuesValid(keyQueues) && State() == M.EnqueueAll(s, txID, keys[..i])
        invariant forall k :: k in keyQueues <==> k in old(keyQueues) || k in keys[..i]
        invariant fresh(keyQueues.Values - old(keyQueues.Values))
      {
        EnqueueAllStep(s, txID, keys, i);
        assert keys[..i + 1] == keys[..i] + [keys[i]];
        Enqueue(txID, keys[i]);
        i := i + 1;
      }
      assert keys[..i] == keys;
    }

    method Register(txID: TxId, keys: seq<Key>)
      modifies this`txKeyMap, this`txExecuted, this`txReadyCount
      ensures State() == M.Register(old(State()), txID, keys)
      ensures txKeyMap == old(txKeyMap)[txID := keys]
    {
      txKeyMap := txKeyMap[txID := keys];
      txExecuted := txExecuted[txID := false];
      txReadyCount := txReadyCount[txID := |keys|];
      assert Done() == old(Done()) - {txID};
    }

    method PushIfUnblocked(txID: TxId)
      modifies this`readyQueue, this`inReady
      ensures State() == if M.CountOf(old(State()), txID) == 0 then M.Push(old(State()), txID, M.Ready) else old(State())
    {
      if (if txID in txReadyCount then txReadyCount[txID] else 0) == 0 {
        readyQueue, inReady := readyQueue + [txID], inReady + {txID};
      }
    }

    method AddTransaction(txID: TxId, keys: seq<Key>)
      requires Valid()
      modifies this, keyQueues.Values
      ensures Valid() && State() == M.AddTransaction(old(State()), txID, keys)
      ensures fresh(keyQueues.Values - old(keyQueues.Values))
      ensures forall w :: Tracks(w, old(State())) && txID !in w.order && txID != M.NONE ==>
                Tracks(R.Next(w, R.Adds(txID, keys)), State()) && IsListed(State(), txID, keys)
    {
      hide QueuesValid, ContentsOf, M.EnqueueAll, M.Register, M.QueueKeys, Inv, Alphabetical, IsListed;
      AddIsStep(State(), txID, keys);
      var sorted := SortedKeys(keys);
      Register(txID, sorted);
      EnqueueKeys(txID, sorted);
      PushIfUnblocked(txID);
    }

    /** One round of the inner loop of `schedule`: pop and execute. */
    method RunOne(ghost w: World) returns (txID: TxId)
      requires Valid() && State() == w.s && Inv(w) && Idle(w) && readyQueue != []
      modifies this, keyQueues.Values
      ensures Valid() && State() == RunFirst(w).s && keyQueues == old(keyQueues)
      ensures txID == w.s.ready[0]
    {
      hide Inv, M.Finish, M.PopReady, M.Execute, RunFirst, QueuesValid, ContentsOf;
      RunFirstKeeps(w);
      txID := PopReady();
      Execute(txID);
    }

    /** Runs what is ready now, in order; what it unblocks queues up behind. */
    method RunReady(ghost w: World) returns (level: seq<TxId>, ghost w': World)
      requires Valid() && State() == w.s && Inv(w) && Idle(w)
      modifies this, keyQueues.Values
      ensures Valid() && State() == w'.s && keyQueues == old(keyQueues)
      ensures Inv(w') && Idle(w') && w'.order == w.order && w'.s.keysOf == w.s.keysOf
      ensures level == w.s.ready
      ensures forall t :: t in w'.gone <==> t in w.gone || t in w.s.ready
    {
      hide Inv, Idle, RunFirst, QueuesValid, ContentsOf;
      w' := w;
      level := [];
      ghost var first := readyQueue;
      var levelSize := |readyQueue|;
      var i := 0;
      while i < levelSize
        invariant 0 <= i <= levelSize && keyQueues == old(keyQueues)
        invariant Valid() && State() == w'.s && Inv(w') && Idle(w')
        invariant w'.order == w.order && w'.s.keysOf == w.s.keysOf
        invariant first[i..] <= readyQueue && level == first[..i]
        invariant forall t :: t in w'.gone <==> t in w.gone || t in first[..i]
      {
        FrontMoves(first, i, readyQueue);
        RunFirstKeeps(w');
        var txID := RunOne(w');
        w' := RunFirst(w');
        level := level + [txID];
        i := i + 1;
      }
      assert first[..i] == first;
    }

    /** Runs one level of `schedule`. */
    method RunLevel(ghost w: World, ghost depth: nat) returns (level: seq<TxId>, ghost w': World)
      requires Valid() && State() == w.s && Inv(w) && AllAbove(w, depth)
      modifies this, keyQueues.Values
      ensures Valid() && State() == w'.s && keyQueues == old(keyQueues)
      ensures Inv(w') && AllAbove(w', depth + 1) && w'.order == w.order && w'.s.keysOf == w.s.keysOf
      ensures Alphabetical(level) && Distinct(level) && |level| == |w.s.ready|
      ensures forall t :: t in level <==> t in w.order && Level(w, t) == depth
    {
      AboveIsIdle(w, depth);
      ReadyIsLevel(w, depth);
      hide Inv, Level, AllAbove, QueuesValid, ContentsOf;
      level, w' := RunReady(w);
      LevelDone(w, depth, w');
      StringOrder();
      SortKeeps(StringLe, level);
      level := SortStrings(level);
    }

    /** `schedule`: runs everything, level by level. */
    method Schedule(ghost w: World) returns (levels: seq<seq<TxId>>, ghost w': World)
      requires Valid() && State() == w.s && Inv(w) && Idle(w) && w.gone == {}
      modifies this, keyQueues.Values
      ensures Valid() && State() == w'.s && Inv(w') && w'.order == w.order
      ensures AreLevels(w, levels)
      ensures forall t :: t in w.order ==> t in w'.gone && Level(w, t) < |levels|
    {
      hide Inv, Level, AllAbove, Idle, Alphabetical, QueuesValid, ContentsOf, AreLevels, Valid, State;
      NoneAbove(w);
      NoLevels(w);
      w' := w;
      levels := [];
      while readyQueue != []
        invariant Valid() && State() == w'.s && keyQueues == old(keyQueues)
        invariant Inv(w') && AllAbove(w', |levels|) && w'.order == w.order && w'.s.keysOf == w.s.keysOf
        invariant AreLevels(w, levels) && |levels| <= |w.order|
        decreases |w.order| - |levels|
      {
        ghost var w1 := w';
        StateReady();
        var level;
        level, w' := RunLevel(w1, |levels|);
        MoreLevels(w, levels, w1, level);
        levels := levels + [level];
      }
      StateReady();
      AllLevelled(w, w', |levels|);
    }

    lemma StateReady()
      ensures State().ready == readyQueue
    {
    }
  }

  /** `levels[d]` lists, in string order, the transactions of depth `d`. */
  ghost predicate AreLevels(w: World, levels: seq<seq<TxId>>) {
    && (forall d :: 0 <= d < |levels| ==> Alphabetical(levels[d]) && Distinct(levels[d]) && levels[d] != [])
    && (forall d, t :: 0 <= d < |levels| ==> (t in levels[d] <==> t in w.order && Level(w, t) == d))
  }

  lemma MoreLevels(w: World, levels: seq<seq<TxId>>, w1: World, level: seq<TxId>)
    requires AreLevels(w, levels) && w1.order == w.order && w1.s.keysOf == w.s.keysOf
    requires Alphabetical(level) && Distinct(level) && level != []
    requires forall t :: t in level <==> t in w1.order && Level(w1, t) == |levels|
    ensures AreLevels(w, levels + [level]) && |levels| < |w.order|
  {
    hide Level, Alphabetical;
    forall t | t in w.order ensures Level(w1, t) == Level(w, t) {
      SameLevel(w, w1, t);
    }
    LevelIsSmall(w1, level[0]);
    assert level[0] in level;
  }

  lemma AllLevelled(w: World, w': World, depth: nat)
    requires Inv(w') && AllAbove(w', depth) && w'.s.ready == [] && w'.order == w.order && w'.s.keysOf == w.s.keysOf
    ensures forall t :: t in w.order ==> t in w'.gone && Level(w, t) < depth
  {
    hide Inv, Level;
    forall t | t in w.order ensures t in w'.gone && Level(w, t) < depth {
      SameLevel(w, w', t);
      if t !in w'.gone {
        Progress(w');
      }
    }
  }

  lemma FrontMoves(first: seq<TxId>, i: nat, ready: seq<TxId>)
    requires i < |first| && first[i..] <= ready
    ensures ready != [] && ready[0] == first[i] && first[i + 1..] <= ready[1..] && first[..i + 1] == first[..i] + [first[i]]
  {
    assert first[i..][0] == first[i] && first[i..][1..] == first[i + 1..];
  }

  lemma NoLevels(w: World)
    ensures AreLevels(w, [])
  {
  }

  lemma NoneAbove(w: World)
    requires Idle(w) && w.gone == {}
    ensures AllAbove(w, 0)
  {
  }

  lemma AboveIsIdle(w: World, depth: nat)
    requires AllAbove(w, depth)
    ensures Idle(w)
  {
  }

  lemma ReadyIsLevel(w: World, depth: nat)
    requires Inv(w) && AllAbove(w, depth)
    ensures Distinct(w.s.ready)
    ensures forall t :: t in w.s.ready <==> t in w.order && Level(w, t) == depth
  {
    assert Distinct(w.s.ready) by { assert Lanes(w); }
    hide Inv, Level, AllAbove;
    forall t ensures t in w.s.ready <==> t in w.order && Level(w, t) == depth {
      if t in w.s.ready { ReadyAreNext(w, depth, t); }
      if t in w.order && Level(w, t) == depth { NextAreReady(w, depth, t); }
    }
  }

  /** The deduplicated keys of a transaction, in string order. */
  method SortedKeys(keys: seq<Key>) returns (sorted: seq<Key>)
    ensures sorted == M.QueueKeys(keys)
  {
    var uniq := Deduplicate(keys);
    sorted := SortStrings(uniq);
  }

  /** Drops repeated keys, keeping first occurrences in place. */
  method Deduplicate(keys: seq<Key>) returns (uniq: seq<Key>)
    ensures uniq == M.Dedup(keys) && ByFirst(keys, uniq) && Distinct(uniq) && forall k :: k in uniq <==> k in keys
  {
    hide ByFirst;
    NothingByFirst(keys);
    var seen: set<Key> := {};
    uniq := [];
    for i := 0 to |keys|
      invariant uniq == M.Dedup(keys[..i]) && ByFirst(keys[..i], uniq)
      invariant forall k :: k in seen <==> k in uniq
    {
      assert keys[..i + 1][..i] == keys[..i] && keys[..i + 1] == keys[..i] + [keys[i]];
      ByFirstMore(keys[..i], uniq, keys[i]);
      if keys[i] !in seen {
        seen, uniq := seen + {keys[i]}, uniq + [keys[i]];
      }
    }
    assert keys[..|keys|] == keys;
  }

  lemma NothingByFirst(keys: seq<Key>)
    ensures ByFirst(keys[..0], [])
  {
  }

  /** A transaction's predicted reads and writes. */
  datatype Context = Context(preReadSet: set<Key>, preWriteSet: set<Key>)

  /** `Depurge_schedule`: transactions are added in string order of their IDs,
      each with the keys it is predicted to read or write. */
  method DepurgeSchedule(contexts: map<TxId, Context>) returns (ds: DepurgeScheduler, ghost w: World)
    requires M.NONE !in contexts
    ensures ds.Valid() && ds.State() == w.s && Inv(w) && Idle(w) && w.gone == {}
    ensures Alphabetical(w.order) && forall t :: t in w.order <==> t in contexts
    ensures KeysMatch(contexts, w)
  {
    hide KeysMatch;
    var ids := Traverse(contexts.Keys);
    StringOrder();
    SortKeeps(StringLe, ids);
    ids := SortStrings(ids);
    ds, w := AddAll(contexts, ids);
  }

  /** Each of the transactions was queued once for every key it is predicted to read or
      write, and these are listed as in a dictionary. */
  ghost predicate KeysMatch(contexts: map<TxId, Context>, w: World) {
    && (forall t, k :: t in w.order && t in contexts ==>
          (k in M.KeysOf(w.s, t) <==> k in contexts[t].preReadSet + contexts[t].preWriteSet))
    && (forall t :: t in w.order ==> Distinct(M.KeysOf(w.s, t)) && Alphabetical(M.KeysOf(w.s, t)))
  }

  method AddAll(contexts: map<TxId, Context>, ids: seq<TxId>) returns (ds: DepurgeScheduler, ghost w: World)
    requires Distinct(ids) && forall t :: t in ids ==> t in contexts && t != M.NONE
    ensures ds.Valid() && ds.State() == w.s && Inv(w) && Idle(w) && w.gone == {} && w.order == ids
    ensures KeysMatch(contexts, w)
  {
    hide Inv, M.AddTransaction, QueuesValid, ContentsOf, DepurgeScheduler.Valid, DepurgeScheduler.State, KeysMatch;
    ds := new DepurgeScheduler();
    w := World(M.INITIAL, [], {}, {}, map[]);
    InitialInv();
    NoKeys(contexts, w);
    for i := 0 to |ids|
      invariant fresh(ds) && fresh(ds.keyQueues.Values)
      invariant ds.Valid() && ds.State() == w.s
      invariant Inv(w) && Idle(w) && w.gone == {} && w.order == ids[..i] && KeysMatch(contexts, w)
    {
      var t := ids[i];
      assert t in ids && t !in ids[..i];
      assert ids[..i + 1] == ids[..i] + [t];
      var keys := Traverse(contexts[t].preReadSet + contexts[t].preWriteSet);
      AddKeeps(w, t, keys);
      MoreKeys(contexts, w, t, keys);
      ds.AddTransaction(t, keys);
      w := Added(w, t, keys);
    }
    assert ids[..|ids|] == ids;
  }

  lemma NoKeys(contexts: map<TxId, Context>, w: World)
    requires w.order == []
    ensures KeysMatch(contexts, w)
  {
  }

  lemma MoreKeys(contexts: map<TxId, Context>, w: World, t: TxId, keys: seq<Key>)
    requires Inv(w) && t !in w.order && t != M.NONE && t in contexts && Idle(w) && KeysMatch(contexts, w)
    requires forall k :: k in keys <==> k in contexts[t].preReadSet + contexts[t].preWriteSet
    ensures KeysMatch(contexts, Added(w, t, keys)) && Idle(Added(w, t, keys))
  {
    hide Inv, M.AddTransaction, M.KeysOf, Alphabetical, Distinct;
    AddedKeys(w, t, keys);
    assert forall u :: u in w.order + [t] <==> u in w.order || u == t;
  }

  lemma AddedKeys(w: World, t: TxId, keys: seq<Key>)
    requires Inv(w) && t !in w.order && t != M.NONE
    ensures var s' := M.AddTransaction(w.s, t, keys);
            && s'.pruneReady == w.s.pruneReady
            && (forall k :: k in M.KeysOf(s', t) <==> k in keys)
            && Distinct(M.KeysOf(s', t)) && Alphabetical(M.KeysOf(s', t))
            && (forall u :: u != t ==> M.KeysOf(s', u) == M.KeysOf(w.s, u))
  {
    hide Inv, M.AddTransaction, Alphabetical, Distinct;
    AddedState(w, t, keys);
  }
}

/**
 The Depurge scheduler as a state machine.

 Each public method of the scheduler is atomic under one lock, so its effect is
 a function of the scheduler's state.  The functions below are those effects;
 the classes in DepurgeScheduler compute them in place.
 */
module DepurgeModel {
  import opened Sequences
  import opened Deltas
  import opened Footprint
  import opened Sorting

  /** The two lists of dispatchable transactions. */
  datatype Lane = Ready | PruneReady

  datatype Sched = Sched(
    queues: map<Key, seq<TxId>>,
    keysOf: map<TxId, seq<Key>>,
    executed: set<TxId>,
    ready: seq<TxId>,
    pruneReady: seq<TxId>,
    inReady: set<TxId>,
    inPruneReady: set<TxId>,
    count: map<TxId, int>)

  /** "" stands for "no transaction", as in the program. */
  const NONE: TxId := ""

  const INITIAL: Sched := Sched(map[], map[], {}, [], [], {}, {}, map[])

  function Front(s: Sched, k: Key): TxId {
    if k in s.queues && s.queues[k] != [] then s.queues[k][0] else NONE
  }

  function CountOf(s: Sched, t: TxId): int {
    if t in s.count then s.count[t] else 0
  }

  function KeysOf(s: Sched, t: TxId): seq<Key> {
    if t in s.keysOf then s.keysOf[t] else []
  }

  function Push(s: Sched, t: TxId, lane: Lane): Sched {
    match lane
    case Ready => s.(ready := s.ready + [t], inReady := s.inReady + {t})
    case PruneReady => s.(pruneReady := s.pruneReady + [t], inPruneReady := s.inPruneReady + {t})
  }

  /** A key has come free for `next`: one key less to wait for, and the lane
      once there is none left. */
  function Notify(s: Sched, next: TxId, lane: Lane): Sched {
    if next == NONE || next in s.executed then s
    else
      var c := CountOf(s, next) - 1;
      var s' := s.(count := s.count[next := c]);
      if c == 0 && next !in s.inReady && (lane.Ready? || next !in s.inPruneReady) then Push(s', next, lane) else s'
  }

  function Remove(q: seq<TxId>, t: TxId): seq<TxId> {
    if q == [] then [] else if q[0] == t then q[1..] else [q[0]] + Remove(q[1..], t)
  }

  // ------------------------------------------------- Execute and Abort

  function PopFront(s: Sched, k: Key): Sched
    requires k in s.queues && s.queues[k] != []
  {
    s.(queues := s.queues[k := s.queues[k][1..]])
  }

  function ReleaseOne(s: Sched, t: TxId, k: Key, lane: Lane): Sched {
    if k in s.queues && s.queues[k] != [] && s.queues[k][0] == t then
      var s' := PopFront(s, k);
      Notify(s', Front(s', k), lane)
    else s
  }

  function ReleaseAll(s: Sched, t: TxId, keys: seq<Key>, lane: Lane): Sched {
    if keys == [] then s
    else ReleaseOne(ReleaseAll(s, t, keys[..|keys| - 1], lane), t, keys[|keys| - 1], lane)
  }

  function Finish(s: Sched, t: TxId, lane: Lane): Sched {
    if t in s.executed then s
    else ReleaseAll(s.(executed := s.executed + {t}), t, KeysOf(s, t), lane)
  }

  function Execute(s: Sched, t: TxId): Sched {
    Finish(s, t, Ready)
  }

  function Abort(s: Sched, t: TxId): Sched {
    Finish(s, t, PruneReady)
  }

  // --------------------------------------------------------------- Prune

  function PruneOne(s: Sched, t: TxId, k: Key): Sched {
    if k in s.queues && t in s.queues[k] then
      var s' := s.(queues := s.queues[k := Remove(s.queues[k], t)]);
      if s.queues[k][0] == t then Notify(s', Front(s', k), PruneReady) else s'
    else s
  }

  function PruneAll(s: Sched, t: TxId, keys: seq<Key>, realKeys: set<Key>): Sched {
    if keys == [] then s
    else
      var s' := PruneAll(s, t, keys[..|keys| - 1], realKeys);
      var k := keys[|keys| - 1];
      if k in realKeys then s' else PruneOne(s', t, k)
  }

  function Prune(s: Sched, t: TxId, realKeys: set<Key>): Sched {
    PruneAll(s, t, KeysOf(s, t), realKeys)
  }

  // ---------------------------------------------------------------- pops

  function PopReady(s: Sched): Sched {
    if s.ready == [] then s else s.(ready := s.ready[1..], inReady := s.inReady - {s.ready[0]})
  }

  function PopPruneReady(s: Sched): Sched {
    if s.pruneReady == [] then s
    else s.(pruneReady := s.pruneReady[1..], inPruneReady := s.inPruneReady - {s.pruneReady[0]})
  }

  // -------------------------------------------------------- addTransaction

  function Dedup(keys: seq<Key>): (r: seq<Key>)
    ensures Distinct(r) && forall k :: k in r <==> k in keys
  {
    if keys == [] then []
    else
      var last := keys[|keys| - 1];
      var r := Dedup(keys[..|keys| - 1]);
      assert keys == keys[..|keys| - 1] + [last];
      if last in r then r else r + [last]
  }

  function QueueKeys(keys: seq<Key>): (r: seq<Key>)
    ensures Distinct(r) && Alphabetical(r) && forall k :: k in r <==> k in keys
  {
    StringOrder();
    SortKeeps(StringLe, Dedup(keys));
    SortStrings(Dedup(keys))
  }

  function Enqueue(s: Sched, t: TxId, k: Key): Sched {
    var q := if k in s.queues then s.queues[k] else [];
    var s' := s.(queues := s.queues[k := if t in q then q else q + [t]]);
    if Front(s', k) == t then s'.(count := s'.count[t := CountOf(s', t) - 1]) else s'
  }

  function EnqueueAll(s: Sched, t: TxId, keys: seq<Key>): Sched {
    if keys == [] then s
    else Enqueue(EnqueueAll(s, t, keys[..|keys| - 1]), t, keys[|keys| - 1])
  }

  function Register(s: Sched, t: TxId, keys: seq<Key>): Sched {
    s.(keysOf := s.keysOf[t := keys], executed := s.executed - {t}, count := s.count[t := |keys|])
  }

  function AddTransaction(s: Sched, t: TxId, keys: seq<Key>): Sched {
    var ks := QueueKeys(keys);
    var s' := EnqueueAll(Register(s, t, ks), t, ks);
    if CountOf(s', t) == 0 then Push(s', t, Ready) else s'
  }
}

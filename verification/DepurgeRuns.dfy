/**
 Runs of the Depurge protocol: every interleaving of scheduler calls by workers
 that re-execute, publish and finish the transactions they have popped.
 */
module DepurgeRuns {
  import opened Sequences
  import opened Deltas
  import opened Footprint
  import opened DepurgeModel
  import opened DepurgeInvariant
  import opened DepurgeSteps

  /** One atomic step.  A worker's life is a pop, then `Reads` (re-execution on
      the committed state of that moment), possibly `Prunes` with its real keys,
      then either `Publishes` and `Executes`, or `Aborts`. */
  datatype Event =
    | Adds(t: TxId, keys: seq<Key>)
    | PopsReady
    | PopsPruneReady
    | Reads(t: TxId)
    | Prunes(t: TxId, realKeys: set<Key>)
    | Publishes(t: TxId)
    | Executes(t: TxId)
    | Aborts(t: TxId)

  datatype Machine = Machine(
    w: World,
    store: Store,
    seen: map<TxId, Outcome>,  // what each worker's re-execution yielded
    effects: seq<Entry>,       // published outcomes, in order of publication
    entered: seq<TxId>,        // everything that ever entered a lane
    popped: seq<TxId>)         // everything that was ever popped

  ghost function Start(store: Store): Machine {
    Machine(World(INITIAL, [], {}, {}, map[]), store, map[], [], [], [])
  }

  /** The protocol: IDs are fresh and not the sentinel, and a transaction is
      re-executed, pruned, published and finished only while in flight; pruning
      spares the keys it really touched, publishing needs a run
      without error and its keys among those it was queued for, and what has been
      published is not aborted. */
  ghost predicate Enabled(m: Machine, e: Event) {
    match e
    case Adds(t, keys) => t !in m.w.order && t != NONE
    case PopsReady => true
    case PopsPruneReady => true
    case Reads(t) => t in m.w.flight && t !in m.seen
    case Prunes(t, realKeys) => t in m.w.flight && t in m.seen && m.seen[t].touched <= realKeys
    case Publishes(t) =>
      && t in m.w.flight && t in m.seen && t !in Ids(m.effects)
      && !m.seen[t].failed && m.seen[t].touched <= Elements(KeysOf(m.w.s, t))
    case Executes(t) => t in m.w.flight && t in Ids(m.effects)
    case Aborts(t) => t in m.w.flight && t !in Ids(m.effects)
  }

  /** What a step appended to a lane. */
  ghost function Newcomers(before: seq<TxId>, after: seq<TxId>): seq<TxId> {
    if before <= after then after[|before|..] else []
  }

  /** A scheduler call that may fill lanes. */
  ghost function Filling(m: Machine, w: World): Machine {
    m.(w := w, entered := m.entered + Newcomers(m.w.s.ready, w.s.ready) + Newcomers(m.w.s.pruneReady, w.s.pruneReady))
  }

  /** What an event does to the scheduler and its history. */
  ghost function Next(w: World, e: Event): World {
    match e
    case Adds(t, keys) => Added(w, t, keys)
    case PopsReady => PoppedReady(w)
    case PopsPruneReady => PoppedPruneReady(w)
    case Prunes(t, realKeys) => PrunedWorld(w, t, realKeys)
    case Executes(t) => Finished(w, t, Ready)
    case Aborts(t) => Finished(w, t, PruneReady)
    case Reads(_) => w
    case Publishes(_) => w
  }

  ghost function Step(run: Program, m: Machine, e: Event): Machine
    requires Enabled(m, e)
  {
    match e
    case Adds(_, _) => Filling(m, Next(m.w, e))
    case PopsReady =>
      if m.w.s.ready == [] then m else m.(w := Next(m.w, e), popped := m.popped + [m.w.s.ready[0]])
    case PopsPruneReady =>
      if m.w.s.pruneReady == [] then m
      else m.(w := Next(m.w, e), popped := m.popped + [m.w.s.pruneReady[0]])
    case Reads(t) => m.(seen := m.seen[t := run(t, m.store)])
    case Prunes(_, _) => Filling(m, Next(m.w, e))
    case Publishes(t) =>
      m.(store := Applied(m.store, m.seen[t].deltas), effects := m.effects + [Entry(t, m.seen[t])])
    case Executes(_) => Filling(m, Next(m.w, e))
    case Aborts(_) => Filling(m, Next(m.w, e))
  }

  /** `m` is where the events `es` lead from a start on `store`. */
  ghost predicate Reached(run: Program, store: Store, es: seq<Event>, m: Machine)
    decreases |es|
  {
    if es == [] then m == Start(store)
    else
      var n := |es| - 1;
      exists p: Machine :: Reached(run, store, es[..n], p) && Enabled(p, es[n]) && m == Step(run, p, es[n])
  }

  // ------------------------------------------------------------ invariant

  /** Published outcomes come from workers that popped and re-executed. */
  ghost predicate Recorded(m: Machine) {
    && (forall t :: t in m.seen ==> t in m.w.flight || t in m.w.gone)
    && DistinctIds(m.effects)
    && (forall e :: e in m.effects ==> e.tx in m.seen && e.out == m.seen[e.tx] && !e.out.failed)
    && (forall e :: e in m.effects ==> e.out.touched <= Elements(KeysOf(m.w.s, e.tx)))
  }

  /** The store is what the published outcomes made of the initial one. */
  ghost predicate Explained(run: Program, store: Store, m: Machine) {
    Genuine(run, store, m.effects) && m.store == Final(store, m.effects)
  }

  /** What `t` really touched is among the keys it was queued for. */
  ghost predicate Validated(m: Machine, t: TxId) {
    t in m.seen && m.seen[t].touched <= Elements(KeysOf(m.w.s, t))
  }

  /** A worker holding every key it touched could re-execute with the same
      outcome. */
  ghost predicate Current(run: Program, m: Machine) {
    && (forall t :: t in m.w.flight && t in m.seen ==> m.seen[t].touched !! Pruned(m.w, t))
    && (forall t :: t in m.w.flight && t !in m.seen ==> Pruned(m.w, t) == {})
    && (forall t :: t in m.w.flight && Validated(m, t) && t !in Ids(m.effects) ==> run(t, m.store) == m.seen[t])
  }

  /** Nobody earlier still holds a key that a published transaction touched. */
  ghost predicate Settled(m: Machine) {
    && (forall e :: e in m.effects ==> e.tx in m.w.order)
    && (forall e, k, u :: e in m.effects && k in e.out.touched && Holds(m.w, u, k) ==>
          Rank(m.w.order, e.tx) <= Rank(m.w.order, u))
  }

  /** Every transaction enters the lanes once and is popped once. */
  ghost predicate Dispatched(m: Machine) {
    && Distinct(m.entered) && Distinct(m.popped)
    && (forall t :: t in m.entered <==>
          t in m.w.s.inReady || t in m.w.s.inPruneReady || t in m.w.flight || t in m.w.gone)
    && (forall t :: t in m.popped <==> t in m.w.flight || t in m.w.gone)
  }

  ghost predicate Good(run: Program, store: Store, m: Machine) {
    && Inv(m.w) && Recorded(m) && Explained(run, store, m) && Current(run, m)
    && Settled(m) && Respects(m.effects, m.w.order) && Dispatched(m)
  }

  // --------------------------------------- steps that publish nothing

  /** Between `m` and `m'` nothing was re-executed or published, and no key was
      gained by anyone who was there before. */
  ghost predicate Quiet(m: Machine, m': Machine) {
    && m'.store == m.store && m'.seen == m.seen && m'.effects == m.effects
    && m'.w.order == m.w.order
    && (forall t :: t in m.w.flight || t in m.w.gone ==> t in m'.w.flight || t in m'.w.gone)
    && (forall t :: t in m'.w.flight ==> t in m.w.flight || Waiting(m.w, t))
    && (forall t :: t in m'.w.flight && t !in m.w.flight ==> Pruned(m'.w, t) == {})
    && (forall t :: t in m.w.flight && t in m'.w.flight && t in m.seen && m.seen[t].touched !! Pruned(m.w, t) ==>
          m.seen[t].touched !! Pruned(m'.w, t))
    && (forall t :: t in m.w.flight && t in m'.w.flight && t !in m.seen ==> Pruned(m'.w, t) == Pruned(m.w, t))
    && (forall t, k :: Holds(m'.w, t, k) ==> Holds(m.w, t, k))
    && m'.w.s.keysOf == m.w.s.keysOf
  }

  lemma QuietKeeps(run: Program, store: Store, m: Machine, m': Machine)
    requires Good(run, store, m) && Quiet(m, m')
    ensures Recorded(m') && Explained(run, store, m') && Current(run, m') && Settled(m')
    ensures Respects(m'.effects, m'.w.order)
  {
    hide Rank, Inv, Genuine, Final, Respects, Dispatched, DistinctIds;
    assert forall t :: KeysOf(m'.w.s, t) == KeysOf(m.w.s, t);
    assert forall t :: Validated(m', t) <==> Validated(m, t);
    hide Holds, Pruned, KeysOf, Validated;
  }

  // ------------------------------------------------------ lanes only grow

  ghost predicate Grows(s: Sched, s': Sched) {
    s.ready <= s'.ready && s.pruneReady <= s'.pruneReady
  }

  lemma {:induction false} ReleaseAllGrows(s: Sched, t: TxId, keys: seq<Key>, lane: Lane)
    ensures Grows(s, ReleaseAll(s, t, keys, lane))
  {
    if keys != [] {
      ReleaseAllGrows(s, t, keys[..|keys| - 1], lane);
    }
  }

  lemma {:induction false} PruneAllGrows(s: Sched, t: TxId, keys: seq<Key>, realKeys: set<Key>)
    ensures Grows(s, PruneAll(s, t, keys, realKeys))
  {
    if keys != [] {
      PruneAllGrows(s, t, keys[..|keys| - 1], realKeys);
    }
  }

  lemma AddGrows(w: World, t: TxId, keys: seq<Key>)
    requires Inv(w) && t !in w.order && t != NONE
    ensures Grows(w.s, AddTransaction(w.s, t, keys))
  {
    AddedState(w, t, keys);
    hide AddTransaction, Inv, Extended, Leads;
  }

  lemma NewInLane(w: World, w': World, t: TxId)
    requires Inv(w) && Inv(w') && Grows(w.s, w'.s)
    requires t in Newcomers(w.s.ready, w'.s.ready) + Newcomers(w.s.pruneReady, w'.s.pruneReady)
    ensures t !in w.s.inReady && t !in w.s.inPruneReady && t !in w'.flight && t !in w'.gone
    ensures t in w'.s.inReady || t in w'.s.inPruneReady
  {
    hide Rank, Shape, Queued, Counted, AtFront;
    var a, b := w.s.ready, w.s.pruneReady;
    var a', b' := w'.s.ready, w'.s.pruneReady;
    assert a' == a + a'[|a|..] && b' == b + b'[|b|..];
    assert t in a' || t in b';
    assert t in w'.s.inReady + w'.s.inPruneReady;
    assert forall u :: u in a ==> u in a';
    assert forall u :: u in b ==> u in b';
  }

  lemma NewcomersDistinct(w: World, w': World)
    requires Inv(w) && Inv(w') && Grows(w.s, w'.s)
    ensures Distinct(Newcomers(w.s.ready, w'.s.ready) + Newcomers(w.s.pruneReady, w'.s.pruneReady))
    ensures forall t :: t in w'.s.inReady || t in w'.s.inPruneReady <==>
              t in w.s.inReady || t in w.s.inPruneReady
              || t in Newcomers(w.s.ready, w'.s.ready) + Newcomers(w.s.pruneReady, w'.s.pruneReady)
  {
    hide Rank, Shape, Queued, Counted, AtFront;
    var a, b := w.s.ready, w.s.pruneReady;
    var a', b' := w'.s.ready, w'.s.pruneReady;
    assert a' == a + a'[|a|..] && b' == b + b'[|b|..];
    assert Distinct(a'[|a|..]) && Distinct(b'[|b|..]);
    forall x | x in b'[|b|..] ensures x !in a'[|a|..] {
      assert x in b' && x in w'.s.inPruneReady;
      assert x in a'[|a|..] ==> x in a';
    }
    DistinctAppend(a'[|a|..], b'[|b|..]);
  }

  lemma DistinctAppend<T>(a: seq<T>, b: seq<T>)
    requires Distinct(a) && Distinct(b) && forall x :: x in b ==> x !in a
    ensures Distinct(a + b)
  {
    assert forall i :: 0 <= i < |b| ==> b[i] in b;
  }

  lemma FillingKeeps(m: Machine, w': World)
    requires Inv(m.w) && Dispatched(m) && Inv(w') && Grows(m.w.s, w'.s)
    requires forall t :: t in m.w.flight || t in m.w.gone <==> t in w'.flight || t in w'.gone
    ensures Dispatched(Filling(m, w'))
  {
    var new' := Newcomers(m.w.s.ready, w'.s.ready) + Newcomers(m.w.s.pruneReady, w'.s.pruneReady);
    NewcomersDistinct(m.w, w');
    forall t | t in new' ensures t !in m.entered {
      NewInLane(m.w, w', t);
    }
    hide Inv, Newcomers, Grows;
    DistinctAppend(m.entered, new');
    assert Filling(m, w').entered == m.entered + new';
  }

  // ------------------------------------------------------- the steps

  lemma FinishGrows(s: Sched, t: TxId, lane: Lane)
    ensures Grows(s, Finish(s, t, lane))
  {
    ReleaseAllGrows(s.(executed := s.executed + {t}), t, KeysOf(s, t), lane);
  }

  /** Finishing and pruning only ever take keys away. */
  lemma HoldsShrink(w: World, w': World)
    requires w'.order == w.order && w'.s.keysOf == w.s.keysOf && w.gone <= w'.gone
    requires forall t :: Pruned(w, t) <= Pruned(w', t)
    ensures forall t, k :: Holds(w', t, k) ==> Holds(w, t, k)
  {
    hide Pruned;
  }

  lemma FinishQuiet(m: Machine, t: TxId, lane: Lane)
    requires Inv(m.w) && t in m.w.flight
    ensures var w' := Finished(m.w, t, lane);
            Quiet(m, Filling(m, w')) && Inv(w') && Grows(m.w.s, w'.s)
  {
    hide Rank, Inv, Core, Newcomers, Finish, Grows, Holds, Waiting;
    var w' := Finished(m.w, t, lane);
    InvIsCore(m.w);
    InFlightAlive(m.w, t);
    FinishKeeps(m.w, t, lane);
    FinishGrows(m.w.s, t, lane);
    HoldsShrink(m.w, w');
  }

  lemma FinishStep(run: Program, store: Store, m: Machine, t: TxId, lane: Lane)
    requires Good(run, store, m) && t in m.w.flight
    ensures Good(run, store, Filling(m, Finished(m.w, t, lane)))
  {
    var w' := Finished(m.w, t, lane);
    assert t in m.w.flight && t !in m.w.gone by { InFlightAlive(m.w, t); }
    hide Inv, Finish, Quiet, Recorded, Explained, Current, Settled, Respects, Dispatched, Grows;
    FinishQuiet(m, t, lane);
    QuietKeeps(run, store, m, Filling(m, w'));
    FillingKeeps(m, w');
  }

  lemma PruneQuiet(m: Machine, t: TxId, realKeys: set<Key>)
    requires Inv(m.w) && Enabled(m, Prunes(t, realKeys))
    ensures var w' := PrunedWorld(m.w, t, realKeys);
            Quiet(m, Filling(m, w')) && Inv(w') && Grows(m.w.s, w'.s)
  {
    hide Rank, Inv, Newcomers, PruneAll, Grows, Holds, Waiting, KeysOf;
    var w' := PrunedWorld(m.w, t, realKeys);
    PruneKeeps(m.w, t, realKeys);
    PruneAllGrows(m.w.s, t, KeysOf(m.w.s, t), realKeys);
    HoldsShrink(m.w, w');
  }

  lemma PruneStep(run: Program, store: Store, m: Machine, t: TxId, realKeys: set<Key>)
    requires Good(run, store, m) && Enabled(m, Prunes(t, realKeys))
    ensures Good(run, store, Step(run, m, Prunes(t, realKeys)))
  {
    var w' := PrunedWorld(m.w, t, realKeys);
    hide Inv, PruneAll, Quiet, Recorded, Explained, Current, Settled, Respects, Dispatched, Grows;
    PruneQuiet(m, t, realKeys);
    QuietKeeps(run, store, m, Filling(m, w'));
    FillingKeeps(m, w');
  }

  ghost function PopWorld(m: Machine, t: TxId, w': World): Machine {
    m.(w := w', popped := m.popped + [t])
  }

  lemma PopQuiet(m: Machine, t: TxId, w': World)
    requires Shape(m.w) && Waiting(m.w, t) && TakesOff(m.w, t, w')
    ensures Quiet(m, PopWorld(m, t, w'))
  {
    hide Holds, Distinct, KeysOf;
    assert Pruned(m.w, t) == {};
    HoldsShrink(m.w, w');
  }

  lemma PopDispatched(m: Machine, t: TxId, w': World)
    requires Dispatched(m) && Waiting(m.w, t) && TakesOff(m.w, t, w')
    requires t in m.w.s.inReady || t in m.w.s.inPruneReady
    requires w'.s.inReady + w'.s.inPruneReady == m.w.s.inReady + m.w.s.inPruneReady - {t}
    ensures Dispatched(PopWorld(m, t, w'))
  {
    DistinctAppend(m.popped, [t]);
    hide Distinct;
    assert forall u :: u in w'.s.inReady || u in w'.s.inPruneReady <==> u in w'.s.inReady + w'.s.inPruneReady;
  }

  lemma PopStep(run: Program, store: Store, m: Machine, t: TxId, w': World)
    requires Good(run, store, m) && Inv(w') && Waiting(m.w, t) && TakesOff(m.w, t, w')
    requires t in m.w.s.inReady || t in m.w.s.inPruneReady
    requires w'.s.inReady + w'.s.inPruneReady == m.w.s.inReady + m.w.s.inPruneReady - {t}
    ensures Good(run, store, PopWorld(m, t, w'))
  {
    PopQuiet(m, t, w') by { assert Inv(m.w); }
    PopDispatched(m, t, w');
    hide Inv, Quiet, Recorded, Explained, Current, Settled, Respects, Dispatched;
    QuietKeeps(run, store, m, PopWorld(m, t, w'));
  }

  lemma PopsStep(run: Program, store: Store, m: Machine, e: Event)
    requires Good(run, store, m) && (e.PopsReady? || e.PopsPruneReady?)
    ensures Good(run, store, Step(run, m, e))
  {
    hide Rank, Recorded, Explained, Current, Settled, Respects, Dispatched, Shape, Queued, Counted, AtFront;
    if e.PopsReady? {
      PopReadyKeeps(m.w);
      if m.w.s.ready != [] {
        assert m.w.s.ready[0] in m.w.s.inReady;
        PopStep(run, store, m, m.w.s.ready[0], PoppedReady(m.w));
      }
    } else {
      PopPruneReadyKeeps(m.w);
      if m.w.s.pruneReady != [] {
        assert m.w.s.pruneReady[0] in m.w.s.inPruneReady;
        PopStep(run, store, m, m.w.s.pruneReady[0], PoppedPruneReady(m.w));
      }
    }
  }

  lemma ReadRecords(run: Program, m: Machine, t: TxId)
    requires Recorded(m) && Enabled(m, Reads(t))
    ensures Recorded(Step(run, m, Reads(t)))
  {
    hide DistinctIds, KeysOf;
  }

  lemma ReadCurrent(run: Program, m: Machine, t: TxId)
    requires Current(run, m) && Enabled(m, Reads(t))
    ensures Current(run, Step(run, m, Reads(t)))
  {
    var m' := Step(run, m, Reads(t));
    assert forall u :: u != t ==> (Validated(m', u) <==> Validated(m, u));
    hide Validated, Pruned, Ids;
  }

  lemma ReadStep(run: Program, store: Store, m: Machine, t: TxId)
    requires Good(run, store, m) && Enabled(m, Reads(t))
    ensures Good(run, store, Step(run, m, Reads(t)))
  {
    ReadRecords(run, m, t);
    ReadCurrent(run, m, t);
    hide Rank, Inv, Genuine, Final, Respects, Recorded, Current, Distinct, Holds;
  }

  // ------------------------------------------------------------ publishing

  /** In flight, a transaction heads the queue of every key it really touched. */
  lemma TouchedIsHeld(run: Program, m: Machine, t: TxId, k: Key)
    requires Inv(m.w) && Current(run, m) && t in m.w.flight && Validated(m, t) && k in m.seen[t].touched
    ensures Holds(m.w, t, k) && Front(m.w.s, k) == t
  {
    InFlightAlive(m.w, t);
    hide Rank, Queued, Counted, Lanes;
    assert k in Elements(KeysOf(m.w.s, t));
  }

  /** Everyone in a queue is ranked no earlier than its front. */
  lemma FrontIsFirst(w: World, t: TxId, k: Key, u: TxId)
    requires Inv(w) && Front(w.s, k) == t && t != NONE && Holds(w, u, k)
    ensures t in w.order && u in w.order && Rank(w.order, t) <= Rank(w.order, u)
  {
    hide Rank, Counted, Lanes, AtFront;
    var q := w.s.queues[k];
    assert u in q;
    assert t in q;
    var i :| 0 <= i < |q| && q[i] == u;
    assert Increasing(w.order, q);
  }

  lemma PublishSettles(run: Program, store: Store, m: Machine, t: TxId)
    requires Good(run, store, m) && Enabled(m, Publishes(t))
    ensures Settled(Step(run, m, Publishes(t)))
  {
    var m' := Step(run, m, Publishes(t));
    InFlightAlive(m.w, t);
    hide Rank, Inv, Explained, Recorded, Respects, Dispatched;
    forall e, k, u | e in m'.effects && k in e.out.touched && Holds(m'.w, u, k)
      ensures u in m'.w.order && e.tx in m'.w.order && Rank(m'.w.order, e.tx) <= Rank(m'.w.order, u)
    {
      assert Holds(m.w, u, k);
      if e !in m.effects {
        assert e == Entry(t, m.seen[t]);
        TouchedIsHeld(run, m, t, k);
        FrontIsFirst(m.w, t, k, u);
      }
    }
  }

  lemma {:induction false} RankInjective(order: seq<TxId>, a: TxId, b: TxId)
    requires a in order && b in order && a != b
    ensures Rank(order, a) != Rank(order, b)
  {
    assert order[Rank(order, a)] == a && order[Rank(order, b)] == b;
  }

  lemma PublishRespects(run: Program, store: Store, m: Machine, t: TxId)
    requires Good(run, store, m) && Enabled(m, Publishes(t))
    ensures Respects(Step(run, m, Publishes(t)).effects, m.w.order)
  {
    InFlightAlive(m.w, t);
    hide Rank, Inv, Explained, Dispatched, Distinct, Applied, Respects, Conflict, Settled, Current;
    forall x | x in m.effects && Conflict(x.out, m.seen[t])
      ensures x.tx in m.w.order && Rank(m.w.order, x.tx) < Rank(m.w.order, t)
    {
      assert x.tx in Ids(m.effects);
      SharedKey(run, m, t, x);
      RankInjective(m.w.order, x.tx, t);
    }
    RespectsAppend(m.effects, Entry(t, m.seen[t]), m.w.order);
  }

  lemma SharedKey(run: Program, m: Machine, t: TxId, x: Entry)
    requires Inv(m.w) && Current(run, m) && Settled(m) && Recorded(m) && Enabled(m, Publishes(t))
    requires x in m.effects && Conflict(x.out, m.seen[t])
    ensures t in m.w.order && x.tx in m.w.order && Rank(m.w.order, x.tx) <= Rank(m.w.order, t)
  {
    hide Rank, Inv;
    var k :| k in x.out.touched && k in m.seen[t].touched;
    TouchedIsHeld(run, m, t, k);
  }

  lemma PublishRecords(run: Program, m: Machine, t: TxId)
    requires Recorded(m) && Enabled(m, Publishes(t))
    ensures Recorded(Step(run, m, Publishes(t)))
  {
    hide Applied;
    var h, e := m.effects, Entry(t, m.seen[t]);
    assert forall i :: 0 <= i < |h| ==> h[i] in h && h[i].tx in Ids(h);
  }

  /** Nobody else's re-execution is disturbed: in flight, no two transactions
      touch a common key. */
  lemma PublishCurrent(run: Program, m: Machine, t: TxId)
    requires WellBehaved(run) && Inv(m.w) && Recorded(m) && Current(run, m) && Enabled(m, Publishes(t))
    ensures Current(run, Step(run, m, Publishes(t)))
  {
    var m' := Step(run, m, Publishes(t));
    var e := Entry(t, m.seen[t]);
    assert Ids(m'.effects) == Ids(m.effects) + {t} by {
      assert forall x :: x in m'.effects <==> x in m.effects || x == e;
      assert e in m'.effects;
    }
    assert forall u :: Validated(m', u) <==> Validated(m, u);
    hide Ids, Recorded;
    forall u | u in m'.w.flight && Validated(m', u) && u !in Ids(m'.effects)
      ensures run(u, m'.store) == m'.seen[u]
    {
      DisjointInFlight(run, m, t, u);
      AppliedOutside(m.store, m.seen[t].deltas, m.seen[u].touched);
      hide Applied, Inv;
      assert Agree(m.store, m'.store, run(u, m.store).touched);
    }
  }

  lemma DisjointInFlight(run: Program, m: Machine, t: TxId, u: TxId)
    requires Inv(m.w) && Recorded(m) && Current(run, m)
    requires t in m.w.flight && u in m.w.flight && t != u && Validated(m, t) && Validated(m, u)
    ensures m.seen[t].touched !! m.seen[u].touched
  {
    hide Inv;
    forall k | k in m.seen[t].touched ensures k !in m.seen[u].touched {
      TouchedIsHeld(run, m, t, k);
      if k in m.seen[u].touched {
        TouchedIsHeld(run, m, u, k);
      }
    }
  }

  lemma PublishesItsRun(run: Program, m: Machine, t: TxId)
    requires Current(run, m) && Enabled(m, Publishes(t))
    ensures run(t, m.store) == m.seen[t]
  {
    assert Validated(m, t);
  }

  lemma PublishStep(run: Program, store: Store, m: Machine, t: TxId)
    requires WellBehaved(run) && Good(run, store, m) && Enabled(m, Publishes(t))
    ensures Good(run, store, Step(run, m, Publishes(t)))
  {
    hide WellBehaved, Applied, Recorded, Current, Settled, Respects, Inv, Genuine, Final, Distinct, Ids;
    PublishRecords(run, m, t);
    PublishCurrent(run, m, t);
    PublishSettles(run, store, m, t);
    PublishRespects(run, store, m, t);
    PublishesItsRun(run, m, t);
    Append(run, store, m.effects, Entry(t, m.seen[t]));
  }

  // ---------------------------------------------------------------- adding

  lemma AddStep(run: Program, store: Store, m: Machine, t: TxId, keys: seq<Key>)
    requires Good(run, store, m) && Enabled(m, Adds(t, keys))
    ensures Good(run, store, Step(run, m, Adds(t, keys)))
  {
    var w' := Added(m.w, t, keys);
    AddKeeps(m.w, t, keys);
    AddGrows(m.w, t, keys);
    AddedTables(m.w, t, keys);
    FillingKeeps(m, w');
    AddRecords(run, m, t, keys);
    AddSettles(m, t, keys);
    AddRespects(m.effects, m.w.order, t);
    hide Inv, AddTransaction, Recorded, Current, Settled, Respects, Dispatched, Genuine, Final;
  }

  /** What `addTransaction` leaves alone. */
  lemma AddedTables(w: World, t: TxId, keys: seq<Key>)
    requires Inv(w) && t !in w.order && t != NONE
    ensures var w' := Added(w, t, keys);
            && (forall u :: u != t ==> KeysOf(w'.s, u) == KeysOf(w.s, u) && Pruned(w', u) == Pruned(w, u))
            && (forall u, k :: u != t ==> (Holds(w', u, k) <==> Holds(w, u, k)))
            && t !in w.flight && t !in w.gone
  {
    hide Rank, Queued, Counted, Lanes, AtFront, AddTransaction, Extended, Leads, QueueKeys, Distinct;
    AddedState(w, t, keys);
  }

  lemma AddRecords(run: Program, m: Machine, t: TxId, keys: seq<Key>)
    requires Inv(m.w) && Recorded(m) && Current(run, m) && Enabled(m, Adds(t, keys))
    ensures Recorded(Step(run, m, Adds(t, keys))) && Current(run, Step(run, m, Adds(t, keys)))
  {
    AddedTables(m.w, t, keys);
    hide Inv, AddTransaction, Newcomers, KeysOf, Pruned, DistinctIds, Holds;
    var m' := Step(run, m, Adds(t, keys));
    assert t !in m.seen;
    assert m'.w == Added(m.w, t, keys);
    SameForSeen(run, m, m');
  }

  lemma SameForSeen(run: Program, m: Machine, m': Machine)
    requires Recorded(m) && Current(run, m)
    requires m'.seen == m.seen && m'.effects == m.effects && m'.store == m.store
    requires m'.w.flight == m.w.flight && m'.w.gone == m.w.gone
    requires forall u :: u in m.seen || u in m.w.flight ==>
               KeysOf(m'.w.s, u) == KeysOf(m.w.s, u) && Pruned(m'.w, u) == Pruned(m.w, u)
    ensures Recorded(m') && Current(run, m')
  {
    hide KeysOf, Pruned, DistinctIds;
    assert forall u :: u in m.seen ==> (Validated(m', u) <==> Validated(m, u));
  }

  lemma AddSettles(m: Machine, t: TxId, keys: seq<Key>)
    requires Inv(m.w) && Settled(m) && Enabled(m, Adds(t, keys))
    ensures Settled(Filling(m, Added(m.w, t, keys)))
  {
    AddedTables(m.w, t, keys);
    var order, w' := m.w.order, Added(m.w, t, keys);
    hide Inv, AddTransaction, Newcomers, Rank;
    forall e, k, u | e in m.effects && k in e.out.touched && Holds(w', u, k)
      ensures Rank(w'.order, e.tx) <= Rank(w'.order, u)
    {
      RankAppend(order, t, e.tx);
      RankAppend(order, t, u);
      if u != t { assert Holds(m.w, u, k); }
    }
  }

  lemma AddRespects(h: seq<Entry>, order: seq<TxId>, t: TxId)
    requires Respects(h, order) && t !in order
    ensures Respects(h, order + [t])
  {
    hide Rank, Conflict;
    forall i, j | 0 <= i < j < |h| && Conflict(h[i].out, h[j].out)
      ensures Rank(order + [t], h[i].tx) < Rank(order + [t], h[j].tx)
    {
      assert h[i] in h && h[j] in h;
      RankAppend(order, t, h[i].tx);
      RankAppend(order, t, h[j].tx);
    }
  }

  // ---------------------------------------------------------- main results

  lemma StepKeeps(run: Program, store: Store, m: Machine, e: Event)
    requires WellBehaved(run) && Good(run, store, m) && Enabled(m, e)
    ensures Good(run, store, Step(run, m, e))
  {
    hide Good, WellBehaved;
    match e
    case Adds(t, keys) => AddStep(run, store, m, t, keys);
    case PopsReady => PopsStep(run, store, m, e);
    case PopsPruneReady => PopsStep(run, store, m, e);
    case Reads(t) => ReadStep(run, store, m, t);
    case Prunes(t, realKeys) => PruneStep(run, store, m, t, realKeys);
    case Publishes(t) => PublishStep(run, store, m, t);
    case Executes(t) => FinishStep(run, store, m, t, Ready);
    case Aborts(t) => FinishStep(run, store, m, t, PruneReady);
  }

  /** The global invariant holds in every reachable state. */
  lemma {:induction false} ReachedIsGood(run: Program, store: Store, es: seq<Event>, m: Machine)
    requires WellBehaved(run) && Reached(run, store, es, m)
    ensures Good(run, store, m)
    decreases |es|
  {
    if es == [] {
      InitialInv();
    } else {
      hide Good, WellBehaved, Enabled, Step;
      var n := |es| - 1;
      var p: Machine :| Reached(run, store, es[..n], p) && Enabled(p, es[n]) && m == Step(run, p, es[n]);
      ReachedIsGood(run, store, es[..n], p);
      StepKeeps(run, store, p, es[n]);
    }
  }
}

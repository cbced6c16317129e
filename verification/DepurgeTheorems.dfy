/**
 What every run of the Depurge protocol guarantees.
 */
module DepurgeTheorems {
  import opened Sequences
  import opened Deltas
  import opened Footprint
  import opened DepurgeModel
  import opened DepurgeInvariant
  import opened DepurgeSteps
  import opened DepurgeRuns

  /** The transactions in the order of their `addTransaction` calls. */
  ghost function AddOrder(es: seq<Event>): seq<TxId> {
    if es == [] then []
    else AddOrder(es[..|es| - 1]) + if es[|es| - 1].Adds? then [es[|es| - 1].t] else []
  }

  ghost function Executed(es: seq<Event>): set<TxId> {
    set e | e in es && e.Executes? :: e.t
  }

  ghost function Aborted(es: seq<Event>): set<TxId> {
    set e | e in es && e.Aborts? :: e.t
  }

  ghost predicate AllFinished(m: Machine) {
    forall t :: t in m.w.order ==> t in m.w.gone
  }

  // ---------------------------------------------------- serial equivalence

  /** At every moment of every run, the committed state is what the published
      transactions leave when run one at a time in insertion order. */
  lemma AlwaysSerial(run: Program, store: Store, es: seq<Event>, m: Machine)
    requires WellBehaved(run) && Reached(run, store, es, m)
    ensures m.store == Serial(run, store, Select(m.w.order, Ids(m.effects)))
  {
    hide WellBehaved, Reached, Genuine, Final, Serial, Select, Respects, Recorded;
    ReachedIsGood(run, store, es, m);
    assert DistinctIds(m.effects) by { RecordedDistinct(m); }
    assert Distinct(m.w.order) by { assert Shape(m.w); }
    SerialEquivalence(run, store, m.effects, m.w.order);
  }

  lemma RecordedDistinct(m: Machine)
    requires Recorded(m)
    ensures DistinctIds(m.effects)
  {
  }

  /** What is finished and published was executed; what is finished and not
      published was aborted. */
  ghost predicate Accounted(es: seq<Event>, m: Machine) {
    && m.w.order == AddOrder(es)
    && (forall t :: t in Executed(es) <==> t in m.w.gone && t in Ids(m.effects))
    && (forall t :: t in Aborted(es) <==> t in m.w.gone && t !in Ids(m.effects))
  }

  ghost predicate Finishes(e: Event) {
    e.Executes? || e.Aborts?
  }

  /** Who is popped by `e`, if anyone. */
  ghost function PoppedBy(m: Machine, e: Event): set<TxId> {
    if e.PopsReady? && m.w.s.ready != [] then {m.w.s.ready[0]}
    else if e.PopsPruneReady? && m.w.s.pruneReady != [] then {m.w.s.pruneReady[0]}
    else {}
  }

  /** What a step does to the history. */
  ghost predicate Changes(m: Machine, e: Event, m': Machine) {
    && m'.w.order == m.w.order + (if e.Adds? then [e.t] else [])
    && m'.w.gone == m.w.gone + (if Finishes(e) then {e.t} else {})
    && m'.w.flight == m.w.flight + PoppedBy(m, e) - (if Finishes(e) then {e.t} else {})
    && Ids(m'.effects) == Ids(m.effects) + (if e.Publishes? then {e.t} else {})
    && (e.Publishes? || Finishes(e) ==> e.t in m.w.flight && e.t !in m.w.gone)
    && (forall t :: t in PoppedBy(m, e) ==> Waiting(m.w, t))
    && (e.Executes? ==> e.t in Ids(m.effects))
    && (e.Aborts? ==> e.t !in Ids(m.effects))
  }

  lemma StepChanges(run: Program, m: Machine, e: Event)
    requires Inv(m.w) && Enabled(m, e)
    ensures Changes(m, e, Step(run, m, e))
  {
    hide Inv, Ids, Waiting, AddTransaction, Finish, PruneAll, Newcomers, Applied, PopReady, PopPruneReady;
    if e.Publishes? { PublishedIds(m, e.t); }
    ActorIsAlive(m, e);
    if e.PopsReady? { PopReadyKeeps(m.w); }
    if e.PopsPruneReady? { PopPruneReadyKeeps(m.w); }
  }

  lemma ActorIsAlive(m: Machine, e: Event)
    requires Inv(m.w) && Enabled(m, e)
    ensures e.Publishes? || Finishes(e) ==> e.t in m.w.flight && e.t !in m.w.gone
  {
    if e.Publishes? || Finishes(e) { InFlightAlive(m.w, e.t); }
  }

  lemma ChangesAccount(es: seq<Event>, p: Machine, e: Event, m: Machine)
    requires Changes(p, e, m) && Accounted(es, p)
    ensures Accounted(es + [e], m)
  {
    AddOrderAppend(es, e);
    ExecutedAppend(es, e);
    hide AddOrder, Executed, Aborted, Ids, PoppedBy, Waiting;
  }

  lemma ExecutedAppend(es: seq<Event>, e: Event)
    ensures Executed(es + [e]) == Executed(es) + (if e.Executes? then {e.t} else {})
    ensures Aborted(es + [e]) == Aborted(es) + (if e.Aborts? then {e.t} else {})
  {
    assert forall x :: x in es + [e] <==> x in es || x == e;
  }

  lemma PublishedIds(p: Machine, t: TxId)
    requires t in p.seen
    ensures Ids(p.effects + [Entry(t, p.seen[t])]) == Ids(p.effects) + {t}
  {
    var e := Entry(t, p.seen[t]);
    assert e in p.effects + [e];
  }

  lemma AddOrderAppend(es: seq<Event>, e: Event)
    ensures AddOrder(es + [e]) == AddOrder(es) + if e.Adds? then [e.t] else []
  {
    assert (es + [e])[..|es|] == es;
  }

  lemma {:induction false} ReachedIsAccounted(run: Program, store: Store, es: seq<Event>, m: Machine)
    requires WellBehaved(run) && Reached(run, store, es, m)
    ensures Accounted(es, m)
    decreases |es|
  {
    hide Good, WellBehaved, Enabled, Step, Accounted, Changes, Start, Inv;
    if es == [] {
      NothingAccounted(store);
    } else {
      var n := |es| - 1;
      var p: Machine :| Reached(run, store, es[..n], p) && Enabled(p, es[n]) && m == Step(run, p, es[n]);
      ReachedIsAccounted(run, store, es[..n], p);
      ReachedIsInv(run, store, es[..n], p);
      StepChanges(run, p, es[n]);
      ChangesAccount(es[..n], p, es[n], m);
      assert es == es[..n] + [es[n]];
    }
  }

  lemma NothingAccounted(store: Store)
    ensures Accounted([], Start(store))
  {
  }

  lemma ReachedIsInv(run: Program, store: Store, es: seq<Event>, m: Machine)
    requires WellBehaved(run) && Reached(run, store, es, m)
    ensures Inv(m.w)
  {
    hide Inv;
    ReachedIsGood(run, store, es, m);
  }

  /** Serial equivalence of Depurge: however the workers' steps interleave, once
      everything is finished the committed state is the one that running the
      executed transactions one at a time, in the order they were added, leaves. */
  lemma DepurgeIsSerial(run: Program, store: Store, es: seq<Event>, m: Machine)
    requires WellBehaved(run) && Reached(run, store, es, m) && AllFinished(m)
    ensures m.store == Serial(run, store, Select(AddOrder(es), Executed(es)))
  {
    hide Serial, Select, WellBehaved, Reached, Ids;
    AlwaysSerial(run, store, es, m);
    FinishedAreExecuted(run, store, es, m);
  }

  lemma FinishedAreExecuted(run: Program, store: Store, es: seq<Event>, m: Machine)
    requires WellBehaved(run) && Reached(run, store, es, m) && AllFinished(m)
    ensures Ids(m.effects) == Executed(es) && m.w.order == AddOrder(es)
  {
    hide WellBehaved, Reached, Explained, Respects, Dispatched, Current;
    ReachedIsAccounted(run, store, es, m);
    ReachedIsGood(run, store, es, m);
    forall t | t in Ids(m.effects) ensures t in m.w.gone {
      assert t in m.w.order;
    }
    assert Ids(m.effects) == Executed(es);
  }

  // ------------------------------------------------------ mutual exclusion

  ghost predicate Dispatchable(w: World, t: TxId) {
    t in w.s.inReady || t in w.s.inPruneReady || t in w.flight
  }

  /** No two ready or in-flight transactions hold a common key. */
  lemma MutualExclusion(w: World, t: TxId, u: TxId, k: Key)
    requires Inv(w) && Dispatchable(w, t) && Dispatchable(w, u) && t != u
    ensures !(Holds(w, t, k) && Holds(w, u, k))
  {
    if Holds(w, t, k) && Holds(w, u, k) {
      DispatchableHeads(w, t, k);
      DispatchableHeads(w, u, k);
    }
  }

  lemma DispatchableHeads(w: World, t: TxId, k: Key)
    requires Inv(w) && Dispatchable(w, t) && Holds(w, t, k)
    ensures Front(w.s, k) == t
  {
    hide Rank, Queued;
    if t !in w.flight {
      assert t in w.s.inReady + w.s.inPruneReady;
      ReadyHeads(w, t);
    }
  }

  // -------------------------------------------------------------- progress

  /** The unfinished transaction that was added first. */
  lemma {:induction false} EarliestUnfinished(order: seq<TxId>, gone: set<TxId>) returns (t: TxId)
    requires exists u :: u in order && u !in gone
    ensures t in order && t !in gone
    ensures forall u :: u in order && u !in gone ==> Rank(order, t) <= Rank(order, u)
  {
    if order[0] !in gone {
      t := order[0];
    } else {
      var u :| u in order && u !in gone;
      assert order == [order[0]] + order[1..] && u in order[1..];
      t := EarliestUnfinished(order[1..], gone);
    }
  }

  /** The earliest unfinished transaction is never stuck. */
  lemma EarliestIsDispatchable(w: World, t: TxId)
    requires Inv(w) && t in w.order && t !in w.gone
    requires forall u :: u in w.order && u !in w.gone ==> Rank(w.order, t) <= Rank(w.order, u)
    ensures Dispatchable(w, t)
  {
    hide Rank;
    if t !in w.flight {
      forall k | k in KeysOf(w.s, t) ensures Front(w.s, k) == t {
        WaitingHolds(w, t, k);
        HeadsIfFirst(w, t, k);
      }
      assert Behind(w.s, t) == {};
      assert CountOf(w.s, t) == 0;
      assert t in w.s.inReady + w.s.inPruneReady;
    }
  }

  lemma HeadsIfFirst(w: World, t: TxId, k: Key)
    requires Inv(w) && Holds(w, t, k)
    requires forall u :: u in w.order && u !in w.gone ==> Rank(w.order, t) <= Rank(w.order, u)
    ensures Front(w.s, k) == t
  {
    hide Rank, Counted, AtFront, Lanes;
    var q := w.s.queues[k];
    assert t in q;
    var i :| 0 <= i < |q| && q[i] == t;
    assert q[0] in q && Holds(w, q[0], k);
    assert Increasing(w.order, q);
  }

  /** Progress: while something is unfinished, some transaction is ready, ready
      after pruning, or in flight. */
  lemma Progress(w: World)
    requires Inv(w) && exists t :: t in w.order && t !in w.gone
    ensures w.s.ready != [] || w.s.pruneReady != [] || w.flight != {}
  {
    var t := EarliestUnfinished(w.order, w.gone);
    EarliestIsDispatchable(w, t);
    hide Rank, Shape, Queued, Counted, AtFront;
    assert t in w.s.inReady ==> t in w.s.ready;
    assert t in w.s.inPruneReady ==> t in w.s.pruneReady;
  }

  /** A step that pops or finishes a transaction. */
  ghost predicate Effective(m: Machine, e: Event) {
    Finishes(e) || PoppedBy(m, e) != {}
  }

  /** No worker can pop or finish anything: the run can go no further. */
  ghost predicate Stuck(m: Machine) {
    forall e :: Enabled(m, e) && !e.Adds? ==> !Effective(m, e)
  }

  /** Whatever is in flight can be executed or aborted, whatever is ready popped. */
  lemma StuckIsIdle(m: Machine)
    requires Stuck(m)
    ensures m.w.s.ready == [] && m.w.s.pruneReady == [] && m.w.flight == {}
  {
    hide Ids;
    assert Enabled(m, PopsReady) && Enabled(m, PopsPruneReady);
    assert !Effective(m, PopsReady) && !Effective(m, PopsPruneReady);
    forall t ensures t !in m.w.flight {
      var e := if t in Ids(m.effects) then Executes(t) else Aborts(t);
      assert t in m.w.flight ==> Enabled(m, e);
    }
  }

  /** A run that can go no further has finished every transaction, each having entered
      a lane once and been popped once, and the committed state is the serial
      execution of the executed ones in the order they were added. */
  lemma MaximalRunFinishesAll(run: Program, store: Store, es: seq<Event>, m: Machine)
    requires WellBehaved(run) && Reached(run, store, es, m) && Stuck(m)
    ensures AllFinished(m) && m.store == Serial(run, store, Select(AddOrder(es), Executed(es)))
    ensures multiset(m.popped) == multiset(m.w.order) && multiset(m.entered) == multiset(m.w.order)
  {
    hide WellBehaved, Reached, Recorded, Explained, Current, Settled, Respects, Stuck, Serial, Select, Core;
    StuckIsIdle(m);
    ReachedIsGood(run, store, es, m);
    if !AllFinished(m) {
      Progress(m.w);
    }
    DepurgeIsSerial(run, store, es, m);
    LanesEmpty(m.w);
    EverybodyGone(m);
    SameElements(m.popped, m.w.order);
    SameElements(m.entered, m.w.order);
  }

  lemma EverybodyGone(m: Machine)
    requires Inv(m.w) && AllFinished(m)
    ensures Distinct(m.w.order) && forall t :: t in m.w.gone <==> t in m.w.order
  {
    hide Queued, Counted, AtFront, Lanes;
  }

  lemma LanesEmpty(w: World)
    requires Inv(w) && w.s.ready == [] && w.s.pruneReady == []
    ensures w.s.inReady == {} && w.s.inPruneReady == {}
  {
    hide Shape, Queued, Counted, AtFront;
    assert forall t :: t !in w.s.inReady && t !in w.s.inPruneReady;
  }

  lemma {:induction false} SameElements(a: seq<TxId>, b: seq<TxId>)
    requires Distinct(a) && Distinct(b) && forall x :: x in a <==> x in b
    ensures multiset(a) == multiset(b)
  {
    forall x ensures multiset(a)[x] == multiset(b)[x] {
      CountDistinct(a, x);
      CountDistinct(b, x);
    }
  }

  lemma {:induction false} CountDistinct(a: seq<TxId>, x: TxId)
    requires Distinct(a)
    ensures multiset(a)[x] == if x in a then 1 else 0
  {
    if a != [] {
      assert a == [a[0]] + a[1..];
      CountDistinct(a[1..], x);
    }
  }

  // ------------------------------------------------------------ termination

  ghost function Pending(w: World): set<TxId> {
    set t | t in w.order && t !in w.flight && t !in w.gone
  }

  /** Two steps for each transaction not popped yet, one for each in flight. */
  ghost function Potential(w: World): nat {
    2 * |Pending(w)| + |w.flight|
  }

  /** Pops and finishes use up the potential; nothing but adding restores it. */
  lemma PotentialFalls(run: Program, m: Machine, e: Event)
    requires Inv(m.w) && Enabled(m, e) && !e.Adds?
    ensures Potential(Step(run, m, e).w) == Potential(m.w) - if Effective(m, e) then 1 else 0
  {
    hide Step, Inv, Enabled, Ids, Potential;
    StepChanges(run, m, e);
    ChangesPotential(m, e, Step(run, m, e));
  }

  lemma ChangesPotential(m: Machine, e: Event, m': Machine)
    requires Changes(m, e, m') && !e.Adds?
    ensures Potential(m'.w) == Potential(m.w) - if Effective(m, e) then 1 else 0
  {
    hide Ids, Potential;
    var w, w' := m.w, m'.w;
    assert w'.order == w.order;
    if Finishes(e) {
      PendingAfter(w, w', {}, {e.t});
      ChangedSize(w, w', {}, {e.t});
    } else {
      var out := PoppedBy(m, e);
      assert |out| == if out == {} then 0 else 1;
      hide PoppedBy;
      PendingAfter(w, w', out, {});
      ChangedSize(w, w', out, {});
    }
  }

  lemma PendingAfter(w: World, w': World, out: set<TxId>, off: set<TxId>)
    requires forall t :: t in out ==> Waiting(w, t)
    requires forall t :: t in off ==> t in w.flight && t !in w.gone
    requires w'.order == w.order && w'.gone == w.gone + off && w'.flight == w.flight + out - off
    ensures out <= Pending(w) && Pending(w') == Pending(w) - out && out !! w.flight
  {
  }

  lemma ChangedSize(w: World, w': World, out: set<TxId>, off: set<TxId>)
    requires out <= Pending(w) && Pending(w') == Pending(w) - out
    requires off <= w.flight && out !! w.flight && w'.flight == w.flight + out - off
    ensures Potential(w') == Potential(w) - |out| - |off|
  {
    hide Pending;
    assert |Pending(w) - out| == |Pending(w)| - |out|;
    assert |w.flight + out| == |w.flight| + |out|;
    assert |w.flight + out - off| == |w.flight + out| - |off|;
  }

  lemma AddRestores(run: Program, m: Machine, e: Event)
    requires Inv(m.w) && Enabled(m, e) && e.Adds?
    ensures Potential(Step(run, m, e).w) == Potential(m.w) + 2
  {
    hide Step, Inv, Ids, Core;
    StepChanges(run, m, e);
    var w, w' := m.w, Step(run, m, e).w;
    NewIsNobody(w, e.t);
    assert Pending(w') == Pending(w) + {e.t};
  }

  lemma NewIsNobody(w: World, t: TxId)
    requires Inv(w) && t !in w.order
    ensures t !in w.flight && t !in w.gone
  {
    hide Queued, Counted, AtFront, Lanes;
  }

  /** `m` is where `es` leads, and `n` of its steps popped or finished something. */
  ghost predicate ReachedIn(run: Program, store: Store, es: seq<Event>, m: Machine, n: nat)
    decreases |es|
  {
    if es == [] then m == Start(store) && n == 0
    else
      var last := |es| - 1;
      exists p: Machine, k: nat ::
        && ReachedIn(run, store, es[..last], p, k) && Enabled(p, es[last]) && m == Step(run, p, es[last])
        && n == k + if Effective(p, es[last]) then 1 else 0
  }

  /** Every run has such a number. */
  lemma {:induction false} CountSteps(run: Program, store: Store, es: seq<Event>, m: Machine) returns (n: nat)
    requires Reached(run, store, es, m)
    ensures ReachedIn(run, store, es, m, n)
    decreases |es|
  {
    hide Enabled, Step, Effective, Start;
    if es == [] {
      n := 0;
    } else {
      var last := |es| - 1;
      var p: Machine :| Reached(run, store, es[..last], p) && Enabled(p, es[last]) && m == Step(run, p, es[last]);
      var k := CountSteps(run, store, es[..last], p);
      n := k + if Effective(p, es[last]) then 1 else 0;
    }
  }

  /** In every run the steps that pop or finish, and those still to come, are two for
      each transaction added. */
  lemma {:induction false} StepsAreBounded(run: Program, store: Store, es: seq<Event>, m: Machine, n: nat)
    requires WellBehaved(run) && ReachedIn(run, store, es, m, n)
    ensures Reached(run, store, es, m) && n + Potential(m.w) == 2 * |AddOrder(es)|
    decreases |es|
  {
    hide WellBehaved, Enabled, Step, Effective, Potential, Start;
    if es == [] {
      NothingPending(store);
    } else {
      var last := |es| - 1;
      var p: Machine, k: nat :| ReachedIn(run, store, es[..last], p, k) && Enabled(p, es[last]) && m == Step(run, p, es[last])
                                && n == k + if Effective(p, es[last]) then 1 else 0;
      StepsAreBounded(run, store, es[..last], p, k);
      ReachedIsInv(run, store, es[..last], p);
      if es[last].Adds? {
        AddRestores(run, p, es[last]);
        AddIsIdle(p, es[last]);
      } else {
        PotentialFalls(run, p, es[last]);
      }
    }
  }

  lemma AddIsIdle(m: Machine, e: Event)
    requires e.Adds?
    ensures !Effective(m, e)
  {
  }

  lemma NothingPending(store: Store)
    ensures Potential(Start(store).w) == 0
  {
  }

  /** Runs end: no run has more than two such steps for each transaction added, and
      one that can go no further has exactly two. */
  lemma RunsEnd(run: Program, store: Store, es: seq<Event>, m: Machine, n: nat)
    requires WellBehaved(run) && ReachedIn(run, store, es, m, n)
    ensures n <= 2 * |AddOrder(es)| && (Stuck(m) ==> n == 2 * |AddOrder(es)|)
  {
    hide WellBehaved, ReachedIn, Reached, Stuck, Serial, Select;
    StepsAreBounded(run, store, es, m, n);
    if Stuck(m) {
      MaximalRunFinishesAll(run, store, es, m);
      StuckIsIdle(m);
      assert Pending(m.w) == {};
    }
  }

  /** In that serial run every executed transaction has the outcome it was published
      with, so none of them fails. */
  lemma SameOutcomes(run: Program, store: Store, es: seq<Event>, m: Machine, i: nat)
    requires WellBehaved(run) && Reached(run, store, es, m) && AllFinished(m)
    requires i < |Select(AddOrder(es), Executed(es))|
    ensures
      var txs := Select(AddOrder(es), Executed(es));
      var out := run(txs[i], Serial(run, store, txs[..i]));
      Entry(txs[i], out) in m.effects && !out.failed
  {
    hide Serial, Select, WellBehaved, Reached, Respects, Dispatched, Current, Genuine, Final, Ids, Inv;
    ReachedIsGood(run, store, es, m);
    FinishedAreExecuted(run, store, es, m);
    assert DistinctIds(m.effects) by { RecordedDistinct(m); }
    assert Distinct(m.w.order) by { OrderIsDistinct(m.w); }
    SerialOutcomes(run, store, m.effects, m.w.order, i);
  }

  lemma OrderIsDistinct(w: World)
    requires Inv(w)
    ensures Distinct(w.order)
  {
    hide Queued, Counted, AtFront, Lanes;
  }
}

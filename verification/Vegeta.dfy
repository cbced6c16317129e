/**
 Vegeta batch replay: a conflict graph over an order of the transactions, and
 batches of ready ones replayed in parallel with a barrier between batches.
 */
module Vegeta {
  import opened Sequences
  import opened Deltas
  import opened Footprint
  import opened Sorting
  import D = Depths

  // ------------------------------------------------------------- ordering

  /** Appends the transactions of a chain that have a context and are new. */
  method AppendChain(chain: seq<TxId>, contexts: set<TxId>, ordered: seq<TxId>, ghost before: seq<TxId>)
    returns (r: seq<TxId>)
    requires Distinct(ordered) && ByFirst(before, ordered)
    requires forall t :: t in ordered <==> t in before && t in contexts
    ensures Distinct(r) && ByFirst(before + chain, r)
    ensures forall t :: t in r <==> t in before + chain && t in contexts
  {
    hide ByFirst;
    r := ordered;
    assert before + chain[..0] == before;
    for i := 0 to |chain|
      invariant Distinct(r) && ByFirst(before + chain[..i], r)
      invariant forall t :: t in r <==> t in before + chain[..i] && t in contexts
    {
      assert before + chain[..i + 1] == before + chain[..i] + [chain[i]];
      ByFirstMore(before + chain[..i], r, chain[i]);
      if chain[i] !in r && chain[i] in contexts {
        r := r + [chain[i]];
      }
    }
    assert chain[..|chain|] == chain;
  }

  /** The first `n` are the members of chains, in chain order, chains as given; the
      rest stands in no chain. */
  ghost predicate ChainsFirst(chains: seq<seq<TxId>>, ordered: seq<TxId>, n: nat) {
    && n <= |ordered| && ByFirst(Flatten(chains), ordered[..n])
    && (forall t :: t in ordered[n..] ==> t !in Flatten(chains))
  }

  /** Chains first, in the order given, then whatever is left: every transaction with
      a context is ordered exactly once. */
  method OrderTransactions(chains: seq<seq<TxId>>, contexts: set<TxId>) returns (ordered: seq<TxId>)
    ensures Distinct(ordered) && forall t :: t in ordered <==> t in contexts
    ensures exists n :: ChainsFirst(chains, ordered, n)
  {
    hide ByFirst;
    ordered := [];
    NothingFirst();
    for i := 0 to |chains|
      invariant Distinct(ordered) && ByFirst(Flatten(chains[..i]), ordered)
      invariant forall t :: t in ordered <==> t in Flatten(chains[..i]) && t in contexts
    {
      FlattenMore(chains, i);
      ordered := AppendChain(chains[i], contexts, ordered, Flatten(chains[..i]));
    }
    assert chains[..|chains|] == chains;
    ghost var first := ordered;
    assert first + [] == first;
    ghost var rest: seq<TxId> := [];
    var left := set t | t in contexts && t !in ordered;
    while left != {}
      invariant Distinct(ordered) && ordered == first + rest && forall t :: t in rest ==> t !in Flatten(chains)
      invariant forall t :: t in left <==> t in contexts && t !in ordered
      invariant forall t :: t in ordered ==> t in contexts
      decreases left
    {
      var t :| t in left;
      assert t !in Flatten(chains);
      ordered, left := ordered + [t], left - {t};
      rest := rest + [t];
    }
    assert ordered[..|first|] == first && ordered[|first|..] == rest;
    assert ChainsFirst(chains, ordered, |first|);
  }

  lemma NothingFirst()
    ensures ByFirst<TxId>([], [])
  {
  }

  // ------------------------------------------------------------------ DAG

  /** Each transaction waits for exactly the earlier ones it conflicts with. */
  ghost predicate IsDag(spec: Speculation, ordered: seq<TxId>, dag: map<TxId, seq<TxId>>) {
    && (forall t :: t in dag <==> t in ordered)
    && (forall i, p :: 0 <= i < |ordered| && ordered[i] in dag ==>
          (p in dag[ordered[i]] <==> p in ordered[..i] && spec.Conflicting(ordered[i], p)))
  }

  method Predecessors(spec: Speculation, ordered: seq<TxId>, i: nat) returns (preds: seq<TxId>)
    requires i < |ordered|
    ensures forall p :: p in preds <==> p in ordered[..i] && spec.Conflicting(ordered[i], p)
  {
    preds := [];
    for j := 0 to i
      invariant forall p :: p in preds <==> p in ordered[..j] && spec.Conflicting(ordered[i], p)
    {
      assert ordered[..j + 1] == ordered[..j] + [ordered[j]];
      if spec.Conflicting(ordered[i], ordered[j]) {
        preds := preds + [ordered[j]];
      }
    }
  }

  method BuildDag(spec: Speculation, ordered: seq<TxId>) returns (dag: map<TxId, seq<TxId>>)
    requires Distinct(ordered)
    ensures IsDag(spec, ordered, dag)
  {
    hide Speculation.Conflicting;
    dag := map[];
    for i := 0 to |ordered|
      invariant forall t :: t in dag <==> t in ordered[..i]
      invariant forall a, p :: 0 <= a < i ==>
                  (p in dag[ordered[a]] <==> p in ordered[..a] && spec.Conflicting(ordered[a], p))
    {
      assert ordered[..i + 1] == ordered[..i] + [ordered[i]];
      var preds := Predecessors(spec, ordered, i);
      dag := dag[ordered[i] := preds];
    }
    assert ordered[..|ordered|] == ordered;
  }

  // -------------------------------------------------------------- batches

  /** Everything a processed transaction had to wait for is processed. */
  ghost predicate Closed(dag: map<TxId, seq<TxId>>, executed: set<TxId>) {
    forall t, p :: t in executed && t in dag && p in dag[t] ==> p in executed
  }

  ghost predicate Ready(dag: map<TxId, seq<TxId>>, executed: set<TxId>, t: TxId) {
    t in dag && forall p :: p in dag[t] ==> p in executed
  }

  method ReadyBatch(dag: map<TxId, seq<TxId>>, executed: set<TxId>, remaining: set<TxId>) returns (batch: seq<TxId>)
    requires forall t :: t in remaining ==> t in dag
    ensures Distinct(batch) && Alphabetical(batch)
    ensures forall t :: t in batch <==> t in remaining && Ready(dag, executed, t)
  {
    batch := [];
    var todo := remaining;
    while todo != {}
      invariant todo <= remaining && Distinct(batch)
      invariant forall t :: t in batch <==> t in remaining && t !in todo && Ready(dag, executed, t)
      decreases todo
    {
      var t :| t in todo;
      var ready := forall p | p in dag[t] :: p in executed;
      if ready {
        batch := batch + [t];
      }
      todo := todo - {t};
    }
    StringOrder();
    SortKeeps(StringLe, batch);
    batch := SortStrings(batch);
  }

  /** The earliest remaining transaction is always ready. */
  lemma EarliestIsReady(spec: Speculation, ordered: seq<TxId>, dag: map<TxId, seq<TxId>>, executed: set<TxId>, i: nat)
    requires IsDag(spec, ordered, dag) && i < |ordered|
    requires forall t :: t in ordered[..i] ==> t in executed
    ensures Ready(dag, executed, ordered[i])
  {
    hide Speculation.Conflicting;
    assert ordered[i] in ordered;
  }

  /** Two transactions of one batch do not conflict. */
  lemma BatchIsConflictFree(spec: Speculation, ordered: seq<TxId>, dag: map<TxId, seq<TxId>>, executed: set<TxId>, t: TxId, u: TxId)
    requires IsDag(spec, ordered, dag) && Distinct(ordered) && t != u
    requires t in ordered && u in ordered && t !in executed && u !in executed
    requires Ready(dag, executed, t) && Ready(dag, executed, u)
    ensures !spec.Conflicting(t, u)
  {
    hide Speculation.Conflicting;
    var i, j := Rank(ordered, t), Rank(ordered, u);
    ConflictingSymmetric(spec, t, u);
    if i < j {
      assert ordered[i] == t && t in ordered[..j];
      assert ordered[j] == u;
    } else {
      assert i != j;
      assert ordered[j] == u && u in ordered[..i];
      assert ordered[i] == t;
    }
  }

  lemma ConflictingSymmetric(spec: Speculation, t: TxId, u: TxId)
    ensures spec.Conflicting(t, u) <==> spec.Conflicting(u, t)
  {
    assert spec.Writes(t) * spec.Writes(u) == spec.Writes(u) * spec.Writes(t);
    assert spec.Writes(t) * spec.Reads(u) == spec.Reads(u) * spec.Writes(t);
    assert spec.Reads(t) * spec.Writes(u) == spec.Writes(u) * spec.Reads(t);
  }

  // ------------------------------------------------------- which batch

  /** A transaction waits for the earlier ones it conflicts with. */
  ghost function Waits(spec: Speculation, ordered: seq<TxId>): D.Relation {
    (a: nat, i: nat) => a < |ordered| && i < |ordered| && spec.Conflicting(ordered[i], ordered[a])
  }

  /** Every earlier transaction that the `i`-th conflicts with is in `done`. */
  ghost predicate Free(spec: Speculation, ordered: seq<TxId>, done: set<TxId>, i: nat)
    requires i < |ordered|
  {
    forall a :: 0 <= a < i && spec.Conflicting(ordered[i], ordered[a]) ==> ordered[a] in done
  }

  ghost function United(batches: seq<set<TxId>>): set<TxId> {
    if batches == [] then {} else United(batches[..|batches| - 1]) + batches[|batches| - 1]
  }

  /** Each batch holds everything that is left and free after the batches before it. */
  ghost predicate AreMaximal(spec: Speculation, ordered: seq<TxId>, batches: seq<set<TxId>>) {
    forall n, i :: 0 <= n < |batches| && 0 <= i < |ordered| ==>
                     var done := United(batches[..n]);
                     ordered[i] in batches[n] <==> ordered[i] !in done && Free(spec, ordered, done, i)
  }

  /** The number of a transaction's batch is the length of its longest chain of earlier
      conflicting ones. */
  ghost predicate ByDepth(spec: Speculation, ordered: seq<TxId>, batches: seq<set<TxId>>) {
    forall n, i :: 0 <= n < |batches| && 0 <= i < |ordered| ==>
                     (ordered[i] in batches[n] <==> D.Depth(Waits(spec, ordered), i) == n)
  }

  /** What is done after some batches are the transactions of smaller depth. */
  lemma {:induction false} DoneByDepth(spec: Speculation, ordered: seq<TxId>, batches: seq<set<TxId>>, n: nat, i: nat)
    requires AreMaximal(spec, ordered, batches) && n <= |batches| && i < |ordered|
    ensures ordered[i] in United(batches[..n]) <==> D.Depth(Waits(spec, ordered), i) < n
    decreases n, 0
  {
    hide Speculation.Conflicting, D.Depth;
    if n > 0 {
      assert batches[..n][..n - 1] == batches[..n - 1];
      DoneByDepth(spec, ordered, batches, n - 1, i);
      if ordered[i] !in United(batches[..n - 1]) {
        FreeIsDepth(spec, ordered, batches, n - 1, i);
      }
    }
  }

  /** Among what is left, the free ones are those of the next depth. */
  lemma FreeIsDepth(spec: Speculation, ordered: seq<TxId>, batches: seq<set<TxId>>, n: nat, i: nat)
    requires AreMaximal(spec, ordered, batches) && n <= |batches| && i < |ordered| && ordered[i] !in United(batches[..n])
    ensures Free(spec, ordered, United(batches[..n]), i) <==> D.Depth(Waits(spec, ordered), i) == n
    decreases n, 1
  {
    hide Speculation.Conflicting, D.Depth, AreMaximal;
    var r, done := Waits(spec, ordered), United(batches[..n]);
    assert !(D.Depth(r, i) < n) by { DoneByDepth(spec, ordered, batches, n, i); }
    if Free(spec, ordered, done, i) && D.Depth(r, i) > n {
      var a := D.Reached(r, i);
      DoneByDepth(spec, ordered, batches, n, a);
    }
    if D.Depth(r, i) == n {
      forall a | 0 <= a < i && spec.Conflicting(ordered[i], ordered[a]) ensures ordered[a] in done {
        D.Deepens(r, a, i);
        DoneByDepth(spec, ordered, batches, n, a);
      }
    }
  }

  lemma MaximalIsByDepth(spec: Speculation, ordered: seq<TxId>, batches: seq<set<TxId>>)
    requires AreMaximal(spec, ordered, batches)
    ensures ByDepth(spec, ordered, batches)
  {
    hide Speculation.Conflicting, D.Depth, Free;
    forall n, i | 0 <= n < |batches| && 0 <= i < |ordered|
      ensures ordered[i] in batches[n] <==> D.Depth(Waits(spec, ordered), i) == n
    {
      DoneByDepth(spec, ordered, batches, n, i);
      if ordered[i] !in United(batches[..n]) {
        FreeIsDepth(spec, ordered, batches, n, i);
      }
    }
  }

  /** No batching that puts conflicting transactions in later batches, in order, puts
      anyone earlier. */
  lemma NoBatchingIsShorter(spec: Speculation, ordered: seq<TxId>, batches: seq<set<TxId>>, other: seq<nat>, n: nat, i: nat)
    requires ByDepth(spec, ordered, batches) && |other| == |ordered| && i < |ordered| && n < |batches| && ordered[i] in batches[n]
    requires forall a, b :: 0 <= a < b < |ordered| && spec.Conflicting(ordered[b], ordered[a]) ==> other[a] < other[b]
    ensures n <= other[i]
  {
    hide Speculation.Conflicting, D.Depth;
    D.NoLevellingIsShorter(Waits(spec, ordered), other, i);
  }

  lemma MaximalNext(spec: Speculation, ordered: seq<TxId>, dag: map<TxId, seq<TxId>>, batches: seq<set<TxId>>,
                    executed: set<TxId>, ids: set<TxId>)
    requires IsDag(spec, ordered, dag) && AreMaximal(spec, ordered, batches) && United(batches) == executed
    requires forall t :: t in ids <==> t in ordered && t !in executed && Ready(dag, executed, t)
    ensures AreMaximal(spec, ordered, batches + [ids]) && United(batches + [ids]) == executed + ids
  {
    hide Speculation.Conflicting, Ready, IsDag;
    var more := batches + [ids];
    assert more[..|batches|] == batches;
    forall n, i | 0 <= n < |more| && 0 <= i < |ordered|
      ensures ordered[i] in more[n] <==> ordered[i] !in United(more[..n]) && Free(spec, ordered, United(more[..n]), i)
    {
      if n < |batches| {
        assert more[..n] == batches[..n];
      } else {
        assert ordered[i] in ordered;
        ReadyIsFree(spec, ordered, dag, executed, i);
      }
    }
  }

  lemma ReadyIsFree(spec: Speculation, ordered: seq<TxId>, dag: map<TxId, seq<TxId>>, done: set<TxId>, i: nat)
    requires IsDag(spec, ordered, dag) && i < |ordered|
    ensures Ready(dag, done, ordered[i]) <==> Free(spec, ordered, done, i)
  {
    hide Speculation.Conflicting;
    var t := ordered[i];
    assert t in ordered && t in dag;
    forall a | 0 <= a < i ensures spec.Conflicting(t, ordered[a]) <==> ordered[a] in dag[t] {
      assert ordered[a] in ordered[..i];
    }
    forall p | p in dag[t] ensures exists a :: 0 <= a < i && ordered[a] == p {
      assert p in ordered[..i];
    }
  }

  // --------------------------------------------------------------- replay

  /** The match test: the real sets stay within the predicted ones. */
  predicate Matches(spec: Speculation, t: TxId, out: Outcome) {
    out.readKeys <= spec.Reads(t) && out.deltas.Keys <= spec.Writes(t)
  }

  /** Some key read or written was not predicted so. */
  ghost predicate Strays(spec: Speculation, t: TxId, out: Outcome) {
    exists k :: (k in out.readKeys && k !in spec.Reads(t)) || (k in out.deltas && k !in spec.Writes(t))
  }

  /** The match test, key by key. */
  method MatchTest(spec: Speculation, t: TxId, out: Outcome) returns (ok: bool)
    ensures ok <==> Matches(spec, t, out)
    ensures ok <==> !Strays(spec, t, out)
  {
    ok := true;
    var toRead := out.readKeys;
    while toRead != {} && ok
      invariant toRead <= out.readKeys
      invariant ok ==> forall k :: k in out.readKeys && k !in toRead ==> k in spec.Reads(t)
      invariant !ok ==> Strays(spec, t, out)
      decreases toRead
    {
      var k :| k in toRead;
      ok, toRead := k in spec.Reads(t), toRead - {k};
    }
    var toWrite := out.deltas.Keys;
    while toWrite != {} && ok
      invariant toWrite <= out.deltas.Keys
      invariant ok ==> forall k :: k in out.readKeys ==> k in spec.Reads(t)
      invariant ok ==> forall k :: k in out.deltas && k !in toWrite ==> k in spec.Writes(t)
      invariant !ok ==> Strays(spec, t, out)
      decreases toWrite
    {
      var k :| k in toWrite;
      ok, toWrite := k in spec.Writes(t), toWrite - {k};
    }
  }

  lemma StraysIff(spec: Speculation, t: TxId, out: Outcome)
    ensures Strays(spec, t, out) <==> !Matches(spec, t, out)
  {
  }

  /** A run without error that passes the match test. */
  predicate Passes(spec: Speculation, t: TxId, out: Outcome) {
    !out.failed && Matches(spec, t, out)
  }

  /** Real conflicts of matching runs were predicted. */
  lemma MatchedConflict(spec: Speculation, t: TxId, a: Outcome, u: TxId, b: Outcome)
    requires Passes(spec, t, a) && Passes(spec, u, b) && Conflict(a, b)
    ensures spec.Conflicting(t, u)
  {
    var k :| (k in a.deltas && k in b.touched) || (k in b.deltas && k in a.touched);
    if k in a.deltas && k in b.deltas {
      assert k in spec.Writes(t) * spec.Writes(u);
    } else if k in a.deltas {
      assert k in spec.Writes(t) * spec.Reads(u);
    } else {
      assert k in spec.Reads(t) * spec.Writes(u);
    }
  }

  /** The replay so far: a genuine history of matching runs of processed
      transactions, whose conflicts follow the order. */
  ghost predicate Replayed(spec: Speculation, run: Program, ordered: seq<TxId>, processed: set<TxId>,
                           committed: Store, h: seq<Entry>) {
    && Genuine(run, map[], h) && committed == Final(map[], h)
    && DistinctIds(h) && Respects(h, ordered)
    && (forall e :: e in h ==> e.tx in processed && Passes(spec, e.tx, e.out))
  }

  /** Nobody outside `processed` conflicts with anyone in it and comes before. */
  ghost predicate Behind(spec: Speculation, ordered: seq<TxId>, processed: set<TxId>, t: TxId) {
    t in ordered && forall p :: p in processed && p in ordered && p != t && spec.Conflicting(p, t) ==>
      Rank(ordered, p) < Rank(ordered, t)
  }

  /** Publishing a matching run of `t` that is still current. */
  lemma PublishStep(spec: Speculation, run: Program, ordered: seq<TxId>, processed: set<TxId>, scope: set<TxId>,
                    committed: Store, h: seq<Entry>, t: TxId, out: Outcome)
    requires Replayed(spec, run, ordered, processed, committed, h)
    requires processed <= scope && Behind(spec, ordered, scope, t) && t !in processed
    requires Passes(spec, t, out) && run(t, committed) == out
    ensures Replayed(spec, run, ordered, processed + {t}, Applied(committed, out.deltas), h + [Entry(t, out)])
  {
    hide Genuine, Final, Applied, Conflict, Speculation.Conflicting, Rank, Passes;
    var e := Entry(t, out);
    Append(run, map[], h, e);
    forall x | x in h && Conflict(x.out, e.out) ensures x.tx in ordered && Rank(ordered, x.tx) < Rank(ordered, t) {
      MatchedConflict(spec, x.tx, x.out, t, out);
    }
    RespectsAppend(h, e, ordered);
    assert forall i :: 0 <= i < |h| ==> h[i] in h;
  }

  /** What the other workers of the batch have seen stays current. */
  lemma UndisturbedBy(spec: Speculation, run: Program, committed: Store, t: TxId, out: Outcome, u: TxId)
    requires WellBehaved(run) && !spec.Conflicting(t, u)
    requires Passes(spec, t, out) && Passes(spec, u, run(u, committed))
    ensures run(u, Applied(committed, out.deltas)) == run(u, committed)
  {
    hide Applied, Speculation.Conflicting, Passes;
    if Conflict(out, run(u, committed)) {
      MatchedConflict(spec, t, out, u, run(u, committed));
    }
    AppliedOutside(committed, out.deltas, run(u, committed).touched);
  }

  /** A batch that may follow `executed`: its members conflict neither with one
      another nor, against the order, with anything processed. */
  ghost predicate Batch(spec: Speculation, ordered: seq<TxId>, executed: set<TxId>, batch: set<TxId>) {
    && (forall t :: t in batch ==> t !in executed && Behind(spec, ordered, executed + batch, t))
    && (forall t, u :: t in batch && u in batch && t != u ==> !spec.Conflicting(t, u))
  }

  /** What a worker saw, if it matched, is what it would see now. */
  ghost predicate SeenCurrent(spec: Speculation, run: Program, committed: Store, seen: map<TxId, Outcome>) {
    forall u :: u in seen && Passes(spec, u, seen[u]) ==> run(u, committed) == seen[u]
  }

  lemma NothingSeen(spec: Speculation, run: Program, committed: Store)
    ensures SeenCurrent(spec, run, committed, map[])
  {
  }

  lemma SeenMore(spec: Speculation, run: Program, committed: Store, seen: map<TxId, Outcome>, t: TxId)
    requires SeenCurrent(spec, run, committed, seen)
    ensures SeenCurrent(spec, run, committed, seen[t := run(t, committed)])
  {
  }

  lemma SeenLess(spec: Speculation, run: Program, committed: Store, seen: map<TxId, Outcome>, t: TxId)
    requires SeenCurrent(spec, run, committed, seen) && t in seen
    ensures SeenCurrent(spec, run, committed, seen - {t})
    ensures Passes(spec, t, seen[t]) ==> run(t, committed) == seen[t]
  {
  }

  lemma BatchIsNew(spec: Speculation, ordered: seq<TxId>, executed: set<TxId>, batch: set<TxId>)
    requires Batch(spec, ordered, executed, batch)
    ensures forall t :: t in batch ==> t !in executed && Behind(spec, ordered, executed + batch, t)
  {
    hide Behind, Speculation.Conflicting;
  }

  /** A worker's last step: publish a matching run, or report the mismatch. */
  method FinishWorker(spec: Speculation, run: Program, t: TxId, out: Outcome, before: Store,
                      ghost ordered: seq<TxId>, ghost executed: set<TxId>, ghost batch: set<TxId>,
                      ghost processed: set<TxId>, ghost others: map<TxId, Outcome>, ghost h0: seq<Entry>)
    returns (committed: Store, strays: bool, ghost h: seq<Entry>)
    requires WellBehaved(run) && Replayed(spec, run, ordered, processed, before, h0)
    requires Batch(spec, ordered, executed, batch) && processed <= executed + batch
    requires t in batch && t !in processed && t !in others && others.Keys <= batch
    requires SeenCurrent(spec, run, before, others) && (Passes(spec, t, out) ==> run(t, before) == out)
    ensures Replayed(spec, run, ordered, processed + {t}, committed, h) && SeenCurrent(spec, run, committed, others)
    ensures h == (if Passes(spec, t, out) then h0 + [Entry(t, out)] else h0)
    ensures committed == if Passes(spec, t, out) then Applied(before, out.deltas) else before
    ensures strays == (!out.failed && !Matches(spec, t, out))
  {
    hide WellBehaved, Replayed, Speculation.Conflicting, Applied, Matches, Strays, Behind, SeenCurrent, Batch, Ids;
    BatchIsNew(spec, ordered, executed, batch);
    committed, h := before, h0;
    var ok := MatchTest(spec, t, out);
    strays := !out.failed && !ok;
    if !out.failed && ok {
      PublishStep(spec, run, ordered, processed, executed + batch, committed, h, t, out);
      Undisturbed(spec, run, committed, t, out, others, batch, executed, ordered);
      committed, h := Applied(committed, out.deltas), h + [Entry(t, out)];
    } else {
      MoreProcessed(spec, run, ordered, processed, committed, h, t);
    }
  }

  /** What became of the processed transactions: those that passed stand in the
      history, the others are mismatched or failed.  `at` is how much of the history
      was published when the worker re-executed. */
  datatype Verdicts = Verdicts(history: seq<Entry>, at: map<TxId, nat>, mismatched: set<TxId>, failed: set<TxId>)

  ghost function Matched(v: Verdicts): set<TxId> {
    Ids(v.history)
  }

  /** The committed state when the first `n` transactions were published. */
  ghost function StateAt(h: seq<Entry>, n: nat): Store
    requires n <= |h|
  {
    Final(map[], h[..n])
  }

  /** The verdict on what `t` did on the state its worker re-executed it on. */
  ghost predicate Judged(spec: Speculation, run: Program, v: Verdicts, t: TxId) {
    && t in v.at && v.at[t] <= |v.history|
    && var out := run(t, StateAt(v.history, v.at[t]));
    && (t in v.failed <==> out.failed)
    && (t in v.mismatched <==> !out.failed && Strays(spec, t, out))
    && (t in Matched(v) <==> !out.failed && !Strays(spec, t, out))
  }

  /** The batch that began when `n` transactions were published: its workers
      re-executed since then, and who passes was settled on the state it began with. */
  ghost predicate BatchJudged(spec: Speculation, run: Program, v: Verdicts, n: nat, batch: set<TxId>) {
    && n <= |v.history|
    && (forall t :: t in batch ==>
          Judged(spec, run, v, t) && n <= v.at[t] && (t in Matched(v) <==> Passes(spec, t, run(t, StateAt(v.history, n)))))
  }

  ghost predicate AllJudged(spec: Speculation, run: Program, v: Verdicts, processed: set<TxId>) {
    && Matched(v) <= processed && v.mismatched <= processed && v.failed <= processed
    && (forall t :: t in processed ==> Judged(spec, run, v, t))
  }

  /** The record of one more worker that re-executed after `n` publications. */
  ghost function Judgement(spec: Speculation, v: Verdicts, t: TxId, out: Outcome, n: nat): Verdicts {
    var v' := v.(at := v.at[t := n]);
    if out.failed then v'.(failed := v.failed + {t})
    else if Passes(spec, t, out) then v'.(history := v.history + [Entry(t, out)])
    else v'.(mismatched := v.mismatched + {t})
  }

  lemma EarlierState(h: seq<Entry>, h': seq<Entry>, n: nat)
    requires n <= |h| && h <= h'
    ensures StateAt(h', n) == StateAt(h, n)
  {
    assert h'[..n] == h[..n];
  }

  /** Earlier verdicts stand when another one is recorded. */
  lemma StillJudged(spec: Speculation, run: Program, v: Verdicts, t: TxId, out: Outcome, n: nat, u: TxId)
    requires Judged(spec, run, v, u) && u != t
    ensures Judged(spec, run, Judgement(spec, v, t, out, n), u)
    ensures u in Matched(Judgement(spec, v, t, out, n)) <==> u in Matched(v)
  {
    hide Passes, Matches, Ids, StateAt;
    var v' := Judgement(spec, v, t, out, n);
    IdsAppend(v.history, Entry(t, out));
    EarlierState(v.history, v'.history, v.at[u]);
  }

  lemma JudgeOne(spec: Speculation, run: Program, v: Verdicts, processed: set<TxId>, t: TxId, out: Outcome, n: nat)
    requires AllJudged(spec, run, v, processed) && t !in processed
    requires n <= |v.history| && out == run(t, StateAt(v.history, n))
    ensures AllJudged(spec, run, Judgement(spec, v, t, out, n), processed + {t})
  {
    hide Matches, Ids, StateAt, Judged;
    var v' := Judgement(spec, v, t, out, n);
    IdsAppend(v.history, Entry(t, out));
    forall u | u in processed ensures Judged(spec, run, v', u) {
      StillJudged(spec, run, v, t, out, n, u);
    }
    NewlyJudged(spec, run, v, t, out, n);
  }

  lemma NewlyJudged(spec: Speculation, run: Program, v: Verdicts, t: TxId, out: Outcome, n: nat)
    requires t !in Matched(v) && t !in v.mismatched && t !in v.failed
    requires n <= |v.history| && out == run(t, StateAt(v.history, n))
    ensures Judged(spec, run, Judgement(spec, v, t, out, n), t)
  {
    hide Matches, Strays, Ids, StateAt;
    StraysIff(spec, t, out);
    IdsAppend(v.history, Entry(t, out));
    EarlierState(v.history, Judgement(spec, v, t, out, n).history, n);
  }

  /** Who has not finished yet passes now exactly if it passed when the batch began,
      and then with the same outcome. */
  ghost predicate Steady(spec: Speculation, run: Program, begin: Store, committed: Store, active: set<TxId>) {
    forall u :: u in active && (Passes(spec, u, run(u, begin)) || Passes(spec, u, run(u, committed))) ==>
                  run(u, committed) == run(u, begin)
  }

  /** What the waiting workers saw, and when. */
  ghost predicate SeenSince(run: Program, h: seq<Entry>, n: nat, seen: map<TxId, Outcome>, readAt: map<TxId, nat>) {
    forall t :: t in seen ==> t in readAt && n <= readAt[t] <= |h| && seen[t] == run(t, StateAt(h, readAt[t]))
  }

  ghost predicate SameVerdicts(spec: Speculation, run: Program, begin: Store, seen: map<TxId, Outcome>) {
    forall t :: t in seen ==> (Passes(spec, t, seen[t]) <==> Passes(spec, t, run(t, begin)))
  }

  /** A batch on its way: verdicts so far, and what the waiting workers saw. */
  ghost predicate Underway(spec: Speculation, run: Program, v: Verdicts, n: nat, done: set<TxId>, active: set<TxId>,
                           committed: Store, seen: map<TxId, Outcome>, readAt: map<TxId, nat>) {
    && BatchJudged(spec, run, v, n, done) && SeenSince(run, v.history, n, seen, readAt)
    && SameVerdicts(spec, run, StateAt(v.history, n), seen)
    && Steady(spec, run, StateAt(v.history, n), committed, active) && committed == StateAt(v.history, |v.history|)
  }

  lemma BatchBegins(spec: Speculation, run: Program, v: Verdicts, batch: set<TxId>, committed: Store)
    requires committed == Final(map[], v.history)
    ensures Underway(spec, run, v, |v.history|, {}, batch, committed, map[], map[])
  {
    assert v.history[..|v.history|] == v.history;
  }

  lemma SeeOne(spec: Speculation, run: Program, v: Verdicts, n: nat, done: set<TxId>, active: set<TxId>, committed: Store,
               seen: map<TxId, Outcome>, readAt: map<TxId, nat>, t: TxId)
    requires Underway(spec, run, v, n, done, active, committed, seen, readAt) && t in active
    ensures Underway(spec, run, v, n, done, active, committed, seen[t := run(t, committed)], readAt[t := |v.history|])
    ensures Passes(spec, t, run(t, committed)) <==> Passes(spec, t, run(t, StateAt(v.history, n)))
  {
    hide Passes, StateAt, BatchJudged;
    NotBefore(spec, run, v, n, done);
  }

  lemma NotBefore(spec: Speculation, run: Program, v: Verdicts, n: nat, done: set<TxId>)
    requires BatchJudged(spec, run, v, n, done)
    ensures n <= |v.history|
  {
  }

  /** The verdict on one worker leaves the rest of the batch as it was. */
  lemma FinishOne(spec: Speculation, run: Program, v: Verdicts, n: nat, done: set<TxId>, active: set<TxId>, committed: Store,
                  seen: map<TxId, Outcome>, readAt: map<TxId, nat>, t: TxId, out: Outcome, r: nat, committed': Store)
    requires Underway(spec, run, v, n, done, active, committed, seen, readAt) && t !in done && t !in seen
    requires t !in Matched(v) && t !in v.mismatched && t !in v.failed
    requires n <= r <= |v.history| && out == run(t, StateAt(v.history, r))
    requires Passes(spec, t, out) <==> Passes(spec, t, run(t, StateAt(v.history, n)))
    requires committed' == if Passes(spec, t, out) then Applied(committed, out.deltas) else committed
    requires WellBehaved(run) && forall u :: u in active && u != t ==> !spec.Conflicting(t, u)
    ensures Underway(spec, run, Judgement(spec, v, t, out, r), n, done + {t}, active - {t}, committed', seen, readAt)
  {
    hide Passes, Applied, WellBehaved, Speculation.Conflicting, BatchJudged, SeenSince, SameVerdicts, Steady, Matches;
    var v' := Judgement(spec, v, t, out, r);
    NotBefore(spec, run, v, n, done);
    Publishes(spec, run, v, t, out, r, committed, committed');
    EarlierState(v.history, v'.history, n);
    StillBatchJudged(spec, run, v, n, done, t, out, r);
    StillSeen(run, v.history, v'.history, n, seen, readAt);
    StaySteady(spec, run, StateAt(v.history, n), committed, active, t, out);
  }

  lemma Publishes(spec: Speculation, run: Program, v: Verdicts, t: TxId, out: Outcome, r: nat, committed: Store, committed': Store)
    requires committed == StateAt(v.history, |v.history|)
    requires committed' == if Passes(spec, t, out) then Applied(committed, out.deltas) else committed
    ensures
      var v' := Judgement(spec, v, t, out, r);
      v.history <= v'.history && committed' == StateAt(v'.history, |v'.history|)
  {
    hide Matches, Applied;
    var h := v.history;
    assert h[..|h|] == h;
    FinalAppend(map[], h, Entry(t, out));
    assert (h + [Entry(t, out)])[..|h| + 1] == h + [Entry(t, out)];
  }

  lemma StillBatchJudged(spec: Speculation, run: Program, v: Verdicts, n: nat, done: set<TxId>, t: TxId, out: Outcome, r: nat)
    requires BatchJudged(spec, run, v, n, done) && t !in done
    requires t !in Matched(v) && t !in v.mismatched && t !in v.failed
    requires n <= r <= |v.history| && out == run(t, StateAt(v.history, r))
    requires Passes(spec, t, out) <==> Passes(spec, t, run(t, StateAt(v.history, n)))
    ensures BatchJudged(spec, run, Judgement(spec, v, t, out, r), n, done + {t})
  {
    hide Matches, StateAt, Matched;
    var v' := Judgement(spec, v, t, out, r);
    EarlierState(v.history, v'.history, n);
    forall u | u in done
      ensures Judged(spec, run, v', u) && u in v'.at && n <= v'.at[u] &&
              (u in Matched(v') <==> Passes(spec, u, run(u, StateAt(v'.history, n))))
    {
      assert Judged(spec, run, v, u);
      StillJudged(spec, run, v, t, out, r, u);
    }
    NewlyJudged(spec, run, v, t, out, r);
    NowMatched(spec, v, t, out, r);
  }

  lemma NowMatched(spec: Speculation, v: Verdicts, t: TxId, out: Outcome, r: nat)
    requires t !in Matched(v)
    ensures t in Matched(Judgement(spec, v, t, out, r)) <==> Passes(spec, t, out)
  {
    hide Matches, Ids;
    IdsAppend(v.history, Entry(t, out));
  }

  lemma StillSeen(run: Program, h: seq<Entry>, h': seq<Entry>, n: nat, seen: map<TxId, Outcome>, readAt: map<TxId, nat>)
    requires SeenSince(run, h, n, seen, readAt) && h <= h'
    ensures SeenSince(run, h', n, seen, readAt)
  {
    hide StateAt;
    forall t | t in seen ensures StateAt(h', readAt[t]) == StateAt(h, readAt[t]) {
      EarlierState(h, h', readAt[t]);
    }
  }

  /** Publishing a passing run changes nobody else's passing. */
  lemma StaySteady(spec: Speculation, run: Program, begin: Store, committed: Store, active: set<TxId>, t: TxId, out: Outcome)
    requires WellBehaved(run) && Steady(spec, run, begin, committed, active)
    requires forall u :: u in active && u != t ==> !spec.Conflicting(t, u)
    ensures Passes(spec, t, out) ==> Steady(spec, run, begin, Applied(committed, out.deltas), active - {t})
    ensures Steady(spec, run, begin, committed, active - {t})
  {
    hide Applied, WellBehaved, Speculation.Conflicting, Passes;
    if Passes(spec, t, out) {
      var committed' := Applied(committed, out.deltas);
      forall u | u in active - {t} && (Passes(spec, u, run(u, begin)) || Passes(spec, u, run(u, committed')))
        ensures run(u, committed') == run(u, begin)
      {
        if Passes(spec, u, run(u, begin)) {
          assert run(u, committed) == run(u, begin);
          UndisturbedBy(spec, run, committed, t, out, u);
        } else {
          UndisturbedBack(spec, run, committed, t, out, u);
        }
      }
    }
  }

  /** Who passes after a publication it does not conflict with passed before it. */
  lemma UndisturbedBack(spec: Speculation, run: Program, committed: Store, t: TxId, out: Outcome, u: TxId)
    requires WellBehaved(run) && !spec.Conflicting(t, u)
    requires Passes(spec, t, out) && Passes(spec, u, run(u, Applied(committed, out.deltas)))
    ensures run(u, committed) == run(u, Applied(committed, out.deltas))
  {
    hide Applied, Speculation.Conflicting, Passes;
    var after := run(u, Applied(committed, out.deltas));
    if Conflict(out, after) {
      MatchedConflict(spec, t, out, u, after);
    }
    AppliedOutside(committed, out.deltas, after.touched);
    AgreeSymmetric(committed, Applied(committed, out.deltas), after.touched);
  }

  lemma AgreeSymmetric(s: Store, s': Store, keys: set<Key>)
    requires Agree(s, s', keys)
    ensures Agree(s', s, keys)
  {
  }

  lemma {:induction false} FinalAppend(s: Store, h: seq<Entry>, e: Entry)
    ensures Final(s, h + [e]) == Applied(Final(s, h), e.out.deltas)
    decreases |h|
  {
    hide Applied;
    if h == [] {
      assert h + [e] == [e] && [e][1..] == [];
    } else {
      assert (h + [e])[1..] == h[1..] + [e];
      FinalAppend(Applied(s, h[0].out.deltas), h[1..], e);
    }
  }

  /** A waiting worker finishes: what it saw, and what that says of the batch. */
  lemma TakeOne(spec: Speculation, run: Program, v: Verdicts, n: nat, done: set<TxId>, active: set<TxId>, committed: Store,
                seen: map<TxId, Outcome>, readAt: map<TxId, nat>, t: TxId)
    requires Underway(spec, run, v, n, done, active, committed, seen, readAt) && t in seen
    ensures Underway(spec, run, v, n, done, active, committed, seen - {t}, readAt)
    ensures t in readAt && n <= readAt[t] <= |v.history| && seen[t] == run(t, StateAt(v.history, readAt[t]))
    ensures Passes(spec, t, seen[t]) <==> Passes(spec, t, run(t, StateAt(v.history, n)))
  {
    hide Passes, StateAt, BatchJudged, Steady;
  }

  /** Nothing said of `done` changed, and the history only grew. */
  ghost predicate Extends(v: Verdicts, v': Verdicts, done: set<TxId>) {
    && v.history <= v'.history
    && (forall u :: u in done && u in v.at ==> u in v'.at && v'.at[u] == v.at[u])
    && (forall u :: u in done ==>
          && (u in v.failed <==> u in v'.failed) && (u in v.mismatched <==> u in v'.mismatched)
          && (u in Matched(v) <==> u in Matched(v')))
  }

  lemma ExtendsSelf(v: Verdicts, done: set<TxId>)
    ensures Extends(v, v, done)
  {
  }

  lemma ExtendsOne(spec: Speculation, v0: Verdicts, v: Verdicts, done: set<TxId>, t: TxId, out: Outcome, r: nat)
    requires Extends(v0, v, done) && t !in done
    ensures Extends(v0, Judgement(spec, v, t, out, r), done)
  {
    hide Passes, Ids;
    IdsAppend(v.history, Entry(t, out));
  }

  /** A finished batch: it began after `n` publications and ended after `m`. */
  ghost predicate BatchDone(spec: Speculation, run: Program, v: Verdicts, n: nat, m: nat, batch: set<TxId>) {
    && BatchJudged(spec, run, v, n, batch) && n <= m <= |v.history|
    && (forall t :: t in batch && t in v.at ==> v.at[t] <= m)
    && (forall i :: n <= i < m ==> v.history[i].tx in batch)
  }

  lemma BatchEnds(spec: Speculation, run: Program, v: Verdicts, n: nat, batch: set<TxId>)
    requires BatchJudged(spec, run, v, n, batch) && Mine(v.history, n, batch)
    ensures BatchDone(spec, run, v, n, |v.history|, batch)
  {
    hide Passes, Matches, StateAt;
  }

  ghost predicate Mine(h: seq<Entry>, n: nat, batch: set<TxId>) {
    forall i :: n <= i < |h| ==> h[i].tx in batch
  }

  lemma StillMine(spec: Speculation, v: Verdicts, n: nat, batch: set<TxId>, t: TxId, out: Outcome, r: nat)
    requires Mine(v.history, n, batch) && t in batch
    ensures Mine(Judgement(spec, v, t, out, r).history, n, batch)
  {
    hide Passes;
  }

  lemma BatchStands(spec: Speculation, run: Program, v: Verdicts, v': Verdicts, n: nat, m: nat, batch: set<TxId>)
    requires BatchDone(spec, run, v, n, m, batch) && Extends(v, v', batch)
    ensures BatchDone(spec, run, v', n, m, batch)
  {
    hide Passes, Matches, StateAt, Matched;
    EarlierState(v.history, v'.history, n);
    forall t | t in batch ensures Judged(spec, run, v', t) {
      assert Judged(spec, run, v, t);
      EarlierState(v.history, v'.history, v.at[t]);
    }
    forall i | n <= i < m ensures v'.history[i].tx in batch {
      assert v'.history[i] == v.history[i];
    }
  }

  lemma Unjudged(spec: Speculation, run: Program, v: Verdicts, processed: set<TxId>, t: TxId)
    requires AllJudged(spec, run, v, processed) && t !in processed
    ensures t !in Matched(v) && t !in v.mismatched && t !in v.failed
  {
    hide Judged;
  }

  lemma ReplayedState(spec: Speculation, run: Program, ordered: seq<TxId>, processed: set<TxId>, committed: Store, h: seq<Entry>)
    requires Replayed(spec, run, ordered, processed, committed, h)
    ensures committed == Final(map[], h)
  {
    hide Genuine, Final, Respects, Passes;
  }

  lemma JudgementParts(spec: Speculation, v: Verdicts, t: TxId, out: Outcome, r: nat)
    ensures
      var v' := Judgement(spec, v, t, out, r);
      && v'.history == (if Passes(spec, t, out) then v.history + [Entry(t, out)] else v.history)
      && v'.mismatched == (if !out.failed && !Matches(spec, t, out) then v.mismatched + {t} else v.mismatched)
  {
  }

  lemma NoConflicts(spec: Speculation, ordered: seq<TxId>, executed: set<TxId>, batch: set<TxId>, active: set<TxId>, t: TxId)
    requires Batch(spec, ordered, executed, batch) && t in batch && active <= batch
    ensures forall u :: u in active && u != t ==> !spec.Conflicting(t, u)
  {
    hide Behind, Speculation.Conflicting;
  }

  /** Everything a verdict has to keep, at once. */
  lemma Judge(spec: Speculation, run: Program, v0: Verdicts, v: Verdicts, n: nat, ordered: seq<TxId>, executed: set<TxId>,
              batch: set<TxId>, active: set<TxId>, processed: set<TxId>, committed: Store, committed': Store,
              seen: map<TxId, Outcome>, readAt: map<TxId, nat>, t: TxId)
    requires WellBehaved(run) && Batch(spec, ordered, executed, batch) && active <= batch && t in seen && t in active
    requires Underway(spec, run, v, n, batch - active, active, committed, seen, readAt)
    requires AllJudged(spec, run, v, processed) && t !in processed && t !in executed
    requires Extends(v0, v, executed) && Mine(v.history, n, batch)
    requires committed' == if Passes(spec, t, seen[t]) then Applied(committed, seen[t].deltas) else committed
    ensures t in readAt
    ensures
      var v' := Judgement(spec, v, t, seen[t], readAt[t]);
      && Underway(spec, run, v', n, batch - (active - {t}), active - {t}, committed', seen - {t}, readAt)
      && AllJudged(spec, run, v', processed + {t}) && Extends(v0, v', executed) && Mine(v'.history, n, batch)
  {
    hide Underway, AllJudged, Extends, Mine, Batch, WellBehaved, Passes, Matches, Applied, Judgement, StateAt, Matched,
         Speculation.Conflicting;
    var out := seen[t];
    TakeOne(spec, run, v, n, batch - active, active, committed, seen, readAt, t);
    var r := readAt[t];
    Unjudged(spec, run, v, processed, t);
    NoConflicts(spec, ordered, executed, batch, active, t);
    FinishOne(spec, run, v, n, batch - active, active, committed, seen - {t}, readAt, t, out, r, committed');
    assert batch - active + {t} == batch - (active - {t});
    JudgeOne(spec, run, v, processed, t, out, r);
    ExtendsOne(spec, v0, v, executed, t, out, r);
    StillMine(spec, v, n, batch, t, out, r);
  }

  /** The workers of one batch, interleaved in any way: each re-executes on the
      committed state of some moment and later, if its run passed, publishes. */
  method ReplayBatch(spec: Speculation, run: Program, batch: set<TxId>, before: Store, mismatched0: set<TxId>,
                     ghost ordered: seq<TxId>, ghost executed: set<TxId>, ghost v0: Verdicts)
    returns (committed: Store, mismatched: set<TxId>, ghost v: Verdicts)
    requires WellBehaved(run) && Replayed(spec, run, ordered, executed, before, v0.history)
    requires Batch(spec, ordered, executed, batch)
    requires AllJudged(spec, run, v0, executed) && v0.mismatched == mismatched0
    ensures Replayed(spec, run, ordered, executed + batch, committed, v.history)
    ensures AllJudged(spec, run, v, executed + batch) && v.mismatched == mismatched
    ensures Extends(v0, v, executed) && BatchDone(spec, run, v, |v0.history|, |v.history|, batch)
  {
    hide WellBehaved, Replayed, Speculation.Conflicting, Applied, Passes, Matches, Behind, Handled, SeenCurrent, Batch, Ids,
         AllJudged, Underway, BatchJudged, BatchDone, Judgement, Matched, Extends, Mine;
    HandledNone(executed, batch);
    BatchIsNew(spec, ordered, executed, batch);
    NothingSeen(spec, run, before);
    ReplayedState(spec, run, ordered, executed, before, v0.history);
    BatchBegins(spec, run, v0, batch, before);
    ExtendsSelf(v0, executed);
    NothingMine(v0.history, batch);
    committed, mismatched, v := before, mismatched0, v0;
    var toRead, seen: map<TxId, Outcome> := batch, map[];
    ghost var processed, n, readAt: map<TxId, nat> := executed, |v0.history|, map[];
    assert toRead + seen.Keys == batch && batch - batch == {};
    while
      invariant toRead !! seen.Keys && toRead + seen.Keys <= batch
      invariant processed == Handled(executed, batch, toRead + seen.Keys)
      invariant Replayed(spec, run, ordered, processed, committed, v.history)
      invariant SeenCurrent(spec, run, committed, seen)
      invariant AllJudged(spec, run, v, processed) && v.mismatched == mismatched
      invariant Underway(spec, run, v, n, batch - (toRead + seen.Keys), toRead + seen.Keys, committed, seen, readAt)
      invariant Extends(v0, v, executed) && Mine(v.history, n, batch)
      decreases toRead, seen.Keys
    {
      case toRead != {} =>
        var t :| t in toRead;
        SeeOne(spec, run, v, n, batch - (toRead + seen.Keys), toRead + seen.Keys, committed, seen, readAt, t);
        SeenMore(spec, run, committed, seen, t);
        assert toRead - {t} + seen[t := run(t, committed)].Keys == toRead + seen.Keys;
        toRead, seen := toRead - {t}, seen[t := run(t, committed)];
        readAt := readAt[t := |v.history|];
      case seen != map[] =>
        var t :| t in seen;
        var out := seen[t];
        ghost var active, before, all := toRead + seen.Keys, committed, seen;
        HandleOne(executed, batch, active, t);
        assert toRead + (seen - {t}).Keys == active - {t};
        SeenLess(spec, run, committed, seen, t);
        seen := seen - {t};
        var strays;
        ghost var h;
        committed, strays, h := FinishWorker(spec, run, t, out, committed, ordered, executed, batch, processed, seen, v.history);
        Judge(spec, run, v0, v, n, ordered, executed, batch, active, processed, before, committed, all, readAt, t);
        JudgementParts(spec, v, t, out, readAt[t]);
        mismatched := if strays then mismatched + {t} else mismatched;
        v := Judgement(spec, v, t, out, readAt[t]);
        processed := processed + {t};
    }
    assert toRead + seen.Keys == {};
    assert batch - {} == batch;
    Finished(spec, run, v, n, batch, committed, seen, readAt);
    BatchEnds(spec, run, v, n, batch);
  }

  lemma NothingMine(h: seq<Entry>, batch: set<TxId>)
    ensures Mine(h, |h|, batch)
  {
  }

  lemma Finished(spec: Speculation, run: Program, v: Verdicts, n: nat, batch: set<TxId>, committed: Store,
                 seen: map<TxId, Outcome>, readAt: map<TxId, nat>)
    requires Underway(spec, run, v, n, batch, {}, committed, seen, readAt)
    ensures BatchJudged(spec, run, v, n, batch)
  {
    hide BatchJudged, SeenSince, SameVerdicts, Steady, StateAt;
  }

  /** Who is processed while the workers of `active` are not done. */
  ghost function Handled(executed: set<TxId>, batch: set<TxId>, active: set<TxId>): set<TxId> {
    executed + (batch - active)
  }

  lemma HandledNone(executed: set<TxId>, batch: set<TxId>)
    ensures Handled(executed, batch, batch) == executed && Handled(executed, batch, {}) == executed + batch
  {
  }

  lemma HandleOne(executed: set<TxId>, batch: set<TxId>, active: set<TxId>, t: TxId)
    requires t in active && active <= batch
    ensures Handled(executed, batch, active - {t}) == Handled(executed, batch, active) + {t}
    ensures t !in executed ==> t !in Handled(executed, batch, active)
    ensures Handled(executed, batch, active) <= executed + batch
  {
  }

  lemma MoreProcessed(spec: Speculation, run: Program, ordered: seq<TxId>, processed: set<TxId>,
                      committed: Store, h: seq<Entry>, t: TxId)
    requires Replayed(spec, run, ordered, processed, committed, h)
    ensures Replayed(spec, run, ordered, processed + {t}, committed, h)
  {
    hide Genuine, Final, Respects, Passes;
  }

  lemma IdsAppend(h: seq<Entry>, e: Entry)
    ensures Ids(h + [e]) == Ids(h) + {e.tx}
  {
    assert forall x :: x in h + [e] <==> x in h || x == e;
  }

  lemma Undisturbed(spec: Speculation, run: Program, committed: Store, t: TxId, out: Outcome, seen: map<TxId, Outcome>,
                    batch: set<TxId>, executed: set<TxId>, ordered: seq<TxId>)
    requires WellBehaved(run) && Batch(spec, ordered, executed, batch)
    requires t in batch && t !in seen && seen.Keys <= batch && Passes(spec, t, out)
    requires SeenCurrent(spec, run, committed, seen)
    ensures SeenCurrent(spec, run, Applied(committed, out.deltas), seen)
  {
    hide WellBehaved, Speculation.Conflicting, Applied, Passes, Behind;
    forall u | u in seen && Passes(spec, u, seen[u]) ensures run(u, Applied(committed, out.deltas)) == seen[u] {
      UndisturbedBy(spec, run, committed, t, out, u);
    }
  }

  // ----------------------------------------------------------- main result

  lemma ReadyIsBatch(spec: Speculation, ordered: seq<TxId>, dag: map<TxId, seq<TxId>>, executed: set<TxId>, batch: set<TxId>)
    requires IsDag(spec, ordered, dag) && Distinct(ordered) && Closed(dag, executed)
    requires forall t :: t in executed ==> t in ordered
    requires forall t :: t in batch ==> t in ordered && t !in executed && Ready(dag, executed, t)
    ensures Batch(spec, ordered, executed, batch) && Closed(dag, executed + batch)
  {
    hide Speculation.Conflicting, Rank;
    forall t, u | t in batch && u in batch && t != u ensures !spec.Conflicting(t, u) {
      BatchIsConflictFree(spec, ordered, dag, executed, t, u);
    }
    forall t, p | t in batch && p in executed + batch && p != t && spec.Conflicting(p, t)
      ensures p in ordered && Rank(ordered, p) < Rank(ordered, t)
    {
      var i, j := Rank(ordered, t), Rank(ordered, p);
      assert ordered[i] == t && ordered[j] == p;
      if i < j {
        EarlierPredecessor(spec, ordered, dag, i, j);
      }
    }
  }

  lemma EarlierPredecessor(spec: Speculation, ordered: seq<TxId>, dag: map<TxId, seq<TxId>>, i: nat, j: nat)
    requires IsDag(spec, ordered, dag) && i < j < |ordered| && spec.Conflicting(ordered[j], ordered[i])
    ensures ordered[j] in dag && ordered[i] in dag[ordered[j]]
  {
    hide Speculation.Conflicting;
    assert ordered[j] in ordered && ordered[i] in ordered[..j];
  }

  /** `t` was in some batch. */
  ghost predicate Covered(batches: seq<set<TxId>>, t: TxId) {
    exists i :: 0 <= i < |batches| && t in batches[i]
  }

  lemma CoveredMore(batches: seq<set<TxId>>, ids: set<TxId>)
    ensures forall t :: Covered(batches + [ids], t) <==> Covered(batches, t) || t in ids
  {
    var b := batches + [ids];
    forall t ensures Covered(b, t) <==> Covered(batches, t) || t in ids {
      if Covered(batches, t) {
        var i :| 0 <= i < |batches| && t in batches[i];
        assert b[i] == batches[i];
      }
      if t in ids {
        assert t in b[|batches|];
      }
    }
  }

  lemma NothingReplayed(spec: Speculation, run: Program, ordered: seq<TxId>, dag: map<TxId, seq<TxId>>)
    ensures Replayed(spec, run, ordered, {}, map[], []) && Closed(dag, {}) && Ids([]) == {}
  {
  }

  lemma DagKeys(spec: Speculation, ordered: seq<TxId>, dag: map<TxId, seq<TxId>>)
    requires IsDag(spec, ordered, dag)
    ensures forall t :: t in ordered ==> t in dag
  {
    hide Speculation.Conflicting;
  }

  /** The loop never comes up with an empty batch while something remains. */
  lemma SomethingReady(spec: Speculation, ordered: seq<TxId>, dag: map<TxId, seq<TxId>>, executed: set<TxId>, remaining: set<TxId>)
    requires IsDag(spec, ordered, dag) && remaining != {} && executed + remaining == Elements(ordered)
    ensures exists t :: t in remaining && Ready(dag, executed, t)
  {
    hide IsDag, Ready;
    var i := FirstRemaining(ordered, remaining);
    EarliestIsReady(spec, ordered, dag, executed, i) by {
      forall t | t in ordered[..i] ensures t in executed {
        assert t in Elements(ordered);
      }
    }
  }

  lemma {:induction false} FirstRemaining(ordered: seq<TxId>, remaining: set<TxId>) returns (i: nat)
    requires remaining != {} && remaining <= Elements(ordered)
    ensures i < |ordered| && ordered[i] in remaining && forall t :: t in ordered[..i] ==> t !in remaining
  {
    if ordered[0] in remaining {
      i := 0;
    } else {
      assert ordered == [ordered[0]] + ordered[1..];
      var j := FirstRemaining(ordered[1..], remaining);
      i := j + 1;
    }
  }

  lemma BatchPairs(spec: Speculation, ordered: seq<TxId>, executed: set<TxId>, batch: set<TxId>)
    requires Batch(spec, ordered, executed, batch)
    ensures forall t, u :: t in batch && u in batch && t != u ==> !spec.Conflicting(t, u)
  {
    hide Speculation.Conflicting, Behind;
  }

  lemma ReplayedIsSerial(spec: Speculation, run: Program, ordered: seq<TxId>, processed: set<TxId>,
                         committed: Store, h: seq<Entry>)
    requires WellBehaved(run) && Distinct(ordered) && Replayed(spec, run, ordered, processed, committed, h)
    ensures committed == Serial(run, map[], Select(ordered, Ids(h)))
  {
    hide WellBehaved, Genuine, Final, Respects, Serial, Select, Passes;
    SerialEquivalence(run, map[], h, ordered);
  }

  lemma NothingJudged(spec: Speculation, run: Program)
    ensures AllJudged(spec, run, Verdicts([], map[], {}, {}), {})
  {
  }

  /** The batches, each with the publications it began and ended with. */
  ghost predicate AllDone(spec: Speculation, run: Program, v: Verdicts, batches: seq<set<TxId>>, starts: seq<nat>) {
    && |starts| == |batches| + 1 && starts[0] == 0 && starts[|batches|] == |v.history|
    && (forall i :: 0 <= i < |batches| ==> BatchDone(spec, run, v, starts[i], starts[i + 1], batches[i]))
  }

  lemma NothingDone(spec: Speculation, run: Program)
    ensures AllDone(spec, run, Verdicts([], map[], {}, {}), [], [0])
  {
  }

  lemma DoneMore(spec: Speculation, run: Program, v: Verdicts, v': Verdicts, batches: seq<set<TxId>>, starts: seq<nat>,
                 executed: set<TxId>, batch: set<TxId>)
    requires AllDone(spec, run, v, batches, starts) && Extends(v, v', executed)
    requires BatchDone(spec, run, v', |v.history|, |v'.history|, batch)
    requires forall i :: 0 <= i < |batches| ==> batches[i] <= executed
    ensures AllDone(spec, run, v', batches + [batch], starts + [|v'.history|])
  {
    hide BatchDone;
    var batches', starts' := batches + [batch], starts + [|v'.history|];
    forall i | 0 <= i < |batches'| ensures BatchDone(spec, run, v', starts'[i], starts'[i + 1], batches'[i]) {
      if i < |batches| {
        ExtendsLess(v, v', executed, batches[i]);
        BatchStands(spec, run, v, v', starts[i], starts[i + 1], batches[i]);
      }
    }
  }

  lemma ExtendsLess(v: Verdicts, v': Verdicts, done: set<TxId>, part: set<TxId>)
    requires Extends(v, v', done) && part <= done
    ensures Extends(v, v', part)
  {
    hide Matched;
  }

  /** In the serial run of the matched transactions each of them passes again, with
      the outcome it was published with. */
  ghost predicate PassesAgain(spec: Speculation, run: Program, txs: seq<TxId>, h: seq<Entry>) {
    forall i :: 0 <= i < |txs| ==>
                  var out := run(txs[i], Serial(run, map[], txs[..i]));
                  Passes(spec, txs[i], out) && Entry(txs[i], out) in h
  }

  lemma ReplayedPassesAgain(spec: Speculation, run: Program, ordered: seq<TxId>, processed: set<TxId>,
                            committed: Store, h: seq<Entry>)
    requires WellBehaved(run) && Distinct(ordered) && Replayed(spec, run, ordered, processed, committed, h)
    ensures PassesAgain(spec, run, Select(ordered, Ids(h)), h)
  {
    hide WellBehaved, Genuine, Final, Respects, Serial, Select, Passes, Ids;
    var txs := Select(ordered, Ids(h));
    forall i | 0 <= i < |txs|
      ensures var out := run(txs[i], Serial(run, map[], txs[..i]));
              Passes(spec, txs[i], out) && Entry(txs[i], out) in h
    {
      SerialOutcomes(run, map[], h, ordered, i);
    }
  }

  /** Vegeta replay: batch by batch until nothing remains.  The batches divide up the
      transactions and are free of conflicts.  Every transaction is judged on the
      committed state its worker re-executed it on, and who passes is settled by the
      state its batch began with, however the workers interleave.  The committed
      state is what running the matched transactions one at a time, in the given
      order, leaves, and in that run each of them passes again. */
  method Replay(spec: Speculation, run: Program, ordered: seq<TxId>)
    returns (committed: Store, batches: seq<set<TxId>>, mismatched: set<TxId>, ghost v: Verdicts, ghost starts: seq<nat>)
    requires WellBehaved(run) && Distinct(ordered)
    ensures committed == Serial(run, map[], Select(ordered, Matched(v))) == Final(map[], v.history)
    ensures PassesAgain(spec, run, Select(ordered, Matched(v)), v.history)
    ensures AllJudged(spec, run, v, Elements(ordered)) && v.mismatched == mismatched
    ensures AllDone(spec, run, v, batches, starts)
    ensures forall i :: 0 <= i < |batches| ==> batches[i] != {} && batches[i] <= Elements(ordered)
    ensures forall i, j :: 0 <= i < j < |batches| ==> batches[i] !! batches[j]
    ensures forall i, t, u :: 0 <= i < |batches| && t in batches[i] && u in batches[i] && t != u ==>
              !spec.Conflicting(t, u)
    ensures forall t :: t in ordered ==> Covered(batches, t)
    ensures AreMaximal(spec, ordered, batches) && ByDepth(spec, ordered, batches)
  {
    hide WellBehaved, Replayed, Speculation.Conflicting, Serial, Select, Batch, Closed, Ready, IsDag, Distinct, Covered,
         AllJudged, Ids, AllDone, BatchDone, Extends, PassesAgain, AreMaximal, ByDepth, United;
    var dag := BuildDag(spec, ordered);
    var executed: set<TxId>, remaining := {}, set t | t in ordered;
    committed, batches, mismatched := map[], [], {};
    v, starts := Verdicts([], map[], {}, {}), [0];
    NothingReplayed(spec, run, ordered, dag);
    NothingJudged(spec, run);
    NothingDone(spec, run);
    NoneUnited(spec, ordered);
    while remaining != {}
      invariant executed !! remaining && executed + remaining == Elements(ordered)
      invariant Closed(dag, executed) && Replayed(spec, run, ordered, executed, committed, v.history)
      invariant AllJudged(spec, run, v, executed) && v.mismatched == mismatched
      invariant AllDone(spec, run, v, batches, starts)
      invariant forall i :: 0 <= i < |batches| ==> batches[i] != {} && batches[i] <= executed
      invariant forall i, j :: 0 <= i < j < |batches| ==> batches[i] !! batches[j]
      invariant forall i, t, u :: 0 <= i < |batches| && t in batches[i] && u in batches[i] && t != u ==>
                  !spec.Conflicting(t, u)
      invariant forall t :: t in executed ==> Covered(batches, t)
      invariant AreMaximal(spec, ordered, batches) && United(batches) == executed
      decreases remaining
    {
      DagKeys(spec, ordered, dag);
      var batch := ReadyBatch(dag, executed, remaining);
      var ids := set t | t in batch;
      SomethingReady(spec, ordered, dag, executed, remaining);
      ReadyIsBatch(spec, ordered, dag, executed, ids);
      BatchPairs(spec, ordered, executed, ids);
      ghost var v0 := v;
      committed, mismatched, v := ReplayBatch(spec, run, ids, committed, mismatched, ordered, executed, v);
      DoneMore(spec, run, v0, v, batches, starts, executed, ids);
      CoveredMore(batches, ids);
      MaximalNext(spec, ordered, dag, batches, executed, ids);
      batches, starts := batches + [ids], starts + [|v.history|];
      remaining, executed := remaining - ids, executed + ids;
    }
    ReplayedIsSerial(spec, run, ordered, executed, committed, v.history);
    ReplayedState(spec, run, ordered, executed, committed, v.history);
    ReplayedPassesAgain(spec, run, ordered, executed, committed, v.history);
    MaximalIsByDepth(spec, ordered, batches);
  }

  lemma NoneUnited(spec: Speculation, ordered: seq<TxId>)
    ensures AreMaximal(spec, ordered, []) && United([]) == {}
  {
  }

  // ---------------------------------------------------------- serial replay

  /** Those of `txs` that do not fail when they run one at a time, each on what the
      ones kept before it left. */
  ghost function Running(run: Program, s: Store, txs: seq<TxId>): seq<TxId> {
    if txs == [] then []
    else
      var n := |txs| - 1;
      var kept := Running(run, s, txs[..n]);
      if run(txs[n], Serial(run, s, kept)).failed then kept else kept + [txs[n]]
  }

  lemma SerialNone(run: Program, s: Store)
    ensures Running(run, s, []) == [] && Serial(run, s, []) == s
  {
  }

  lemma RunningNext(run: Program, s: Store, txs: seq<TxId>, i: nat)
    requires i < |txs|
    ensures
      var kept := Running(run, s, txs[..i]);
      Running(run, s, txs[..i + 1]) == if run(txs[i], Serial(run, s, kept)).failed then kept else kept + [txs[i]]
  {
    assert txs[..i + 1][..i] == txs[..i];
  }

  method InStringOrder(txs: set<TxId>) returns (list: seq<TxId>)
    ensures Distinct(list) && Alphabetical(list) && (forall t :: t in list <==> t in txs)
  {
    var found := Traverse(txs);
    StringOrder();
    SortKeeps(StringLe, found);
    list := SortStrings(found);
  }

  /** Runs the mismatched transactions again, one at a time in string order, each on
      what is committed by then; a failing one is skipped. */
  method SerialReplay(run: Program, committed: Store, mismatched: set<TxId>)
    returns (updated: Store, replayed: nat, ghost list: seq<TxId>)
    ensures Distinct(list) && Alphabetical(list) && (forall t :: t in list <==> t in mismatched)
    ensures updated == Serial(run, committed, Running(run, committed, list))
    ensures replayed == |Running(run, committed, list)|
  {
    hide Applied, Serial, Alphabetical, StringLe, Distinct, Running;
    var txs := InStringOrder(mismatched);
    list := txs;
    updated, replayed := committed, 0;
    SerialNone(run, committed);
    assert txs[..0] == [];
    for i := 0 to |txs|
      invariant updated == Serial(run, committed, Running(run, committed, txs[..i]))
      invariant replayed == |Running(run, committed, txs[..i])|
    {
      RunningNext(run, committed, txs, i);
      var out := run(txs[i], updated);
      if !out.failed {
        SerialOne(run, committed, Running(run, committed, txs[..i]), txs[i]);
        updated, replayed := Applied(updated, out.deltas), replayed + 1;
      }
    }
    assert txs[..|txs|] == txs;
  }

  /** In the serial run of `txs` from `s` nobody fails. */
  ghost predicate NoneFails(run: Program, s: Store, txs: seq<TxId>) {
    forall i :: 0 <= i < |txs| ==> !run(txs[i], Serial(run, s, txs[..i])).failed
  }

  lemma {:induction false} RunningDoNotFail(run: Program, s: Store, txs: seq<TxId>)
    ensures NoneFails(run, s, Running(run, s, txs))
  {
    hide Serial;
    if txs != [] {
      var n := |txs| - 1;
      var kept := Running(run, s, txs[..n]);
      RunningDoNotFail(run, s, txs[..n]);
      var kept' := kept + [txs[n]];
      forall i | 0 <= i < |kept'| && !run(txs[n], Serial(run, s, kept)).failed
        ensures !run(kept'[i], Serial(run, s, kept'[..i])).failed
      {
        assert kept'[..i] == kept[..i];
        assert kept[..|kept|] == kept;
      }
    }
  }

  lemma NoneFailsJoin(run: Program, s: Store, a: seq<TxId>, b: seq<TxId>)
    requires NoneFails(run, s, a) && NoneFails(run, Serial(run, s, a), b)
    ensures NoneFails(run, s, a + b)
  {
    hide Serial;
    var txs := a + b;
    forall i | 0 <= i < |txs| ensures !run(txs[i], Serial(run, s, txs[..i])).failed {
      if i < |a| {
        assert txs[..i] == a[..i];
      } else {
        assert txs[..i] == a + b[..i - |a|];
        SerialJoin(run, s, a, b[..i - |a|]);
      }
    }
  }

  lemma PassingDoNotFail(spec: Speculation, run: Program, txs: seq<TxId>, h: seq<Entry>)
    requires PassesAgain(spec, run, txs, h)
    ensures NoneFails(run, map[], txs)
  {
    hide Serial, Matches;
  }

  /** Replay and serial replay together.  What is committed at the end is one serial
      execution from the empty state, in which nobody fails: first the matched
      transactions in the given order, then the mismatched ones in string order, less
      those that fail there.  A transaction is matched, mismatched or failed, and only
      one of these. */
  method Process(spec: Speculation, run: Program, ordered: seq<TxId>)
    returns (committed: Store, replayed: nat, ghost v: Verdicts, ghost list: seq<TxId>)
    requires WellBehaved(run) && Distinct(ordered)
    ensures
      var txs := Select(ordered, Matched(v)) + Running(run, StateAt(v.history, |v.history|), list);
      committed == Serial(run, map[], txs) && NoneFails(run, map[], txs)
    ensures AllJudged(spec, run, v, Elements(ordered))
    ensures Distinct(list) && Alphabetical(list) && forall t :: t in list <==> t in v.mismatched
    ensures replayed == |Running(run, StateAt(v.history, |v.history|), list)|
  {
    hide WellBehaved, Serial, Select, Distinct, AllJudged, Ids, AllDone, PassesAgain, NoneFails, Running, Final, Alphabetical, Covered,
         Speculation.Conflicting;
    var batches, mismatched;
    ghost var starts;
    committed, batches, mismatched, v, starts := Replay(spec, run, ordered);
    ghost var first, s := Select(ordered, Matched(v)), committed;
    assert v.history[..|v.history|] == v.history;
    assert s == StateAt(v.history, |v.history|);
    committed, replayed, list := SerialReplay(run, committed, mismatched);
    SerialJoin(run, map[], first, Running(run, s, list));
    PassingDoNotFail(spec, run, first, v.history);
    RunningDoNotFail(run, s, list);
    NoneFailsJoin(run, map[], first, Running(run, s, list));
  }
}

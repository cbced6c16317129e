/**
 The variant's commit, level by level.  The transactions of a level are executed
 again, all on the state the lower levels left; those that repeat the deltas of their
 pre-execution add them to it.  When no two of a level conflict that is the serial
 execution of the validated ones by number.
 */
module LevelCommit {
  import opened Sequences
  import opened Deltas
  import opened Footprint
  import opened AddressQueues
  import opened QueueSorting
  import opened Nezha
  import opened SnapshotCommit

  /** The deltas of every pre-execution; a transaction without an entry has no context. */
  type Predictions = map<TxId, map<Key, int>>

  predicate Validates(pre: Predictions, t: TxId, out: Outcome) {
    t in pre && !out.failed && out.deltas == pre[t]
  }

  /** The deltas that `level` yields on `base`, added to `s` one after the other. */
  ghost function Added(run: Program, base: Store, s: Store, level: seq<TxId>): Store {
    if level == [] then s
    else
      var n := |level| - 1;
      Applied(Added(run, base, s, level[..n]), run(level[n], base).deltas)
  }

  /** What the levels leave, each executed on what those before it left. */
  ghost function LevelsStore(run: Program, levels: seq<seq<TxId>>): Store {
    if levels == [] then map[]
    else
      var n := |levels| - 1;
      var s := LevelsStore(run, levels[..n]);
      Added(run, s, s, levels[n])
  }

  /** `level` lists, in some order, the candidates that validate on `s`. */
  ghost predicate IsLevel(run: Program, pre: Predictions, s: Store, candidates: seq<TxId>, level: seq<TxId>) {
    Distinct(level) && forall t :: t in level <==> t in candidates && Validates(pre, t, run(t, s))
  }

  ghost predicate Validated(run: Program, pre: Predictions, filed: seq<seq<TxId>>, levels: seq<seq<TxId>>) {
    && |levels| == |filed|
    && (forall i :: 0 <= i < |filed| ==> IsLevel(run, pre, LevelsStore(run, levels[..i]), filed[i], levels[i]))
  }

  // ------------------------------------------------------------ serial levels

  /** No two of the level's outcomes on `s` conflict. */
  ghost predicate Peaceful(run: Program, s: Store, level: seq<TxId>) {
    forall i, j :: 0 <= i < j < |level| ==> !Conflict(run(level[i], s), run(level[j], s))
  }

  ghost predicate LevelsPeaceful(run: Program, levels: seq<seq<TxId>>) {
    forall i :: 0 <= i < |levels| ==> Peaceful(run, LevelsStore(run, levels[..i]), levels[i])
  }

  /** In the serial run of `txs` from `s` everyone validates again. */
  ghost predicate ValidatesAgain(run: Program, pre: Predictions, s: Store, txs: seq<TxId>) {
    forall i :: 0 <= i < |txs| ==> Validates(pre, txs[i], run(txs[i], Serial(run, s, txs[..i])))
  }

  /** In that run nobody fails, and everyone writes what was predicted, key by key. */
  ghost predicate AsPredicted(run: Program, pre: Predictions, s: Store, txs: seq<TxId>) {
    forall i :: 0 <= i < |txs| ==>
                  var out := run(txs[i], Serial(run, s, txs[..i]));
                  && !out.failed && txs[i] in pre
                  && (forall k :: k in out.deltas <==> k in pre[txs[i]])
                  && (forall k :: k in out.deltas ==> out.deltas[k] == pre[txs[i]][k])
  }

  lemma AgainIsAsPredicted(run: Program, pre: Predictions, s: Store, txs: seq<TxId>)
    requires ValidatesAgain(run, pre, s, txs)
    ensures AsPredicted(run, pre, s, txs)
  {
    hide Serial;
  }

  /** What the levels leave is the serial execution. */
  ghost predicate Committed(run: Program, levels: seq<seq<TxId>>) {
    LevelsStore(run, levels) == Serial(run, map[], Flatten(levels))
  }

  lemma AgreeTwice(a: Store, b: Store, c: Store, keys: set<Key>)
    requires Agree(a, b, keys) && Agree(b, c, keys)
    ensures Agree(a, c, keys)
  {
    hide Word;
  }

  /** Deltas outside `keys` leave them. */
  lemma {:induction false} AddedOutside(run: Program, base: Store, s: Store, level: seq<TxId>, keys: set<Key>)
    requires forall t :: t in level ==> run(t, base).deltas.Keys !! keys
    ensures Agree(s, Added(run, base, s, level), keys)
  {
    hide Applied, Agree;
    if level == [] {
      AgreeSelf(s, keys);
    } else {
      var n := |level| - 1;
      var s' := Added(run, base, s, level[..n]);
      AddedOutside(run, base, s, level[..n], keys);
      assert level[n] in level;
      AppliedOutside(s', run(level[n], base).deltas, keys);
      AgreeTwice(s, s', Added(run, base, s, level), keys);
    }
  }

  lemma AgreeSelf(s: Store, keys: set<Key>)
    ensures Agree(s, s, keys)
  {
  }

  /** Whoever comes next in a level acts as on the state the level began with. */
  lemma NextIsUndisturbed(run: Program, s: Store, level: seq<TxId>, n: nat)
    requires WellBehaved(run) && Peaceful(run, s, level) && n < |level|
    ensures run(level[n], Added(run, s, s, level[..n])) == run(level[n], s)
  {
    hide Applied, Added, Agree;
    var t := level[n];
    var out, s' := run(t, s), Added(run, s, s, level[..n]);
    forall u | u in level[..n] ensures run(u, s).deltas.Keys !! out.touched {
      var i :| 0 <= i < n && level[i] == u;
      assert !Conflict(run(level[i], s), run(level[n], s));
    }
    AddedOutside(run, s, s, level[..n], out.touched);
  }

  /** A level whose outcomes do not conflict leaves what its serial execution leaves,
      and everyone acts in that as on the state the level began with. */
  lemma {:induction false} LevelIsSerial(run: Program, s: Store, level: seq<TxId>, n: nat)
    requires WellBehaved(run) && Peaceful(run, s, level) && n <= |level|
    ensures Added(run, s, s, level[..n]) == Serial(run, s, level[..n])
    ensures n < |level| ==> run(level[n], Serial(run, s, level[..n])) == run(level[n], s)
    decreases n
  {
    hide Applied, WellBehaved, Peaceful, Serial;
    if n == 0 {
      assert level[..0] == [];
      NoneSerial(run, s);
    } else {
      LevelIsSerial(run, s, level, n - 1);
      NextIsUndisturbed(run, s, level, n - 1);
      assert level[..n][..n - 1] == level[..n - 1] && level[..n] == level[..n - 1] + [level[n - 1]];
      SerialOne(run, s, level[..n - 1], level[n - 1]);
    }
    if n < |level| {
      NextIsUndisturbed(run, s, level, n);
    }
  }

  lemma NoneSerial(run: Program, s: Store)
    ensures Serial(run, s, []) == s
  {
  }

  /** When no two outcomes of a level conflict, the levels leave what running the
      validated transactions one at a time leaves, and everyone validates again. */
  lemma {:induction false} LevelsAreSerial(run: Program, pre: Predictions, filed: seq<seq<TxId>>, levels: seq<seq<TxId>>, n: nat)
    requires WellBehaved(run) && Validated(run, pre, filed, levels) && LevelsPeaceful(run, levels) && n <= |levels|
    ensures LevelsStore(run, levels[..n]) == Serial(run, map[], Flatten(levels[..n]))
    ensures ValidatesAgain(run, pre, map[], Flatten(levels[..n]))
    decreases n
  {
    hide WellBehaved, Serial, Distinct, Added, Validates, Peaceful;
    if n == 0 {
      assert levels[..0] == [];
      NoneSerial(run, map[]);
    } else {
      var done, level := Flatten(levels[..n - 1]), levels[n - 1];
      LevelsAreSerial(run, pre, filed, levels, n - 1);
      FlattenMore(levels, n - 1);
      assert levels[..n][..n - 1] == levels[..n - 1];
      var s := LevelsStore(run, levels[..n - 1]);
      LevelIsSerial(run, s, level, |level|);
      assert level[..|level|] == level;
      SerialJoin(run, map[], done, level);
      forall i | 0 <= i < |level| ensures Validates(pre, level[i], run(level[i], Serial(run, s, level[..i]))) {
        LevelIsSerial(run, s, level, i);
        assert level[i] in level;
      }
      AgainJoin(run, pre, map[], done, level);
    }
  }

  lemma AgainJoin(run: Program, pre: Predictions, s: Store, a: seq<TxId>, b: seq<TxId>)
    requires ValidatesAgain(run, pre, s, a) && ValidatesAgain(run, pre, Serial(run, s, a), b)
    ensures ValidatesAgain(run, pre, s, a + b)
  {
    hide Serial, Validates;
    var txs := a + b;
    forall i | 0 <= i < |txs| ensures Validates(pre, txs[i], run(txs[i], Serial(run, s, txs[..i]))) {
      if i < |a| {
        assert txs[..i] == a[..i];
      } else {
        assert txs[..i] == a + b[..i - |a|];
        SerialJoin(run, s, a, b[..i - |a|]);
      }
    }
  }

  lemma WholeRun(run: Program, pre: Predictions, filed: seq<seq<TxId>>, levels: seq<seq<TxId>>)
    requires WellBehaved(run) && Validated(run, pre, filed, levels) && LevelsPeaceful(run, levels)
    ensures Committed(run, levels) && ValidatesAgain(run, pre, map[], Flatten(levels))
    ensures AsPredicted(run, pre, map[], Flatten(levels))
  {
    hide WellBehaved, Validated, LevelsPeaceful, LevelsStore, Serial, ValidatesAgain, AsPredicted, Flatten;
    LevelsAreSerial(run, pre, filed, levels, |levels|);
    assert levels[..|levels|] == levels;
    AgainIsAsPredicted(run, pre, map[], Flatten(levels));
  }

  // ------------------------------------------------------ announced addresses

  /** What the validated transactions read, where they were validated, was announced. */
  ghost predicate ReadsWithin(spec: Speculation, run: Program, levels: seq<seq<TxId>>) {
    forall i, t :: 0 <= i < |levels| && t in levels[i] ==>
                     run(t, LevelsStore(run, levels[..i])).readKeys <= spec.Reads(t)
  }

  /** The predicted deltas are those of the announced writes. */
  ghost predicate Announced(spec: Speculation, pre: Predictions) {
    forall t :: t in pre ==> pre[t].Keys == spec.Writes(t)
  }

  ghost predicate LevelApart(spec: Speculation, level: seq<TxId>) {
    forall t, u :: t in level && u in level && t != u ==> !spec.Conflicting(t, u)
  }

  /** No two transactions of one level conflict in what they announced. */
  ghost predicate LevelsApart(spec: Speculation, filed: seq<seq<TxId>>) {
    forall i :: 0 <= i < |filed| ==> LevelApart(spec, filed[i])
  }

  lemma OutcomesApart(spec: Speculation, t: TxId, u: TxId, a: Outcome, b: Outcome)
    requires !spec.Conflicting(t, u) && a.readKeys <= spec.Reads(t) && b.readKeys <= spec.Reads(u)
    requires a.deltas.Keys == spec.Writes(t) && b.deltas.Keys == spec.Writes(u)
    ensures !Conflict(a, b)
  {
    forall k | k in spec.Writes(t) ensures k !in spec.Writes(u) && k !in spec.Reads(u) {
      assert k !in spec.Writes(t) * spec.Writes(u) && k !in spec.Writes(t) * spec.Reads(u);
    }
    forall k | k in spec.Writes(u) ensures k !in spec.Reads(t) {
      assert k !in spec.Reads(t) * spec.Writes(u);
    }
  }

  /** Announced addresses that are apart keep the outcomes apart. */
  lemma ApartIsPeaceful(spec: Speculation, run: Program, pre: Predictions, filed: seq<seq<TxId>>, levels: seq<seq<TxId>>)
    requires ReadsWithin(spec, run, levels) && Announced(spec, pre)
    requires Validated(run, pre, filed, levels) && LevelsApart(spec, filed)
    ensures LevelsPeaceful(run, levels)
  {
    hide LevelsStore, Speculation.Conflicting, Conflict;
    forall n | 0 <= n < |levels| ensures Peaceful(run, LevelsStore(run, levels[..n]), levels[n]) {
      var s, level := LevelsStore(run, levels[..n]), levels[n];
      assert LevelApart(spec, filed[n]) && IsLevel(run, pre, s, filed[n], level);
      forall i, j | 0 <= i < j < |level| ensures !Conflict(run(level[i], s), run(level[j], s)) {
        var t, u := level[i], level[j];
        assert t in level && u in level && t != u;
        OutcomesApart(spec, t, u, run(t, s), run(u, s));
      }
    }
  }

  /** Every candidate writes something and stands in one level. */
  ghost predicate Parted(spec: Speculation, filed: seq<seq<TxId>>) {
    && (forall i, t :: 0 <= i < |filed| && t in filed[i] ==> spec.Writes(t) != {})
    && (forall i, j, t :: 0 <= i < j < |filed| && t in filed[i] ==> t !in filed[j])
  }

  // -------------------------------------------------------- levels of a block

  ghost function ReadBy(edges: Edges, t: TxId): set<Key> {
    if t in edges then set n | n in edges[t] && n == RWNode(t, n.key, Read) :: n.key else {}
  }

  /** The announced addresses of a block. */
  ghost function NodesOf(edges: Edges): Speculation {
    Speculation(map t | t in edges :: ReadBy(edges, t), map t | t in edges :: Written(edges, t))
  }

  lemma NodesAre(edges: Edges, t: TxId, k: Key)
    ensures k in NodesOf(edges).Reads(t) <==> HasNode(edges, RWNode(t, k, Read))
    ensures k in NodesOf(edges).Writes(t) <==> HasNode(edges, RWNode(t, k, Write))
  {
    assert k in ReadBy(edges, t) <==> HasNode(edges, RWNode(t, k, Read));
    assert k in Written(edges, t) <==> HasNode(edges, RWNode(t, k, Write));
  }

  /** Who has write nodes in a pile of the commit order. */
  function Writers(piles: seq<seq<RWNode>>): seq<TxId> {
    if piles == [] then []
    else
      var n := |piles| - 1;
      Writers(piles[..n]) + if piles[n] == [] then [] else [piles[n][0].tx]
  }

  lemma {:induction false} WritersAre(edges: Edges, piles: seq<seq<RWNode>>, pile: seq<TxId>)
    requires WellFormed(edges) && Distinct(pile) && |piles| == |pile|
    requires forall i :: 0 <= i < |pile| ==> pile[i] in edges && piles[i] == WritesOf(edges[pile[i]])
    ensures Distinct(Writers(piles)) && forall t :: t in Writers(piles) <==> t in pile && NodesOf(edges).Writes(t) != {}
  {
    hide NodesOf, WritesOf;
    if piles != [] {
      var n := |piles| - 1;
      WritersAre(edges, piles[..n], pile[..n]);
      assert pile == pile[..n] + [pile[n]];
      FirstWrite(edges, pile[n]);
      forall t | t in pile[..n] ensures t != pile[n] {
      }
    }
  }

  lemma FirstWrite(edges: Edges, t: TxId)
    requires WellFormed(edges) && t in edges
    ensures
      var ws := WritesOf(edges[t]);
      (ws == [] <==> NodesOf(edges).Writes(t) == {}) && (ws != [] ==> ws[0].tx == t)
  {
    var ws := WritesOf(edges[t]);
    hide WritesOf;
    if ws != [] {
      assert ws[0] in ws;
      assert ws[0] == RWNode(t, ws[0].key, Write);
      NodesAre(edges, t, ws[0].key);
    } else {
      forall k ensures k !in NodesOf(edges).Writes(t) {
        NodesAre(edges, t, k);
      }
    }
  }

  ghost predicate AllNumbers(order: CommitOrder, numbers: seq<int>) {
    && (forall i, j :: 0 <= i < j < |numbers| ==> numbers[i] < numbers[j])
    && (forall x :: x in numbers <==> x in order)
  }

  /** The transactions to validate, level by level. */
  ghost function Candidates(order: CommitOrder, numbers: seq<int>): seq<seq<TxId>> {
    if numbers == [] then []
    else
      var n := |numbers| - 1;
      Candidates(order, numbers[..n]) + [if numbers[n] in order then Writers(order[numbers[n]]) else []]
  }

  lemma {:induction false} CandidatesAt(order: CommitOrder, numbers: seq<int>, i: nat)
    requires i < |numbers| && numbers[i] in order
    ensures |Candidates(order, numbers)| == |numbers| && Candidates(order, numbers)[i] == Writers(order[numbers[i]])
  {
    hide Writers;
    CandidatesCount(order, numbers);
    var n := |numbers| - 1;
    CandidatesCount(order, numbers[..n]);
    if i < n {
      CandidatesAt(order, numbers[..n], i);
    }
  }

  lemma {:induction false} CandidatesCount(order: CommitOrder, numbers: seq<int>)
    ensures |Candidates(order, numbers)| == |numbers|
  {
    if numbers != [] {
      CandidatesCount(order, numbers[..|numbers| - 1]);
    }
  }

  /** Level by level, the survivors that write something and have that number. */
  ghost predicate ByNumber(edges: Edges, s: State, numbers: seq<int>, filed: seq<seq<TxId>>) {
    && |filed| == |numbers| && (forall i, j :: 0 <= i < j < |numbers| ==> numbers[i] < numbers[j])
    && (forall i, t :: 0 <= i < |filed| ==> (t in filed[i] <==> Surviving(edges, s, t) && Num(s, t) == numbers[i]))
    && (forall t :: Surviving(edges, s, t) ==> Num(s, t) in numbers)
  }

  ghost predicate Surviving(edges: Edges, s: State, t: TxId) {
    t in edges && Live(s, t) && NodesOf(edges).Writes(t) != {}
  }

  lemma PileWriters(edges: Edges, s: State, order: CommitOrder, filed: map<int, seq<TxId>>, x: int)
    requires WellFormed(edges) && IsCommitOrder(edges, s, order, filed) && x in order
    ensures Distinct(Writers(order[x])) && forall t :: t in Writers(order[x]) <==> Surviving(edges, s, t) && Num(s, t) == x
  {
    hide Writers, NodesOf, Num, Live, WritesOf, WellFormed;
    var ids :| Filing(edges, s, ids, order, filed) && forall t :: t in ids <==> t in edges;
    assert IsPile(edges, s, ids, x, order[x], filed[x]);
    forall i | 0 <= i < |filed[x]| ensures filed[x][i] in edges {
      assert filed[x][i] in filed[x];
    }
    WritersAre(edges, order[x], filed[x]);
  }

  /** What the commit order of a block makes of the levels. */
  lemma CandidatesByNumber(edges: Edges, s: State, order: CommitOrder, filed: map<int, seq<TxId>>, numbers: seq<int>)
    requires WellFormed(edges) && IsCommitOrder(edges, s, order, filed) && AllNumbers(order, numbers)
    ensures ByNumber(edges, s, numbers, Candidates(order, numbers)) && Parted(NodesOf(edges), Candidates(order, numbers))
  {
    hide Writers, NodesOf, Num, Live, WellFormed, Candidates, Surviving, Filing;
    var levels := Candidates(order, numbers);
    CandidatesCount(order, numbers);
    forall i, t | 0 <= i < |levels| ensures t in levels[i] <==> Surviving(edges, s, t) && Num(s, t) == numbers[i] {
      assert numbers[i] in numbers;
      CandidatesAt(order, numbers, i);
      PileWriters(edges, s, order, filed, numbers[i]);
    }
    forall t | Surviving(edges, s, t) ensures Num(s, t) in numbers {
      SurvivorIsFiled(edges, s, order, filed, t);
    }
    NumberedIsParted(edges, s, numbers, levels);
  }

  lemma SurvivorIsFiled(edges: Edges, s: State, order: CommitOrder, filed: map<int, seq<TxId>>, t: TxId)
    requires IsCommitOrder(edges, s, order, filed) && Surviving(edges, s, t)
    ensures Num(s, t) in order
  {
    hide NodesOf, Num, IsPile;
    var ids :| Filing(edges, s, ids, order, filed) && forall t :: t in ids <==> t in edges;
    assert t in ids;
  }

  lemma NumberedIsParted(edges: Edges, s: State, numbers: seq<int>, filed: seq<seq<TxId>>)
    requires ByNumber(edges, s, numbers, filed)
    ensures Parted(NodesOf(edges), filed)
  {
    hide NodesOf, Num, Live;
    forall i, t | 0 <= i < |filed| && t in filed[i] ensures NodesOf(edges).Writes(t) != {} && Num(s, t) == numbers[i] {
      assert Surviving(edges, s, t);
    }
    forall i, j, t | 0 <= i < j < |filed| && t in filed[i] ensures t !in filed[j] {
      var x, y := numbers[i], numbers[j];
      assert x < y && Num(s, t) == x;
      assert t in filed[j] ==> Num(s, t) == y;
    }
  }

  /** On layered numbers the levels are apart exactly if at every address the surviving
      writers are: a reader never stands in a level with another's write. */
  lemma LayeredLevels(edges: Edges, s: State, sequence: map<RWNode, int>, numbers: seq<int>, filed: seq<seq<TxId>>)
    requires LayeredNodes(edges, sequence, s.aborted) && Links(edges, s, sequence) && ByNumber(edges, s, numbers, filed)
    ensures LevelsApart(NodesOf(edges), filed) <==> forall k :: WritersApart(edges, s, k)
  {
    hide LayeredNodes, Links, NodesOf, Num, Live, HasNode, Speculation.Conflicting;
    if forall k :: WritersApart(edges, s, k) {
      forall i, t, u | 0 <= i < |filed| && t in filed[i] && u in filed[i] && t != u
        ensures !NodesOf(edges).Conflicting(t, u)
      {
        LevelMates(edges, s, sequence, t, u);
      }
    }
    if LevelsApart(NodesOf(edges), filed) {
      forall k, t, u | t != u && LiveWriter(edges, s, k, t) && LiveWriter(edges, s, k, u) ensures Num(s, t) != Num(s, u) {
        WriterSurvives(edges, s, k, t);
        WriterSurvives(edges, s, k, u);
        var i :| 0 <= i < |numbers| && numbers[i] == Num(s, t);
        assert t in filed[i] && LevelApart(NodesOf(edges), filed[i]);
        SharedIsConflict(edges, k, t, u);
      }
    }
  }

  lemma WriterSurvives(edges: Edges, s: State, k: Key, t: TxId)
    requires LiveWriter(edges, s, k, t)
    ensures Surviving(edges, s, t)
  {
    NodesAre(edges, t, k);
  }

  lemma SharedIsConflict(edges: Edges, k: Key, t: TxId, u: TxId)
    requires HasNode(edges, RWNode(t, k, Write)) && HasNode(edges, RWNode(u, k, Write))
    ensures NodesOf(edges).Conflicting(t, u)
  {
    hide NodesOf;
    NodesAre(edges, t, k);
    NodesAre(edges, u, k);
    assert k in NodesOf(edges).Writes(t) * NodesOf(edges).Writes(u);
  }

  lemma LevelMates(edges: Edges, s: State, sequence: map<RWNode, int>, t: TxId, u: TxId)
    requires LayeredNodes(edges, sequence, s.aborted) && Links(edges, s, sequence) && forall k :: WritersApart(edges, s, k)
    requires t != u && Surviving(edges, s, t) && Surviving(edges, s, u) && Num(s, t) == Num(s, u)
    ensures !NodesOf(edges).Conflicting(t, u)
  {
    hide LayeredNodes, Links, NodesOf, Num, HasNode;
    var spec := NodesOf(edges);
    forall k ensures k !in spec.Writes(t) * spec.Writes(u) && k !in spec.Reads(t) * spec.Writes(u) &&
                     k !in spec.Writes(t) * spec.Reads(u)
    {
      NodesAre(edges, t, k);
      NodesAre(edges, u, k);
      assert WritersApart(edges, s, k);
      NotBelow(edges, s, sequence, t, u, k);
      NotBelow(edges, s, sequence, u, t, k);
    }
  }

  /** A survivor that reads an address has another number than one that writes it. */
  lemma NotBelow(edges: Edges, s: State, sequence: map<RWNode, int>, t: TxId, u: TxId, k: Key)
    requires LayeredNodes(edges, sequence, s.aborted) && Links(edges, s, sequence)
    requires t != u && Live(s, t) && Live(s, u) && Num(s, t) == Num(s, u)
    ensures !(HasNode(edges, RWNode(t, k, Read)) && HasNode(edges, RWNode(u, k, Write)))
  {
    hide Num, HasNode;
    var r, w := RWNode(t, k, Read), RWNode(u, k, Write);
    RmwsOnOwnLevels(edges, s, sequence, t, u, k);
    assert HasNode(edges, r) && HasNode(edges, w) ==> Num(s, r.tx) < Num(s, w.tx);
  }

  lemma RmwsOnOwnLevels(edges: Edges, s: State, sequence: map<RWNode, int>, t: TxId, u: TxId, k: Key)
    requires LayeredNodes(edges, sequence, s.aborted) && Links(edges, s, sequence)
    requires t != u && Live(s, t) && Live(s, u)
    ensures BothAt(edges, t, k) && BothAt(edges, u, k) ==> Num(s, t) != Num(s, u)
  {
    hide Num, HasNode;
    var w, w' := RWNode(t, k, Write), RWNode(u, k, Write);
    assert BothAt(edges, t, k) && BothAt(edges, u, k) ==> HasNode(edges, w) && HasNode(edges, w');
  }

  // --------------------------------------------------------- the level loop

  datatype ValidatedTransaction = ValidatedTransaction(tx: TxId, writeDelta: map<Key, int>)

  ghost function Txs(valid: seq<ValidatedTransaction>): seq<TxId> {
    seq(|valid|, i requires 0 <= i < |valid| => valid[i].tx)
  }

  ghost predicate FromState(run: Program, s: Store, valid: seq<ValidatedTransaction>) {
    forall v :: v in valid ==> v.writeDelta == run(v.tx, s).deltas
  }

  /** `WriteDeltaEqual`: as many keys, and every key of the one in the other with the same delta. */
  method WriteDeltaEqual(set1: map<Key, int>, set2: map<Key, int>) returns (equal: bool)
    ensures equal <==> (forall k :: k in set1 <==> k in set2) && forall k :: k in set1 && k in set2 ==> set1[k] == set2[k]
  {
    if |set1| != |set2| {
      assert set1.Keys != set2.Keys;
      return false;
    }
    var todo := set1.Keys;
    while todo != {}
      invariant todo <= set1.Keys && forall k :: k in set1 && k !in todo ==> k in set2 && set2[k] == set1[k]
      decreases todo
    {
      var k :| k in todo;
      if k !in set2 || set1[k] != set2[k] {
        return false;
      }
      todo := todo - {k};
    }
    SameSizeIsSame(set1.Keys, set2.Keys);
    return true;
  }

  lemma SameSizeIsSame(a: set<Key>, b: set<Key>)
    requires a <= b && |a| == |b|
    ensures a == b
  {
    assert b == a + (b - a);
  }

  lemma ValidatesIs(pre: Predictions, t: TxId, out: Outcome)
    ensures Validates(pre, t, out) <==>
            && t in pre && !out.failed && (forall k :: k in pre[t] <==> k in out.deltas)
            && forall k :: k in pre[t] && k in out.deltas ==> pre[t][k] == out.deltas[k]
  {
    if t in pre && (forall k :: k in pre[t] <==> k in out.deltas) {
      assert pre[t].Keys == out.deltas.Keys;
    }
  }

  /** The workers of a level: each executes one transaction again on the state the
      level began with; they end in any order. */
  method ValidateLevel(run: Program, pre: Predictions, candidates: seq<TxId>, levelState: Store)
    returns (valid: seq<ValidatedTransaction>, failed: nat)
    requires Distinct(candidates)
    ensures IsLevel(run, pre, levelState, candidates, Txs(valid)) && FromState(run, levelState, valid)
    ensures |valid| + failed == |candidates|
  {
    hide Validates;
    valid, failed := [], 0;
    var todo := set t | t in candidates;
    DistinctSize(candidates);
    assert todo == Elements(candidates);
    while todo != {}
      invariant todo <= Elements(candidates) && |valid| + failed + |todo| == |candidates|
      invariant FromState(run, levelState, valid) && Distinct(Txs(valid))
      invariant forall t :: t in Txs(valid) <==> t in candidates && t !in todo && Validates(pre, t, run(t, levelState))
      decreases todo
    {
      var t :| t in todo;
      todo := todo - {t};
      var out := run(t, levelState);
      var ok := t in pre && !out.failed;
      if ok {
        ok := WriteDeltaEqual(pre[t], out.deltas);
      }
      assert ok <==> Validates(pre, t, out) by { ValidatesIs(pre, t, out); }
      if ok {
        TxsMore(valid, ValidatedTransaction(t, out.deltas));
        valid := valid + [ValidatedTransaction(t, out.deltas)];
      } else {
        failed := failed + 1;
      }
    }
  }

  lemma TxsMore(valid: seq<ValidatedTransaction>, v: ValidatedTransaction)
    ensures Txs(valid + [v]) == Txs(valid) + [v.tx]
  {
  }

  /** Adds one transaction's deltas, key by key in whatever order the map is traversed. */
  method AddDelta(committed: Store, writeDelta: map<Key, int>) returns (updated: Store)
    ensures updated == Applied(committed, writeDelta)
  {
    hide FromBytes, ToBytes, Bumped, Applied;
    updated := committed;
    var done: map<Key, int>, todo := map[], writeDelta.Keys;
    assert Applied(committed, done) == committed by { NothingApplied(committed); }
    while todo != {}
      invariant todo <= writeDelta.Keys
      invariant done == map k | k in writeDelta && k !in todo :: writeDelta[k]
      invariant updated == Applied(committed, done)
      decreases todo
    {
      var key :| key in todo;
      AppliedExtends(committed, done, key, writeDelta[key]);
      var current := FromBytes(Word(updated, key));
      updated := updated[key := ToBytes(Bumped(current, writeDelta[key]))];
      done, todo := done[key := writeDelta[key]], todo - {key};
    }
    assert done == writeDelta by { hide *; }
  }

  lemma NothingApplied(s: Store)
    ensures Applied(s, map[]) == s
  {
  }

  /** Adds the deltas of the validated transactions, in the order they ended. */
  method AddLevel(committed: Store, valid: seq<ValidatedTransaction>, ghost run: Program) returns (updated: Store)
    requires FromState(run, committed, valid)
    ensures updated == Added(run, committed, committed, Txs(valid))
  {
    hide Applied;
    updated := committed;
    for i := 0 to |valid|
      invariant updated == Added(run, committed, committed, Txs(valid[..i]))
    {
      assert valid[i] in valid && valid[..i + 1] == valid[..i] + [valid[i]];
      TxsMore(valid[..i], valid[i]);
      AddedMore(run, committed, committed, Txs(valid[..i]), valid[i].tx);
      updated := AddDelta(updated, valid[i].writeDelta);
    }
    assert valid[..|valid|] == valid;
  }

  lemma AddedMore(run: Program, base: Store, s: Store, level: seq<TxId>, t: TxId)
    ensures Added(run, base, s, level + [t]) == Applied(Added(run, base, s, level), run(t, base).deltas)
  {
    hide Applied;
    assert (level + [t])[..|level|] == level;
  }

  lemma ValidatedMore(run: Program, pre: Predictions, filed: seq<seq<TxId>>, levels: seq<seq<TxId>>,
                      candidates: seq<TxId>, level: seq<TxId>)
    requires Validated(run, pre, filed, levels) && IsLevel(run, pre, LevelsStore(run, levels), candidates, level)
    ensures Validated(run, pre, filed + [candidates], levels + [level])
    ensures
      var s := LevelsStore(run, levels);
      LevelsStore(run, levels + [level]) == Added(run, s, s, level)
  {
    hide IsLevel, Added;
    var filed', levels' := filed + [candidates], levels + [level];
    assert levels'[..|levels|] == levels;
    forall i | 0 <= i < |filed'| ensures IsLevel(run, pre, LevelsStore(run, levels'[..i]), filed'[i], levels'[i]) {
      if i < |filed| {
        assert levels'[..i] == levels[..i];
      }
    }
  }

  lemma CandidatesMore(order: CommitOrder, numbers: seq<int>, i: nat)
    requires i < |numbers| && numbers[i] in order
    ensures Candidates(order, numbers[..i + 1]) == Candidates(order, numbers[..i]) + [Writers(order[numbers[i]])]
  {
    hide Writers;
    assert numbers[..i + 1][..i] == numbers[..i];
  }

  lemma FlattenOne<T>(ss: seq<seq<T>>, s: seq<T>)
    ensures Flatten(ss + [s]) == Flatten(ss) + s
  {
    assert (ss + [s])[..|ss|] == ss;
  }

  /** Validates and adds level by level, in increasing order. */
  method CommitLevels(run: Program, pre: Predictions, order: CommitOrder)
    returns (committed: Store, failed: nat, ghost numbers: seq<int>, ghost levels: seq<seq<TxId>>)
    requires forall x :: x in order ==> Distinct(Writers(order[x]))
    ensures AllNumbers(order, numbers) && Validated(run, pre, Candidates(order, numbers), levels)
    ensures committed == LevelsStore(run, levels)
    ensures |Flatten(levels)| + failed == |Flatten(Candidates(order, numbers))|
  {
    hide IsLevel, Added, Writers, Candidates, Validated, LevelsStore, Flatten, FromState, Distinct;
    var keys := SortedNumbers(order.Keys);
    numbers, levels := keys, [];
    committed, failed := map[], 0;
    NoLevels(run, pre, order, keys);
    for i := 0 to |keys|
      invariant Validated(run, pre, Candidates(order, keys[..i]), levels) && committed == LevelsStore(run, levels)
      invariant |Flatten(levels)| + failed == |Flatten(Candidates(order, keys[..i]))|
    {
      assert keys[i] in keys;
      var candidates := Writers(order[keys[i]]);
      var valid, missed := ValidateLevel(run, pre, candidates, committed);
      CandidatesMore(order, keys, i);
      ValidatedMore(run, pre, Candidates(order, keys[..i]), levels, candidates, Txs(valid));
      FlattenOne(Candidates(order, keys[..i]), candidates);
      FlattenOne(levels, Txs(valid));
      committed := AddLevel(committed, valid, run);
      failed, levels := failed + missed, levels + [Txs(valid)];
    }
    assert keys[..|keys|] == keys;
  }

  lemma NoLevels(run: Program, pre: Predictions, order: CommitOrder, keys: seq<int>)
    ensures Validated(run, pre, Candidates(order, keys[..0]), []) && LevelsStore(run, []) == map[]
    ensures |Flatten<TxId>([])| == |Flatten(Candidates(order, keys[..0]))| == 0
  {
  }

  // ------------------------------------------------------------ whole blocks

  /** A block through the variant and its level loop.  Nobody is lost: every survivor
      that writes is validated or counted.  When no two validated outcomes of a level
      conflict, the committed state is the serial execution of the validated
      transactions by number, and each of them validates again in it.  They do not
      conflict when re-execution stays within the nodes and the levels' nodes are apart;
      when the addresses' dependencies have no cycle, these are apart exactly if at
      every address the writers are. */
  method ProcessVariable(rwNodes: seq<seq<RWNode>>, run: Program, pre: Predictions)
    returns (cq: QueueGraph, committed: Store, failed: nat, ghost numbers: seq<int>, ghost filed: seq<seq<TxId>>,
             ghost levels: seq<seq<TxId>>)
    requires IsBlock(rwNodes) && (exists n :: InBlock(rwNodes, n)) && INITIAL_SEQUENCE + NodeCount(rwNodes) < MAX_INT32
    requires [] !in rwNodes
    ensures forall n :: HasNode(cq.edges, n) <==> InBlock(rwNodes, n)
    ensures ByNumber(cq.edges, cq.Now(), numbers, filed) && Validated(run, pre, filed, levels)
    ensures committed == LevelsStore(run, levels) && |Flatten(levels)| + failed == |Flatten(filed)|
    ensures WellBehaved(run) && LevelsPeaceful(run, levels) ==>
              && committed == Serial(run, map[], Flatten(levels)) && ValidatesAgain(run, pre, map[], Flatten(levels))
              && AsPredicted(run, pre, map[], Flatten(levels))
    ensures LevelsApart(NodesOf(cq.edges), filed) && ReadsWithin(NodesOf(cq.edges), run, levels) &&
            Announced(NodesOf(cq.edges), pre) ==>
              LevelsPeaceful(run, levels)
    ensures AcyclicKeys(cq.edges) ==>
              (LevelsApart(NodesOf(cq.edges), filed) <==> forall k :: WritersApart(cq.edges, cq.Now(), k))
  {
    hide IsBlock, InBlock, NodeCount, InBlockOrder, IsCommitOrder, AcyclicKeys, Ordered, ApartNodes, LayeredNodes, SafeReads,
         FiledTxs, AllWritesOf, Displaced, HasNode, Writers, Candidates, Validated, LevelsStore, Flatten, ByNumber, AllNumbers,
         LevelsApart, WritersApart, ReadsWithin, Announced, WellBehaved, ValidatesAgain, AsPredicted, Serial, NodesOf, Distinct,
         LevelsPeaceful, AllQueues, SameNodes, IsRanked, IsTrace, Undecided, AbortedBefore;
    var order, commitOrder, abortedNum;
    ghost var piles, queues, trace;
    cq, order, commitOrder, abortedNum, piles, queues, trace := ProcessTransactions(rwNodes, true);
    DistinctWriters(cq, commitOrder, piles);
    committed, failed, numbers, levels := CommitLevels(run, pre, commitOrder);
    filed := Candidates(commitOrder, numbers);
    CandidatesByNumber(cq.edges, cq.Now(), commitOrder, piles, numbers);
    if AcyclicKeys(cq.edges) {
      NodesAreLinked(cq);
      LayeredLevels(cq.edges, cq.Now(), cq.sequence, numbers, filed);
    }
    if LevelsApart(NodesOf(cq.edges), filed) && ReadsWithin(NodesOf(cq.edges), run, levels) &&
       Announced(NodesOf(cq.edges), pre) {
      ApartIsPeaceful(NodesOf(cq.edges), run, pre, filed, levels);
    }
    if WellBehaved(run) && LevelsPeaceful(run, levels) {
      WholeRun(run, pre, filed, levels);
    }
  }

  lemma DistinctWriters(cq: QueueGraph, commitOrder: CommitOrder, piles: map<int, seq<TxId>>)
    requires cq.Linked() && IsCommitOrder(cq.edges, cq.Now(), commitOrder, piles)
    ensures forall x :: x in commitOrder ==> Distinct(Writers(commitOrder[x]))
  {
    hide IsCommitOrder, Writers, Distinct;
    forall x | x in commitOrder ensures Distinct(Writers(commitOrder[x])) {
      PileWriters(cq.edges, cq.Now(), commitOrder, piles, x);
    }
  }

  lemma NodesAreLinked(cq: QueueGraph)
    requires cq.Linked()
    ensures Links(cq.edges, cq.Now(), cq.sequence)
  {
  }
}

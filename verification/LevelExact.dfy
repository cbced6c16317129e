/**
 When the level loop commits serially, exactly.  Transactions are given by what they
 write: words that depend on the words they read.  Re-execution turns them into deltas
 against the state it runs on, and the predictions are the deltas that pre-execution on
 the initial state recorded.
 */
module LevelExact {
  import opened Sequences
  import opened Deltas
  import opened Footprint
  import opened AddressQueues
  import opened Nezha
  import opened SnapshotCommit
  import opened LevelCommit

  /** The words each transaction writes, given the state it runs on. */
  type Body = (TxId, Store) -> map<Key, nat>

  ghost predicate SameWords(s: Store, s': Store, keys: set<Key>) {
    forall k :: k in keys ==> ToHash(Word(s, k)) == ToHash(Word(s', k))
  }

  /** A transaction writes 32-byte words to its announced writes, and they depend on
      the words of its announced reads. */
  ghost predicate IsBody(spec: Speculation, f: Body) {
    && (forall t, s :: f(t, s).Keys == spec.Writes(t))
    && (forall t, s, k :: k in f(t, s) ==> f(t, s)[k] < TWO_256)
    && (forall t, s, s' :: SameWords(s, s', spec.Reads(t)) ==> f(t, s) == f(t, s'))
  }

  /** Re-execution: the delta of a word is taken against the word that was read or, for
      a key that was not read, against the stored bytes. */
  function Yield(spec: Speculation, f: Body, t: TxId, s: Store): Outcome {
    var words := f(t, s);
    Outcome(spec.Reads(t),
            map k | k in words :: NormalisedDelta(ReadValue(s, k, k in spec.Reads(t)), words[k] % TWO_256),
            false)
  }

  function Execution(spec: Speculation, f: Body): Program {
    (t, s) => Yield(spec, f, t, s)
  }

  /** `RWNodesToContext`: pre-execution on the initial state.  The delta of a key that
      was read is normalised; a key that was not read keeps the word itself. */
  function Context(spec: Speculation, f: Body, t: TxId): map<Key, int> {
    var words := f(t, map[]);
    map k | k in words ::
      if k in spec.Reads(t) then NormalisedDelta(ReadValue(map[], k, true), words[k] % TWO_256) else words[k]
  }

  /** Every transaction of `txs` has a context. */
  function Contexts(spec: Speculation, f: Body, txs: set<TxId>): Predictions {
    map t | t in txs :: Context(spec, f, t)
  }

  lemma BodyKeys(spec: Speculation, f: Body, t: TxId, s: Store)
    requires IsBody(spec, f)
    ensures f(t, s).Keys == spec.Writes(t) && forall k :: k in f(t, s) ==> f(t, s)[k] < TWO_256
  {
  }

  lemma BodyRepeats(spec: Speculation, f: Body, t: TxId, s: Store, s': Store)
    requires IsBody(spec, f) && SameWords(s, s', spec.Reads(t))
    ensures f(t, s) == f(t, s')
  {
  }

  lemma YieldRepeats(spec: Speculation, f: Body, t: TxId, s: Store, s': Store)
    requires IsBody(spec, f) && Agree(s, s', spec.Reads(t) + spec.Writes(t))
    ensures Yield(spec, f, t, s') == Yield(spec, f, t, s)
  {
    hide ToHash, FromBytes, NormalisedDelta, IsBody;
    BodyKeys(spec, f, t, s);
    BodyRepeats(spec, f, t, s, s');
    forall k | k in f(t, s) ensures ReadValue(s, k, k in spec.Reads(t)) == ReadValue(s', k, k in spec.Reads(t)) {
      assert Word(s, k) == Word(s', k);
    }
  }

  lemma ExecutionIsWellBehaved(spec: Speculation, f: Body)
    requires IsBody(spec, f)
    ensures WellBehaved(Execution(spec, f))
  {
    hide IsBody, Agree;
    var run := Execution(spec, f);
    forall t, s, s' | Agree(s, s', run(t, s).touched) ensures run(t, s') == run(t, s) {
      BodyKeys(spec, f, t, s);
      assert run(t, s).touched == spec.Reads(t) + spec.Writes(t);
      YieldRepeats(spec, f, t, s, s');
    }
  }

  lemma ContextsAreAnnounced(spec: Speculation, f: Body, txs: set<TxId>)
    requires IsBody(spec, f)
    ensures Announced(spec, Contexts(spec, f, txs))
  {
    hide NormalisedDelta, ReadValue;
  }

  // ------------------------------------------------------ validating alone

  lemma NothingToRead(k: Key, wasRead: bool)
    ensures ReadValue(map[], k, wasRead) == 0
  {
    hide FromBytes, ToHash;
    EmptyWord(k);
    HashIsValueMod256([]);
  }

  lemma PlainDelta(w: nat)
    requires w < TWO_256
    ensures NormalisedDelta(0, w) == w <==> w < TWO_255
  {
  }

  /** Pre-execution does not normalise the delta of a blind write, re-execution does:
      a transaction validates on the very state it was predicted on if and only if
      every word it writes without a read is below 2^255. */
  lemma ValidatesAlone(spec: Speculation, f: Body, txs: set<TxId>, t: TxId)
    requires IsBody(spec, f) && t in txs
    ensures Validates(Contexts(spec, f, txs), t, Yield(spec, f, t, map[])) <==>
            forall k :: k in spec.Writes(t) && k !in spec.Reads(t) ==> f(t, map[])[k] < TWO_255
  {
    hide Yield, Context, IsBody;
    var words, out, context := f(t, map[]), Yield(spec, f, t, map[]), Context(spec, f, t);
    BodyKeys(spec, f, t, map[]);
    AloneKeys(spec, f, t);
    forall k | k in words ensures out.deltas[k] == context[k] <==> k in spec.Reads(t) || words[k] < TWO_255 {
      AloneAt(spec, f, t, k);
    }
    SameMaps(out.deltas, context);
  }

  lemma AloneKeys(spec: Speculation, f: Body, t: TxId)
    ensures Yield(spec, f, t, map[]).deltas.Keys == Context(spec, f, t).Keys == f(t, map[]).Keys
    ensures !Yield(spec, f, t, map[]).failed
  {
    hide NormalisedDelta, ReadValue;
  }

  lemma AloneAt(spec: Speculation, f: Body, t: TxId, k: Key)
    requires k in f(t, map[]) && f(t, map[])[k] < TWO_256
    ensures Yield(spec, f, t, map[]).deltas[k] == Context(spec, f, t)[k] <==> k in spec.Reads(t) || f(t, map[])[k] < TWO_255
  {
    hide NormalisedDelta, ReadValue;
    NothingToRead(k, k in spec.Reads(t));
    PlainDelta(f(t, map[])[k]);
  }

  lemma SameMaps(a: map<Key, int>, b: map<Key, int>)
    requires a.Keys == b.Keys
    ensures a == b <==> forall k :: k in a ==> a[k] == b[k]
  {
  }

  /** Such a transaction: it writes 2^255 to one key and reads nothing. */
  lemma LargeBlindWrite()
    ensures
      var spec, f := Speculation(map[], map["t" := {"k"}]), LargeWords();
      IsBody(spec, f) && !Validates(Contexts(spec, f, {"t"}), "t", Yield(spec, f, "t", map[]))
  {
    var spec, f := Speculation(map[], map["t" := {"k"}]), LargeWords();
    assert forall t, s :: f(t, s).Keys == spec.Writes(t);
    hide Yield, Contexts, Validates;
    ValidatesAlone(spec, f, {"t"}, "t");
    assert "k" in spec.Writes("t") && "k" !in spec.Reads("t") && f("t", map[])["k"] == TWO_255;
  }

  function LargeWords(): Body {
    (t: TxId, s: Store) => if t == "t" then map["k" := TWO_255 as nat] else map[]
  }

  // ------------------------------------------------------------ small values

  ghost function Value(s: Store, k: Key): nat {
    FromBytes(Word(s, k))
  }

  lemma ValueAfter(s: Store, deltas: map<Key, int>, k: Key)
    ensures Value(Applied(s, deltas), k) == if k in deltas then Bumped(Value(s, k), deltas[k]) else Value(s, k)
  {
    hide FromBytes, ToBytes, Bumped;
  }

  lemma SmallDelta(v: nat, w: nat)
    requires v <= 3 && w <= 3
    ensures NormalisedDelta(v, w) == w - v && Bumped(v, w - v) == w && w % TWO_256 == w && Bumped(v, 0) == v
  {
  }

  lemma SmallRead(s: Store, k: Key, wasRead: bool)
    requires Value(s, k) <= 3
    ensures ReadValue(s, k, wasRead) == Value(s, k)
  {
    hide FromBytes, ToHash;
    HashIsValueMod256(Word(s, k));
  }

  /** On small values a word is written by its difference to what is there. */
  lemma SmallYield(spec: Speculation, f: Body, t: TxId, s: Store, k: Key)
    requires k in f(t, s) && f(t, s)[k] <= 3 && Value(s, k) <= 3
    ensures
      var out := Yield(spec, f, t, s);
      out.deltas[k] == f(t, s)[k] - Value(s, k) && Value(Applied(s, out.deltas), k) == f(t, s)[k]
  {
    hide NormalisedDelta, ReadValue, Value, Bumped, Applied;
    SmallRead(s, k, k in spec.Reads(t));
    SmallDelta(Value(s, k), f(t, s)[k]);
    ValueAfter(s, Yield(spec, f, t, s).deltas, k);
  }

  lemma SmallContext(spec: Speculation, f: Body, t: TxId, k: Key)
    requires k in f(t, map[]) && f(t, map[])[k] <= 3
    ensures Context(spec, f, t)[k] == f(t, map[])[k]
  {
    hide NormalisedDelta, ReadValue;
    NothingToRead(k, true);
    SmallDelta(0, f(t, map[])[k]);
  }

  // --------------------------------------------- two that conflict in a level

  /** `t` writes `k`, which `u` reads or writes too. */
  datatype Clash = Clash(spec: Speculation, t: TxId, u: TxId, k: Key)

  ghost predicate IsClash(c: Clash) {
    c.t != c.u && c.k in c.spec.Writes(c.t) && c.k in c.spec.Reads(c.u) + c.spec.Writes(c.u) && c.spec.Writes(c.u) != {}
  }

  /** `t` writes 1; so does `u`, but 3 if it reads `k` and finds something there;
      everyone else writes 0. */
  function Told(c: Clash, x: TxId, s: Store): nat {
    if x == c.t then 1
    else if x != c.u then 0
    else if c.k in c.spec.Reads(c.u) && ToHash(Word(s, c.k)) != ToHash([]) then 3
    else 1
  }

  function Telling(c: Clash): Body {
    (x, s) => map k | k in c.spec.Writes(x) :: Told(c, x, s)
  }

  lemma TellingIsBody(c: Clash)
    ensures IsBody(c.spec, Telling(c))
  {
    hide ToHash;
    var f := Telling(c);
    forall x, s, s' | SameWords(s, s', c.spec.Reads(x)) ensures f(x, s) == f(x, s') {
      assert Told(c, x, s) == Told(c, x, s');
    }
  }

  ghost function RunOf(c: Clash): Program {
    Execution(c.spec, Telling(c))
  }

  ghost predicate Zero(s: Store) {
    forall k :: Value(s, k) == 0
  }

  lemma NothingIsZero()
    ensures Zero(map[])
  {
    forall k ensures Value(map[], k) == 0 {
      EmptyWord(k);
    }
  }

  lemma HashOfSmall(s: Store, k: Key)
    requires Value(s, k) <= 3
    ensures ToHash(Word(s, k)) == ToHash([]) <==> Value(s, k) == 0
  {
    hide FromBytes, ToHash;
    HashIsValueMod256(Word(s, k));
    HashIsValueMod256([]);
    EmptyWord(k);
    assert Word(map[], k) == [];
    if FromBytes(ToHash(Word(s, k))) == FromBytes(ToHash([])) {
      FromBytesInjective(ToHash(Word(s, k)), ToHash([]));
    }
  }

  lemma ToldOnZero(c: Clash, x: TxId, s: Store)
    requires Zero(s)
    ensures Told(c, x, s) == if x == c.t || x == c.u then 1 else 0
  {
    hide ToHash, Value;
    HashOfSmall(s, c.k);
  }

  /** On zeros everyone's delta is the word it writes. */
  lemma YieldOnZero(c: Clash, x: TxId, s: Store)
    requires Zero(s)
    ensures RunOf(c)(x, s) == Outcome(c.spec.Reads(x), map k | k in c.spec.Writes(x) :: if x == c.t || x == c.u then 1 else 0, false)
  {
    hide Value, Told;
    ToldOnZero(c, x, s);
    var f := Telling(c);
    forall k | k in c.spec.Writes(x) ensures Yield(c.spec, f, x, s).deltas[k] == if x == c.t || x == c.u then 1 else 0 {
      SmallYield(c.spec, f, x, s, k);
    }
  }

  /** On zeros everyone validates. */
  lemma ValidOnZero(c: Clash, txs: set<TxId>, x: TxId, s: Store)
    requires Zero(s) && x in txs
    ensures Validates(Contexts(c.spec, Telling(c), txs), x, RunOf(c)(x, s))
  {
    hide Value, Told, RunOf;
    YieldOnZero(c, x, s);
    NothingIsZero();
    ToldOnZero(c, x, map[]);
    var f := Telling(c);
    forall k | k in c.spec.Writes(x) ensures Context(c.spec, f, x)[k] == if x == c.t || x == c.u then 1 else 0 {
      SmallContext(c.spec, f, x, k);
    }
  }

  /** Where something stands, nobody else who writes there validates. */
  lemma InvalidOnMore(c: Clash, txs: set<TxId>, x: TxId, s: Store, k: Key)
    requires x in txs && x != c.t && x != c.u && k in c.spec.Writes(x) && 1 <= Value(s, k) <= 3
    ensures !Validates(Contexts(c.spec, Telling(c), txs), x, RunOf(c)(x, s))
  {
    hide Value;
    var f := Telling(c);
    SmallYield(c.spec, f, x, s, k);
    SmallContext(c.spec, f, x, k);
    assert RunOf(c)(x, s).deltas[k] != Contexts(c.spec, f, txs)[x][k];
  }

  // ------------------------------------------------------- zeros stay zeros

  ghost predicate Others(c: Clash, txs: seq<TxId>) {
    c.t !in txs && c.u !in txs
  }

  lemma ZeroStays(c: Clash, x: TxId, base: Store, s: Store)
    requires Zero(base) && Zero(s) && x != c.t && x != c.u
    ensures Zero(Applied(s, RunOf(c)(x, base).deltas))
  {
    hide Value, RunOf, Applied, Bumped;
    YieldOnZero(c, x, base);
    forall k ensures Value(Applied(s, RunOf(c)(x, base).deltas), k) == 0 {
      ValueAfter(s, RunOf(c)(x, base).deltas, k);
      SmallDelta(0, 0);
    }
  }

  lemma {:induction false} ZeroAdded(c: Clash, base: Store, s: Store, level: seq<TxId>)
    requires Zero(base) && Zero(s) && Others(c, level)
    ensures Zero(Added(RunOf(c), base, s, level))
  {
    hide Zero, RunOf, Applied;
    if level != [] {
      var n := |level| - 1;
      assert level[n] in level;
      ZeroAdded(c, base, s, level[..n]);
      ZeroStays(c, level[n], base, Added(RunOf(c), base, s, level[..n]));
    }
  }

  lemma {:induction false} ZeroSerial(c: Clash, s: Store, txs: seq<TxId>)
    requires Zero(s) && Others(c, txs)
    ensures Zero(Serial(RunOf(c), s, txs))
    decreases |txs|
  {
    hide Zero, RunOf, Applied;
    if txs != [] {
      assert txs[0] in txs;
      ZeroStays(c, txs[0], s, s);
      ZeroSerial(c, Applied(s, RunOf(c)(txs[0], s).deltas), txs[1..]);
    }
  }

  // --------------------------------------------------------- the two values

  /** Where the clash shows: at `k` if `u` does not read it, else wherever `u` writes. */
  ghost predicate Shows(c: Clash, k: Key) {
    k in c.spec.Writes(c.u) && (c.k in c.spec.Reads(c.u) || k == c.k)
  }

  ghost function ByLevels(c: Clash, k: Key): nat {
    if k in c.spec.Writes(c.t) then 2 else 1
  }

  ghost function BySerial(c: Clash): nat {
    if c.k in c.spec.Reads(c.u) then 3 else 1
  }

  lemma PairAdded(c: Clash, base: Store, s: Store, k: Key)
    requires IsClash(c) && Shows(c, k) && Zero(base) && Zero(s)
    ensures Value(Applied(Applied(s, RunOf(c)(c.t, base).deltas), RunOf(c)(c.u, base).deltas), k) == ByLevels(c, k)
  {
    hide Value, RunOf, Applied;
    YieldOnZero(c, c.t, base);
    YieldOnZero(c, c.u, base);
    var dt, du := RunOf(c)(c.t, base).deltas, RunOf(c)(c.u, base).deltas;
    ValueAfter(s, dt, k);
    ValueAfter(Applied(s, dt), du, k);
  }

  lemma PairInTurn(c: Clash, s: Store, k: Key)
    requires IsClash(c) && Shows(c, k) && Zero(s)
    ensures
      var s1 := Applied(s, RunOf(c)(c.t, s).deltas);
      Value(Applied(s1, RunOf(c)(c.u, s1).deltas), k) == BySerial(c)
  {
    hide Value, Applied, ToHash;
    var f := Telling(c);
    var s1 := Applied(s, RunOf(c)(c.t, s).deltas);
    YieldOnZero(c, c.t, s);
    ValueAfter(s, RunOf(c)(c.t, s).deltas, c.k);
    ValueAfter(s, RunOf(c)(c.t, s).deltas, k);
    SmallDelta(0, 1);
    assert Value(s1, c.k) == 1 && Value(s1, k) <= 1;
    HashOfSmall(s1, c.k);
    SmallYield(c.spec, f, c.u, s1, k);
  }

  lemma TwoMore(run: Program, base: Store, s: Store, a: seq<TxId>, t: TxId, u: TxId)
    ensures Added(run, base, s, a + [t, u]) == Applied(Applied(Added(run, base, s, a), run(t, base).deltas), run(u, base).deltas)
    ensures
      var s0 := Serial(run, s, a);
      var s1 := Applied(s0, run(t, s0).deltas);
      Serial(run, s, a + [t, u]) == Applied(s1, run(u, s1).deltas)
  {
    hide Applied;
    assert a + [t, u] == (a + [t]) + [u];
    AddedMore(run, base, s, a, t);
    AddedMore(run, base, s, a + [t], u);
    SerialOne(run, s, a, t);
    SerialOne(run, s, a + [t], u);
  }

  /** The level of the clash, the two listed last. */
  lemma ClashLevel(c: Clash, base: Store, s: Store, others: seq<TxId>, k: Key)
    requires IsClash(c) && Shows(c, k) && Zero(base) && Zero(s) && Others(c, others)
    ensures Value(Added(RunOf(c), base, base, others + [c.t, c.u]), k) == ByLevels(c, k)
    ensures Value(Serial(RunOf(c), s, others + [c.t, c.u]), k) == BySerial(c)
  {
    hide Value, RunOf, Applied, Zero, Added, Serial, Shows, Others, ByLevels, BySerial;
    TwoMore(RunOf(c), base, base, others, c.t, c.u);
    TwoMore(RunOf(c), s, s, others, c.t, c.u);
    ZeroAdded(c, base, base, others);
    ZeroSerial(c, s, others);
    PairAdded(c, base, Added(RunOf(c), base, base, others), k);
    PairInTurn(c, Serial(RunOf(c), s, others), k);
  }

  // ------------------------------------------------------ the values stand

  ghost predicate Elsewhere(spec: Speculation, txs: seq<TxId>, k: Key) {
    forall x :: x in txs ==> k !in spec.Writes(x)
  }

  lemma ElsewhereKeeps(c: Clash, x: TxId, base: Store, s: Store, k: Key)
    requires k !in c.spec.Writes(x)
    ensures Value(Applied(s, RunOf(c)(x, base).deltas), k) == Value(s, k)
  {
    hide Value, Applied, NormalisedDelta;
    ValueAfter(s, RunOf(c)(x, base).deltas, k);
  }

  lemma {:induction false} ElsewhereAdded(c: Clash, base: Store, s: Store, level: seq<TxId>, k: Key)
    requires Elsewhere(c.spec, level, k)
    ensures Value(Added(RunOf(c), base, s, level), k) == Value(s, k)
  {
    hide Value, Applied, RunOf;
    if level != [] {
      var n := |level| - 1;
      assert level[n] in level;
      ElsewhereAdded(c, base, s, level[..n], k);
      ElsewhereKeeps(c, level[n], base, Added(RunOf(c), base, s, level[..n]), k);
    }
  }

  lemma {:induction false} ElsewhereSerial(c: Clash, s: Store, txs: seq<TxId>, k: Key)
    requires Elsewhere(c.spec, txs, k)
    ensures Value(Serial(RunOf(c), s, txs), k) == Value(s, k)
    decreases |txs|
  {
    hide Value, Applied, RunOf;
    if txs != [] {
      assert txs[0] in txs;
      ElsewhereKeeps(c, txs[0], s, s, k);
      ElsewhereSerial(c, Applied(s, RunOf(c)(txs[0], s).deltas), txs[1..], k);
    }
  }

  // --------------------------------------------------------- building levels

  /** The candidates outside `skip` that validate, each once. */
  lemma {:induction false} SomeLevel(run: Program, pre: Predictions, s: Store, candidates: seq<TxId>, skip: set<TxId>)
    returns (level: seq<TxId>)
    ensures Distinct(level)
    ensures forall x :: x in level <==> x in candidates && x !in skip && Validates(pre, x, run(x, s))
  {
    hide Validates;
    if candidates == [] {
      level := [];
    } else {
      var n := |candidates| - 1;
      var x := candidates[n];
      level := SomeLevel(run, pre, s, candidates[..n], skip);
      assert forall y :: y in candidates <==> y in candidates[..n] || y == x;
      if x !in level && x !in skip && Validates(pre, x, run(x, s)) {
        level := level + [x];
      }
    }
  }

  ghost function Pre(c: Clash, txs: set<TxId>): Predictions {
    Contexts(c.spec, Telling(c), txs)
  }

  /** Every candidate has been executed before. */
  ghost predicate Known(filed: seq<seq<TxId>>, txs: set<TxId>) {
    forall i, x :: 0 <= i < |filed| && x in filed[i] ==> x in txs
  }

  /** How things stand after some levels, by levels and one at a time. */
  ghost predicate Stands(c: Clash, k: Key, i: nat, n: nat, byLevels: Store, serial: Store) {
    if n <= i then Zero(byLevels) && Zero(serial)
    else Value(byLevels, k) == ByLevels(c, k) && Value(serial, k) == BySerial(c)
  }

  lemma {:induction false} FlattenHas<T>(ss: seq<seq<T>>, n: nat, x: T)
    requires n < |ss| && x in ss[n]
    ensures x in Flatten(ss)
  {
    var m := |ss| - 1;
    if n < m {
      FlattenHas(ss[..m], n, x);
    }
  }

  /** One more level, with what it leaves. */
  lemma NextLevel(c: Clash, txs: set<TxId>, filed: seq<seq<TxId>>, i: nat, k: Key, n: nat, byLevels: Store, serial: Store)
    returns (level: seq<TxId>)
    requires Known(filed, txs) && IsClash(c) && Shows(c, k) && Parted(c.spec, filed) && i < |filed| && c.t in filed[i] && c.u in filed[i]
    requires n < |filed| && Stands(c, k, i, n, byLevels, serial)
    ensures IsLevel(RunOf(c), Pre(c, txs), byLevels, filed[n], level)
    ensures Stands(c, k, i, n + 1, Added(RunOf(c), byLevels, byLevels, level), Serial(RunOf(c), serial, level))
  {
    hide Zero, Added, Serial, RunOf, Shows, ByLevels, BySerial, Validates, IsClash, Pre, Value;
    if n < i {
      level := SomeLevel(RunOf(c), Pre(c, txs), byLevels, filed[n], {});
      assert Others(c, level);
      ZeroAdded(c, byLevels, byLevels, level);
      ZeroSerial(c, serial, level);
    } else if n == i {
      level := LevelWithPair(c, txs, filed, i, byLevels);
      ClashLevel(c, byLevels, serial, level[..|level| - 2], k);
    } else {
      level := SomeLevel(RunOf(c), Pre(c, txs), byLevels, filed[n], {});
      forall x | x in level ensures k !in c.spec.Writes(x) {
        LaterIsElsewhere(c, txs, filed, i, n, k, byLevels, x);
      }
      ElsewhereAdded(c, byLevels, byLevels, level, k);
      ElsewhereSerial(c, serial, level, k);
    }
  }

  lemma LevelWithPair(c: Clash, txs: set<TxId>, filed: seq<seq<TxId>>, i: nat, s: Store) returns (level: seq<TxId>)
    requires Known(filed, txs) && IsClash(c) && i < |filed| && c.t in filed[i] && c.u in filed[i] && Zero(s)
    ensures |level| >= 2 && level == level[..|level| - 2] + [c.t, c.u] && Others(c, level[..|level| - 2])
    ensures IsLevel(RunOf(c), Pre(c, txs), s, filed[i], level)
  {
    hide Zero, RunOf, Validates, Contexts, Telling;
    var others := SomeLevel(RunOf(c), Pre(c, txs), s, filed[i], {c.t, c.u});
    level := others + [c.t, c.u];
    assert level[..|level| - 2] == others;
    ValidOnZero(c, txs, c.t, s);
    ValidOnZero(c, txs, c.u, s);
  }

  lemma LaterIsElsewhere(c: Clash, txs: set<TxId>, filed: seq<seq<TxId>>, i: nat, n: nat, k: Key, s: Store, x: TxId)
    requires Known(filed, txs) && Parted(c.spec, filed) && i < n < |filed| && c.t in filed[i] && c.u in filed[i] && x in filed[n]
    requires Value(s, k) == ByLevels(c, k) && Validates(Pre(c, txs), x, RunOf(c)(x, s))
    ensures k !in c.spec.Writes(x)
  {
    hide RunOf, Validates, Value, Telling, Contexts;
    assert x != c.t && x != c.u;
    if k in c.spec.Writes(x) {
      InvalidOnMore(c, txs, x, s, k);
    }
  }

  /** The clash through the first `n` levels. */
  lemma {:induction false} ClashLevels(c: Clash, txs: set<TxId>, filed: seq<seq<TxId>>, i: nat, k: Key, n: nat)
    returns (levels: seq<seq<TxId>>)
    requires Known(filed, txs) && IsClash(c) && Shows(c, k) && Parted(c.spec, filed) && i < |filed| && c.t in filed[i] && c.u in filed[i]
    requires n <= |filed|
    ensures Validated(RunOf(c), Pre(c, txs), filed[..n], levels)
    ensures Stands(c, k, i, n, LevelsStore(RunOf(c), levels), Serial(RunOf(c), map[], Flatten(levels)))
    decreases n
  {
    hide IsClash, Shows, Parted, Known, Validated, Stands, Serial, LevelsStore, Flatten, RunOf, Pre, IsLevel, Added;
    if n == 0 {
      levels := [];
      NothingStands(c, txs, k, i);
      assert filed[..0] == [];
    } else {
      var done := ClashLevels(c, txs, filed, i, k, n - 1);
      var byLevels, serial := LevelsStore(RunOf(c), done), Serial(RunOf(c), map[], Flatten(done));
      var level := NextLevel(c, txs, filed, i, k, n - 1, byLevels, serial);
      levels := done + [level];
      ValidatedMore(RunOf(c), Pre(c, txs), filed[..n - 1], done, filed[n - 1], level);
      assert filed[..n] == filed[..n - 1] + [filed[n - 1]];
      FlattenOne(done, level);
      SerialJoin(RunOf(c), map[], Flatten(done), level);
    }
  }

  lemma NothingStands(c: Clash, txs: set<TxId>, k: Key, i: nat)
    ensures Validated(RunOf(c), Pre(c, txs), [], []) && Flatten<TxId>([]) == []
    ensures Stands(c, k, i, 0, LevelsStore(RunOf(c), []), Serial(RunOf(c), map[], []))
  {
    NothingIsZero();
  }

  // -------------------------------------------------------- exact condition

  /** A clash commits otherwise than one at a time, with a context for every candidate. */
  lemma ClashShows(c: Clash, txs: set<TxId>, filed: seq<seq<TxId>>, i: nat) returns (levels: seq<seq<TxId>>, k: Key)
    requires Known(filed, txs) && IsClash(c) && Parted(c.spec, filed) && i < |filed| && c.t in filed[i] && c.u in filed[i]
    ensures Validated(RunOf(c), Pre(c, txs), filed, levels) && Shows(c, k)
    ensures Value(LevelsStore(RunOf(c), levels), k) == ByLevels(c, k)
    ensures Value(Serial(RunOf(c), map[], Flatten(levels)), k) == BySerial(c) != ByLevels(c, k)
  {
    hide Parted, Known, Validated, Serial, LevelsStore, Flatten, RunOf, Pre, Value;
    if c.k in c.spec.Reads(c.u) {
      k :| k in c.spec.Writes(c.u);
    } else {
      k := c.k;
    }
    levels := ClashLevels(c, txs, filed, i, k, |filed|);
    assert filed[..|filed|] == filed;
  }

  lemma ClashOf(spec: Speculation, filed: seq<seq<TxId>>) returns (c: Clash, i: nat)
    requires Parted(spec, filed) && !LevelsApart(spec, filed)
    ensures c.spec == spec && IsClash(c) && i < |filed| && c.t in filed[i] && c.u in filed[i]
  {
    i :| 0 <= i < |filed| && !LevelApart(spec, filed[i]);
    var t, u :| t in filed[i] && u in filed[i] && t != u && spec.Conflicting(t, u);
    if k :| k in spec.Writes(t) && k in spec.Reads(u) + spec.Writes(u) {
      c := Clash(spec, t, u, k);
    } else {
      var k :| k in spec.Writes(u) && k in spec.Reads(t) + spec.Writes(t);
      c := Clash(spec, u, t, k);
    }
  }

  /** For this body, with a context for every candidate, what the levels leave is
      serial, whatever order the workers end in. */
  ghost predicate AlwaysSerial(spec: Speculation, f: Body, filed: seq<seq<TxId>>) {
    forall txs, levels ::
      Known(filed, txs) && Validated(Execution(spec, f), Contexts(spec, f, txs), filed, levels) ==>
        Committed(Execution(spec, f), levels)
  }

  /** Exactly if no two candidates of a level conflict do the levels commit serially,
      whatever words the transactions compute, and however the workers end. */
  lemma LevelsSerialIff(spec: Speculation, filed: seq<seq<TxId>>)
    requires Parted(spec, filed)
    ensures (forall f :: IsBody(spec, f) ==> AlwaysSerial(spec, f, filed)) <==> LevelsApart(spec, filed)
  {
    hide Parted, IsBody, Validated, LevelsStore, Serial, LevelsApart, Flatten, Contexts, Known;
    if LevelsApart(spec, filed) {
      forall f | IsBody(spec, f) ensures AlwaysSerial(spec, f, filed) {
        ApartAlwaysSerial(spec, f, filed);
      }
    } else {
      var c, i := ClashOf(spec, filed);
      var txs := Elements(Flatten(filed));
      AllKnown(filed);
      var levels, k := ClashShows(c, txs, filed, i);
      TellingIsBody(c);
      assert !Committed(RunOf(c), levels);
      assert !AlwaysSerial(spec, Telling(c), filed);
    }
  }

  /** For the levels of a block with acyclic dependencies: exactly if at every address
      the surviving writers are apart. */
  lemma BlockSerialIff(edges: Edges, s: State, sequence: map<RWNode, int>, order: CommitOrder, piles: map<int, seq<TxId>>,
                       numbers: seq<int>)
    requires WellFormed(edges) && IsCommitOrder(edges, s, order, piles) && AllNumbers(order, numbers)
    requires LayeredNodes(edges, sequence, s.aborted) && Links(edges, s, sequence)
    ensures (forall f :: IsBody(NodesOf(edges), f) ==> AlwaysSerial(NodesOf(edges), f, Candidates(order, numbers))) <==>
            forall k :: WritersApart(edges, s, k)
  {
    hide WellFormed, IsCommitOrder, AllNumbers, LayeredNodes, Links, IsBody, AlwaysSerial, NodesOf, Candidates, WritersApart,
         ByNumber, Parted, LevelsApart;
    CandidatesByNumber(edges, s, order, piles, numbers);
    LevelsSerialIff(NodesOf(edges), Candidates(order, numbers));
    LayeredLevels(edges, s, sequence, numbers, Candidates(order, numbers));
  }

  lemma AllKnown(filed: seq<seq<TxId>>)
    ensures Known(filed, Elements(Flatten(filed)))
  {
    forall i, x | 0 <= i < |filed| && x in filed[i] ensures x in Flatten(filed) {
      FlattenHas(filed, i, x);
    }
  }

  lemma ApartAlwaysSerial(spec: Speculation, f: Body, filed: seq<seq<TxId>>)
    requires IsBody(spec, f) && LevelsApart(spec, filed)
    ensures AlwaysSerial(spec, f, filed)
  {
    hide IsBody, Validated, LevelsStore, Serial, LevelsApart, Flatten, Contexts, WellBehaved, Announced, Known;
    var run := Execution(spec, f);
    ExecutionIsWellBehaved(spec, f);
    forall txs, levels | Known(filed, txs) && Validated(run, Contexts(spec, f, txs), filed, levels)
      ensures Committed(run, levels)
    {
      ContextsAreAnnounced(spec, f, txs);
      assert ReadsWithin(spec, run, levels);
      ApartIsPeaceful(spec, run, Contexts(spec, f, txs), filed, levels);
      WholeRun(run, Contexts(spec, f, txs), filed, levels);
    }
  }

  // ------------------------------------------------- two blind writers alone

  /** Both write the address, and `u` does not read it. */
  ghost predicate Blind(c: Clash) {
    IsClash(c) && c.k in c.spec.Writes(c.u) && c.k !in c.spec.Reads(c.u)
  }

  ghost predicate IsPair(c: Clash, x: TxId, y: TxId) {
    (x == c.t && y == c.u) || (x == c.u && y == c.t)
  }

  lemma OneOnZero(c: Clash, s: Store, x: TxId)
    requires Blind(c) && Zero(s) && (x == c.t || x == c.u)
    ensures c.k in RunOf(c)(x, s).deltas && RunOf(c)(x, s).deltas[c.k] == 1
  {
    hide RunOf, Zero;
    YieldOnZero(c, x, s);
  }

  lemma OnesAdd(c: Clash, base: Store, x: TxId, y: TxId)
    requires Blind(c) && Zero(base) && IsPair(c, x, y)
    ensures Value(Applied(Applied(base, RunOf(c)(x, base).deltas), RunOf(c)(y, base).deltas), c.k) == 2
  {
    hide Value, RunOf, Applied;
    OneOnZero(c, base, x);
    OneOnZero(c, base, y);
    ValueAfter(base, RunOf(c)(x, base).deltas, c.k);
    ValueAfter(Applied(base, RunOf(c)(x, base).deltas), RunOf(c)(y, base).deltas, c.k);
  }

  lemma OneStands(c: Clash, s: Store, x: TxId, y: TxId)
    requires Blind(c) && Zero(s) && IsPair(c, x, y)
    ensures
      var s1 := Applied(s, RunOf(c)(x, s).deltas);
      Value(Applied(s1, RunOf(c)(y, s1).deltas), c.k) == 1
  {
    hide Value, Applied, ToHash, NormalisedDelta, ReadValue;
    OneOnZero(c, s, x);
    var s1 := Applied(s, RunOf(c)(x, s).deltas);
    ValueAfter(s, RunOf(c)(x, s).deltas, c.k);
    SmallDelta(0, 1);
    SmallYield(c.spec, Telling(c), y, s1, c.k);
  }

  lemma BlindEitherWay(c: Clash, base: Store, s: Store, x: TxId, y: TxId)
    requires Blind(c) && Zero(base) && Zero(s) && IsPair(c, x, y)
    ensures Value(Added(RunOf(c), base, base, [x, y]), c.k) == 2
    ensures Value(Serial(RunOf(c), s, [x, y]), c.k) == 1
  {
    hide Value, Applied, RunOf, Added, Serial, Zero, Blind, IsPair;
    TwoMore(RunOf(c), base, base, [], x, y);
    TwoMore(RunOf(c), s, s, [], x, y);
    NoneYet(RunOf(c), base);
    NoneYet(RunOf(c), s);
    assert [] + [x, y] == [x, y];
    OnesAdd(c, base, x, y);
    OneStands(c, s, x, y);
  }

  lemma NoneYet(run: Program, s: Store)
    ensures Added(run, s, s, []) == s && Serial(run, s, []) == s
  {
  }

  lemma OnlyTwo(level: seq<TxId>, t: TxId, u: TxId)
    requires Distinct(level) && t != u && forall x :: x in level <==> x == t || x == u
    ensures level == [t, u] || level == [u, t]
  {
    DistinctSize(level);
    assert Elements(level) == {t, u};
    assert level[0] in level && level[1] in level;
  }

  /** With the two alone in their level, every way the workers can end adds both ones,
      and one at a time only one stands. */
  lemma {:induction false} BlindLevels(c: Clash, txs: set<TxId>, filed: seq<seq<TxId>>, i: nat, levels: seq<seq<TxId>>, n: nat)
    requires Known(filed, txs) && Blind(c) && Parted(c.spec, filed) && i < |filed|
    requires (forall x :: x in filed[i] <==> x == c.t || x == c.u)
    requires Validated(RunOf(c), Pre(c, txs), filed, levels) && n <= |levels|
    ensures
      var byLevels, serial := LevelsStore(RunOf(c), levels[..n]), Serial(RunOf(c), map[], Flatten(levels[..n]));
      if n <= i then Zero(byLevels) && Zero(serial) else Value(byLevels, c.k) == 2 && Value(serial, c.k) == 1
    decreases n
  {
    hide Serial, Flatten, RunOf, Pre, Added, Zero, Value, Validates, Blind;
    if n == 0 {
      assert levels[..0] == [];
      NothingStands(c, txs, c.k, i);
    } else {
      BlindLevels(c, txs, filed, i, levels, n - 1);
      var byLevels, serial := LevelsStore(RunOf(c), levels[..n - 1]), Serial(RunOf(c), map[], Flatten(levels[..n - 1]));
      var level := levels[n - 1];
      FlattenMore(levels, n - 1);
      SerialJoin(RunOf(c), map[], Flatten(levels[..n - 1]), level);
      assert levels[..n][..n - 1] == levels[..n - 1];
      assert IsLevel(RunOf(c), Pre(c, txs), byLevels, filed[n - 1], level);
      BlindNext(c, txs, filed, i, level, n - 1, byLevels, serial);
    }
  }

  lemma BlindNext(c: Clash, txs: set<TxId>, filed: seq<seq<TxId>>, i: nat, level: seq<TxId>, n: nat, byLevels: Store, serial: Store)
    requires Known(filed, txs) && Blind(c) && Parted(c.spec, filed) && i < |filed| && n < |filed|
    requires (forall x :: x in filed[i] <==> x == c.t || x == c.u)
    requires IsLevel(RunOf(c), Pre(c, txs), byLevels, filed[n], level)
    requires if n <= i then Zero(byLevels) && Zero(serial) else Value(byLevels, c.k) == 2 && Value(serial, c.k) == 1
    ensures
      var byLevels', serial' := Added(RunOf(c), byLevels, byLevels, level), Serial(RunOf(c), serial, level);
      if n < i then Zero(byLevels') && Zero(serial') else Value(byLevels', c.k) == 2 && Value(serial', c.k) == 1
  {
    hide Serial, RunOf, Added, Zero, Value, Validates, Telling, Contexts;
    if n < i {
      assert Others(c, level);
      ZeroAdded(c, byLevels, byLevels, level);
      ZeroSerial(c, serial, level);
    } else if n == i {
      ValidOnZero(c, txs, c.t, byLevels);
      ValidOnZero(c, txs, c.u, byLevels);
      OnlyTwo(level, c.t, c.u);
      BlindEitherWay(c, byLevels, serial, level[0], level[1]);
    } else {
      forall x | x in level ensures c.k !in c.spec.Writes(x) {
        LaterIsElsewhere(c, txs, filed, i, n, c.k, byLevels, x);
      }
      ElsewhereAdded(c, byLevels, byLevels, level, c.k);
      ElsewhereSerial(c, serial, level, c.k);
    }
  }

  /** Up to and including the level of the two everyone validates. */
  lemma BlindValidates(c: Clash, txs: set<TxId>, filed: seq<seq<TxId>>, i: nat, levels: seq<seq<TxId>>, n: nat, x: TxId)
    requires Known(filed, txs) && Blind(c) && Parted(c.spec, filed) && n <= i < |filed| && x in filed[n]
    requires (forall y :: y in filed[i] <==> y == c.t || y == c.u)
    requires Validated(RunOf(c), Pre(c, txs), filed, levels)
    ensures x in levels[n]
  {
    hide Serial, Flatten, RunOf, Added, Zero, Value, Validates, Blind, Telling, Contexts, LevelsStore;
    BlindLevels(c, txs, filed, i, levels, n);
    ValidOnZero(c, txs, x, LevelsStore(RunOf(c), levels[..n]));
  }
}

/**
 Write deltas of 256-bit storage words.

 A re-executed transaction reports, per written key, the signed difference
 between the word it wrote and the word it started from.  The committed state
 stores big-endian byte strings of unbounded length, adds deltas to them, and
 is read back through a 32-byte hash that keeps the last 32 bytes only.
 */
module Deltas {
  type Key = string
  type Byte = n: nat | n < 256 witness 0
  type Bytes = seq<Byte>
  type Store = map<Key, Bytes>

  function Pow256(n: nat): (p: nat)
    ensures p > 0
  {
    if n == 0 then 1 else 256 * Pow256(n - 1)
  }

  const HASH_LENGTH: nat := 32
  const TWO_256: int := 0x1_0000000000000000_0000000000000000_0000000000000000_0000000000000000
  const TWO_255: int := 0x8000000000000000_0000000000000000_0000000000000000_0000000000000000

  function Mod256(x: int): nat {
    x % 0x1_0000000000000000_0000000000000000_0000000000000000_0000000000000000
  }

  lemma HashModulus()
    ensures Pow256(HASH_LENGTH) == TWO_256
  {
    assert Pow256(8) == 0x1_0000000000000000;
    assert Pow256(16) == 0x1_0000000000000000_0000000000000000;
    assert Pow256(24) == 0x1_0000000000000000_0000000000000000_0000000000000000;
  }

  // ---------------------------------------------------------------- bytes

  /** `new(big.Int).SetBytes`: the number a big-endian byte string denotes. */
  function FromBytes(b: Bytes): nat {
    if b == [] then 0 else 256 * FromBytes(b[..|b| - 1]) + b[|b| - 1]
  }

  /** `big.Int.Bytes`: the shortest big-endian byte string of a number. */
  function ToBytes(n: nat): (b: Bytes)
    ensures FromBytes(b) == n
  {
    if n == 0 then [] else ToBytes(n / 256) + [n % 256]
  }

  function Zeros(n: nat): (z: Bytes)
    ensures |z| == n && FromBytes(z) == 0
  {
    if n == 0 then [] else Zeros(n - 1) + [0]
  }

  /** `common.BytesToHash`: crops from the left, pads on the left. */
  function ToHash(b: Bytes): (h: Bytes)
    ensures |h| == HASH_LENGTH
  {
    if |b| > HASH_LENGTH then b[|b| - HASH_LENGTH..] else Zeros(HASH_LENGTH - |b|) + b
  }

  lemma {:induction false} FromBytesConcat(a: Bytes, b: Bytes)
    ensures FromBytes(a + b) == FromBytes(a) * Pow256(|b|) + FromBytes(b)
  {
    if b == [] {
      assert a + b == a;
    } else {
      var front, last := b[..|b| - 1], b[|b| - 1];
      assert (a + b)[..|a + b| - 1] == a + front;
      FromBytesConcat(a, front);
      assert FromBytes(a + b) == 256 * (FromBytes(a) * Pow256(|front|) + FromBytes(front)) + last;
      Regroup(FromBytes(a), Pow256(|front|));
    }
  }

  lemma Regroup(x: int, p: int)
    ensures 256 * (x * p) == x * (256 * p)
  {
  }

  lemma {:induction false} FromBytesBound(b: Bytes)
    ensures FromBytes(b) < Pow256(|b|)
  {
    if b != [] {
      FromBytesBound(b[..|b| - 1]);
    }
  }

  lemma DropMultiple(x: nat, r: nat)
    requires r < TWO_256
    ensures Mod256(x * TWO_256 + r) == r
  {
  }

  lemma SplitValue(hi: Bytes, lo: Bytes)
    requires |lo| == HASH_LENGTH
    ensures FromBytes(hi + lo) == FromBytes(hi) * TWO_256 + FromBytes(lo)
    ensures FromBytes(lo) < TWO_256
  {
    HashModulus();
    FromBytesConcat(hi, lo);
    FromBytesBound(lo);
  }

  /** A stored word reads back as its value modulo 2^256, whatever its length. */
  lemma HashIsValueMod256(b: Bytes)
    ensures FromBytes(ToHash(b)) == Mod256(FromBytes(b))
  {
    assert FromBytes([]) == 0;
    hide FromBytes, Mod256, Pow256, Zeros, ToBytes;
    var h := ToHash(b);
    if |b| > HASH_LENGTH {
      var hi := b[..|b| - HASH_LENGTH];
      assert b == hi + h;
      SplitValue(hi, h);
      DropMultiple(FromBytes(hi), FromBytes(h));
    } else {
      FromBytesConcat(Zeros(HASH_LENGTH - |b|), b);
      assert FromBytes(h) == FromBytes(b);
      assert [] + h == h;
      SplitValue([], h);
      DropMultiple(0, FromBytes(h));
    }
  }

  /** Two byte strings of equal length and equal value are the same string. */
  lemma {:induction false} FromBytesInjective(a: Bytes, b: Bytes)
    requires |a| == |b|
    requires FromBytes(a) == FromBytes(b)
    ensures a == b
  {
    if a != [] {
      var n := |a| - 1;
      assert a[n] == FromBytes(a) % 256 && b[n] == FromBytes(b) % 256;
      FromBytesInjective(a[..n], b[..n]);
      assert a == a[..n] + [a[n]] && b == b[..n] + [b[n]];
    }
  }

  // --------------------------------------------------------------- deltas

  predicate Congruent(a: int, b: int) {
    Mod256(a) == Mod256(b)
  }

  /** The delta of a write, from the number it started from.  The written word has
      32 bytes; the number may be any stored value, because a key that is written
      but not read is taken from the stored bytes as they are.  The result always
      leads to the new word modulo 2^256; it lies in the signed 256-bit range
      exactly if the stored value has not grown too far beyond the written word. */
  function NormalisedDelta(oldValue: nat, newWord: nat): (d: int)
    requires newWord < TWO_256
    ensures Congruent(oldValue + d, newWord) && d < TWO_255
    ensures -TWO_255 <= d <==> oldValue <= newWord + TWO_256 + TWO_255
    ensures IsDelta(d) <==> oldValue <= newWord + TWO_256 + TWO_256
  {
    var d0 := newWord - oldValue;
    var d1 := if d0 < 0 then d0 + TWO_256 else d0;
    var d2 := if d1 >= TWO_255 then d1 - TWO_256 else d1;
    d2
  }

  /** The deltas that one wrap-around absorbs on every stored value. */
  predicate IsDelta(d: int) {
    -TWO_256 <= d
  }

  /** The number `updateCommittedState` stores for one key: one wrap-around, and
      bytes that drop the sign. */
  function Bumped(current: nat, delta: int): (v: nat) {
    var sum := current + delta;
    var v := if sum < 0 then sum + TWO_256 else sum;
    if v < 0 then -v else v
  }

  /** Exactly when adding a delta to a stored value keeps it congruent: when one
      wrap-around is enough, or when the lost sign does not show. */
  lemma BumpedIsCongruent(current: nat, delta: int)
    ensures Congruent(Bumped(current, delta), current + delta) <==>
            -TWO_256 <= current + delta || (current + delta) % TWO_255 == 0
  {
    var v := current + delta + TWO_256;
    if v < 0 {
      SignShows(v);
    }
  }

  lemma SignShows(v: int)
    ensures Congruent(-v, v - TWO_256) <==> (v - TWO_256) % TWO_255 == 0
  {
    CongruentIff(-v, v - TWO_256);
    HalfModulus(v);
  }

  lemma CongruentIff(a: int, b: int)
    ensures Congruent(a, b) <==> (a - b) % TWO_256 == 0
  {
  }

  lemma Remainder256(x: int, q: int, r: int)
    requires 0 <= r < TWO_256 && x == q * TWO_256 + r
    ensures x % TWO_256 == r
  {
  }

  lemma Remainder255(x: int, q: int, r: int)
    requires 0 <= r < TWO_255 && x == q * TWO_255 + r
    ensures x % TWO_255 == r
  {
  }

  lemma HalfModulus(v: int)
    ensures (TWO_256 - 2 * v) % TWO_256 == 0 <==> (v - TWO_256) % TWO_255 == 0
  {
    var q, r := v / TWO_255, v % TWO_255;
    Remainder255(v - TWO_256, q - 2, r);
    if r == 0 {
      Remainder256(TWO_256 - 2 * v, 1 - q, 0);
    } else {
      Remainder256(TWO_256 - 2 * v, -q, TWO_256 - 2 * r);
    }
  }

  /** Exactly the deltas of at least -2^256 can be added to every stored value. */
  lemma AddableDeltas(delta: int)
    ensures (forall current: nat :: Congruent(Bumped(current, delta), current + delta)) <==> IsDelta(delta)
  {
    if IsDelta(delta) {
      forall current: nat ensures Congruent(Bumped(current, delta), current + delta) {
        BumpedIsCongruent(current, delta);
      }
    } else {
      BumpedIsCongruent(0, delta);
      BumpedIsCongruent(1, delta);
      NotBoth(delta);
    }
  }

  lemma NotBoth(delta: int)
    requires delta < -TWO_256
    ensures delta % TWO_255 == 0 ==> (1 + delta) % TWO_255 != 0 && 1 + delta < -TWO_256
  {
  }

  /** A stored value of four times 2^256, overwritten by 1 without a read, yields a
      delta that the committed state cannot add to an absent key. */
  lemma OvergrownDelta()
    ensures
      var d := NormalisedDelta(4 * TWO_256, 1);
      !IsDelta(d) && !Congruent(Bumped(0, d), d)
  {
  }

  // ---------------------------------------------------- committed state

  function Word(s: Store, k: Key): Bytes {
    if k in s then s[k] else []
  }

  /** The store after one transaction's deltas have been added. */
  function Applied(s: Store, deltas: map<Key, int>): Store {
    map k | k in s.Keys + deltas.Keys ::
      if k in deltas then ToBytes(Bumped(FromBytes(Word(s, k)), deltas[k])) else s[k]
  }

  function CompositeKey(contract: string, key: Key): Key {
    contract + ":" + key
  }

  lemma CompositeInjective(contract: string, a: Key, b: Key)
    requires CompositeKey(contract, a) == CompositeKey(contract, b)
    ensures a == b
  {
    assert CompositeKey(contract, a)[|contract| + 1..] == a;
    assert CompositeKey(contract, b)[|contract| + 1..] == b;
  }

  /** The deltas a contract's transaction adds, under composite keys. */
  function Scoped(contract: string, deltas: map<Key, int>): map<Key, int> {
    assert forall a, b :: CompositeKey(contract, a) == CompositeKey(contract, b) ==> a == b by {
      forall a, b | CompositeKey(contract, a) == CompositeKey(contract, b) ensures a == b {
        CompositeInjective(contract, a, b);
      }
    }
    map k | k in deltas :: CompositeKey(contract, k) := deltas[k]
  }

  lemma AppliedNothing(s: Store, contract: string)
    ensures Applied(s, Scoped(contract, map[])) == s
  {
  }

  lemma AppliedExtends(s: Store, deltas: map<Key, int>, k: Key, d: int)
    requires k !in deltas
    ensures var t := Applied(s, deltas);
            Applied(s, deltas[k := d]) == t[k := ToBytes(Bumped(FromBytes(Word(t, k)), d))]
  {
    hide FromBytes, ToBytes, Bumped;
    assert Word(Applied(s, deltas), k) == Word(s, k);
  }

  /** `updateCommittedState`: adds the deltas one key at a time, in whatever
      order the map is traversed. */
  method UpdateCommittedState(committed: Store, contract: string, writeDelta: map<Key, int>)
    returns (updated: Store)
    ensures updated == Applied(committed, Scoped(contract, writeDelta))
  {
    hide FromBytes, ToBytes, Bumped, Scoped, Applied, CompositeKey;
    assert Applied(committed, Scoped(contract, map[])) == committed by { AppliedNothing(committed, contract); }
    updated := committed;
    var done: map<Key, int>, todo := map[], writeDelta.Keys;
    while todo != {}
      invariant todo <= writeDelta.Keys
      invariant done == map k | k in writeDelta && k !in todo :: writeDelta[k]
      invariant updated == Applied(committed, Scoped(contract, done))
      decreases todo
    {
      var key :| key in todo;
      var composite := CompositeKey(contract, key);
      ScopedExtends(contract, done, key, writeDelta[key]);
      AppliedExtends(committed, Scoped(contract, done), composite, writeDelta[key]);
      var current := FromBytes(Word(updated, composite));
      updated := updated[composite := ToBytes(Bumped(current, writeDelta[key]))];
      done, todo := done[key := writeDelta[key]], todo - {key};
    }
    assert done == writeDelta by { hide *; }
  }

  lemma ScopedExtends(contract: string, deltas: map<Key, int>, k: Key, d: int)
    requires k !in deltas
    ensures CompositeKey(contract, k) !in Scoped(contract, deltas)
    ensures Scoped(contract, deltas[k := d]) == Scoped(contract, deltas)[CompositeKey(contract, k) := d]
  {
    var c := CompositeKey(contract, k);
    if c in Scoped(contract, deltas) {
      var a :| a in deltas && CompositeKey(contract, a) == c;
      CompositeInjective(contract, a, k);
    }
    var bigger := deltas[k := d];
    forall a | a in bigger ensures CompositeKey(contract, a) == c ==> a == k {
      if CompositeKey(contract, a) == c { CompositeInjective(contract, a, k); }
    }
  }

  function AppliedAll(s: Store, updates: seq<map<Key, int>>): Store
    decreases |updates|
  {
    if updates == [] then s else AppliedAll(Applied(s, updates[0]), updates[1..])
  }

  function DeltaAt(deltas: map<Key, int>, k: Key): int {
    if k in deltas then deltas[k] else 0
  }

  function TotalDelta(updates: seq<map<Key, int>>, k: Key): int {
    if updates == [] then 0 else DeltaAt(updates[0], k) + TotalDelta(updates[1..], k)
  }

  predicate AllDeltas(deltas: map<Key, int>) {
    forall k :: k in deltas ==> IsDelta(deltas[k])
  }

  lemma CongruentReflexive(a: int)
    ensures Congruent(a, a)
  {
  }

  lemma AddCongruent(a: int, b: int, t: int, c: int, d: int)
    requires Congruent(a, b + t) && Congruent(b, c + d)
    ensures Congruent(a, c + (d + t))
  {
  }

  lemma AppliedWord(s: Store, deltas: map<Key, int>, k: Key)
    requires AllDeltas(deltas)
    ensures Congruent(FromBytes(Word(Applied(s, deltas), k)), FromBytes(Word(s, k)) + DeltaAt(deltas, k))
  {
    if k in deltas {
      BumpedIsCongruent(FromBytes(Word(s, k)), deltas[k]);
    } else {
      assert Word(Applied(s, deltas), k) == Word(s, k);
    }
  }

  /** Any run of updates leaves each word congruent to where it started plus
      everything that was added to it. */
  lemma {:induction false} UpdatesAccumulate(s: Store, updates: seq<map<Key, int>>, k: Key)
    requires forall i :: 0 <= i < |updates| ==> AllDeltas(updates[i])
    ensures Congruent(FromBytes(Word(AppliedAll(s, updates), k)), FromBytes(Word(s, k)) + TotalDelta(updates, k))
    decreases |updates|
  {
    hide FromBytes, Mod256, Applied, Congruent, Word;
    if updates == [] {
      assert AppliedAll(s, updates) == s && TotalDelta(updates, k) == 0;
      CongruentReflexive(FromBytes(Word(s, k)));
    } else {
      var d, rest, s' := updates[0], updates[1..], Applied(s, updates[0]);
      assert AppliedAll(s, updates) == AppliedAll(s', rest);
      assert TotalDelta(updates, k) == DeltaAt(d, k) + TotalDelta(rest, k);
      UpdatesAccumulate(s', rest, k);
      AppliedWord(s, d, k);
      AddCongruent(FromBytes(Word(AppliedAll(s', rest), k)), FromBytes(Word(s', k)), TotalDelta(rest, k),
                   FromBytes(Word(s, k)), DeltaAt(d, k));
    }
  }

  lemma {:induction false} TotalDeltaMiddle(a: seq<map<Key, int>>, x: map<Key, int>, b: seq<map<Key, int>>, k: Key)
    ensures TotalDelta(a + [x] + b, k) == DeltaAt(x, k) + TotalDelta(a + b, k)
  {
    if a == [] {
      assert a + [x] + b == [x] + b && a + b == b;
    } else {
      assert (a + [x] + b)[1..] == a[1..] + [x] + b && (a + b)[1..] == a[1..] + b;
      TotalDeltaMiddle(a[1..], x, b, k);
    }
  }

  lemma RemoveOne<T>(a: seq<T>, x: T, b: seq<T>, rest: seq<T>)
    requires multiset([x] + rest) == multiset(a + [x] + b)
    ensures multiset(rest) == multiset(a + b)
  {
    assert multiset(rest) == multiset([x] + rest) - multiset{x};
    assert multiset(a + b) == multiset(a + [x] + b) - multiset{x};
  }

  lemma {:induction false} TotalDeltaPermutes(xs: seq<map<Key, int>>, ys: seq<map<Key, int>>, k: Key)
    requires multiset(xs) == multiset(ys)
    ensures TotalDelta(xs, k) == TotalDelta(ys, k)
  {
    if xs == [] {
      assert ys == [] by { assert |multiset(ys)| == |ys|; }
    } else {
      hide TotalDelta;
      var x, rest := xs[0], xs[1..];
      assert xs == [x] + rest;
      var i := Occurrence(x, rest, ys);
      var a, b := ys[..i], ys[i + 1..];
      assert ys == a + [x] + b;
      RemoveOne(a, x, b, rest);
      TotalDeltaMiddle(a, x, b, k);
      TotalDeltaMiddle([], x, rest, k);
      assert [] + rest == rest && [] + [x] + rest == xs;
      TotalDeltaPermutes(rest, a + b, k);
    }
  }

  lemma Occurrence<T>(x: T, rest: seq<T>, ys: seq<T>) returns (i: nat)
    requires multiset([x] + rest) == multiset(ys)
    ensures i < |ys| && ys[i] == x
  {
    assert x in multiset([x] + rest);
    i :| 0 <= i < |ys| && ys[i] == x;
  }

  /** Updates may be applied in any order: every key reads back the same
      32-byte word. */
  lemma UpdateOrderIsInvisible(s: Store, xs: seq<map<Key, int>>, ys: seq<map<Key, int>>, k: Key)
    requires multiset(xs) == multiset(ys)
    requires forall x :: x in xs ==> AllDeltas(x)
    ensures ToHash(Word(AppliedAll(s, xs), k)) == ToHash(Word(AppliedAll(s, ys), k))
  {
    hide FromBytes, ToHash, Mod256, Word, AppliedAll, TotalDelta, AllDeltas, Applied;
    forall x | x in ys ensures AllDeltas(x) {
      assert x in multiset(ys);
    }
    UpdatesAccumulate(s, xs, k);
    UpdatesAccumulate(s, ys, k);
    TotalDeltaPermutes(xs, ys, k);
    var a, b := Word(AppliedAll(s, xs), k), Word(AppliedAll(s, ys), k);
    HashIsValueMod256(a);
    HashIsValueMod256(b);
    FromBytesInjective(ToHash(a), ToHash(b));
  }

  /** Exactly the deltas of at least -2^256 may be exchanged with every other such
      delta, on every stored state, without being seen. */
  lemma ExchangeableDeltas(k: Key, d: int)
    ensures (forall s, e :: IsDelta(e) ==> SameEitherWay(s, k, d, e)) <==> IsDelta(d)
  {
    hide SameEitherWay;
    if IsDelta(d) {
      forall s, e | IsDelta(e) ensures SameEitherWay(s, k, d, e) {
        ExchangeTwo(s, k, d, e);
      }
    } else {
      SeenOnEmpty(k, d);
    }
  }

  predicate SameEitherWay(s: Store, k: Key, d: int, e: int) {
    ToHash(Word(AppliedAll(s, [map[k := d], map[k := e]]), k)) == ToHash(Word(AppliedAll(s, [map[k := e], map[k := d]]), k))
  }

  lemma ExchangeTwo(s: Store, k: Key, d: int, e: int)
    requires IsDelta(d) && IsDelta(e)
    ensures SameEitherWay(s, k, d, e)
  {
    hide ToHash, Word, AppliedAll;
    var x, y := map[k := d], map[k := e];
    assert multiset([x, y]) == multiset([y, x]);
    UpdateOrderIsInvisible(s, [x, y], [y, x], k);
  }

  lemma TwoUpdates(s: Store, k: Key, d: int, e: int)
    ensures FromBytes(Word(AppliedAll(s, [map[k := d], map[k := e]]), k)) == Bumped(Bumped(FromBytes(Word(s, k)), d), e)
  {
    hide FromBytes, ToBytes, Bumped;
    var x, y := map[k := d], map[k := e];
    assert [x, y][1..] == [y] && [y][1..] == [];
    assert AppliedAll(s, [x, y]) == AppliedAll(Applied(s, x), [y]) == Applied(Applied(s, x), y);
    assert Word(Applied(s, x), k) == ToBytes(Bumped(FromBytes(Word(s, k)), d));
  }

  /** Before and after adding 1 to an empty store, a smaller delta leaves words that
      differ by two. */
  lemma SeenOnEmpty(k: Key, d: int)
    requires !IsDelta(d)
    ensures IsDelta(1) && !SameEitherWay(map[], k, d, 1)
  {
    hide FromBytes, ToBytes, ToHash, AppliedAll;
    assert FromBytes(Word(map[], k)) == 0 by { EmptyWord(k); }
    TwoUpdates(map[], k, d, 1);
    TwoUpdates(map[], k, 1, d);
    HashIsValueMod256(Word(AppliedAll(map[], [map[k := d], map[k := 1]]), k));
    HashIsValueMod256(Word(AppliedAll(map[], [map[k := 1], map[k := d]]), k));
    TwoApart(-TWO_256 - d);
  }

  lemma EmptyWord(k: Key)
    ensures FromBytes(Word(map[], k)) == 0
  {
  }

  lemma TwoApart(a: int)
    requires a >= 1
    ensures Mod256(a + 1) != Mod256(a - 1)
  {
  }

  /** The number a write's delta is taken from: the word that was read, or, for a
      key that was not read, the stored bytes. */
  function ReadValue(s: Store, k: Key, wasRead: bool): nat {
    if wasRead then FromBytes(ToHash(Word(s, k))) else FromBytes(Word(s, k))
  }

  /** Adding the delta of a re-execution to the state it ran on stores the word that
      was written, however far the stored value has grown. */
  lemma DeltaRoundTrip(s: Store, k: Key, newWord: nat, wasRead: bool)
    requires newWord < TWO_256
    ensures var d := NormalisedDelta(ReadValue(s, k, wasRead), newWord);
            FromBytes(ToHash(Word(Applied(s, map[k := d]), k))) == newWord
  {
    hide FromBytes, ToBytes, ToHash, Word, Bumped, ReadValue, NormalisedDelta, Applied;
    var current, d := FromBytes(Word(s, k)), NormalisedDelta(ReadValue(s, k, wasRead), newWord);
    var r := ReadValue(s, k, wasRead);
    DeltaIsEnough(r, newWord);
    ReadIsCongruent(s, k, wasRead);
    BumpedIsCongruent(current, d);
    CongruentChain(Bumped(current, d), current, r, d, newWord);
    WordAfter(s, k, d);
    HashIsValueMod256(Word(Applied(s, map[k := d]), k));
  }

  lemma WordAfter(s: Store, k: Key, d: int)
    ensures FromBytes(Word(Applied(s, map[k := d]), k)) == Bumped(FromBytes(Word(s, k)), d)
  {
    hide FromBytes, ToBytes, Bumped;
  }

  lemma ReadIsCongruent(s: Store, k: Key, wasRead: bool)
    ensures Congruent(ReadValue(s, k, wasRead), FromBytes(Word(s, k))) && ReadValue(s, k, wasRead) <= FromBytes(Word(s, k))
  {
    hide FromBytes, ToHash, Word;
    HashIsValueMod256(Word(s, k));
  }

  lemma DeltaIsEnough(oldValue: nat, newWord: nat)
    requires newWord < TWO_256
    ensures oldValue + NormalisedDelta(oldValue, newWord) >= -TWO_255
  {
  }

  lemma CongruentChain(v: int, current: int, r: int, d: int, newWord: int)
    requires Congruent(v, current + d) && Congruent(r, current) && Congruent(r + d, newWord)
    ensures Congruent(v, newWord)
  {
  }

  // ------------------------------------------------------- growing values

  /** What updates that read a key and write the given words to it leave. */
  function Rewritten(s: Store, k: Key, words: seq<nat>): Store {
    if words == [] then s
    else
      var n := |words| - 1;
      var s', w := Rewritten(s, k, words[..n]), words[n] % TWO_256;
      Applied(s', map[k := NormalisedDelta(ReadValue(s', k, true), w)])
  }

  lemma StepUp(current: nat, step: nat)
    requires step < TWO_255
    ensures NormalisedDelta(Mod256(current), (current + step) % TWO_256) == step && Bumped(current, step) == current + step
  {
  }

  /** Stored values are not bounded: updates that read and write one key bring it from
      nothing to any value, 2^255 - 1 at a time. */
  lemma {:induction false} AnyValueIsReached(k: Key, target: nat) returns (words: seq<nat>)
    ensures FromBytes(Word(Rewritten(map[], k, words), k)) == target
    decreases target
  {
    hide FromBytes, ToBytes, ToHash, Word, Bumped, NormalisedDelta, Applied, Mod256;
    if target == 0 {
      words := [];
      EmptyWord(k);
    } else {
      var step := if target < TWO_255 then target else TWO_255 - 1;
      var before := AnyValueIsReached(k, target - step);
      words := before + [target];
      assert words[..|before|] == before;
      var s := Rewritten(map[], k, before);
      HashIsValueMod256(Word(s, k));
      StepUp(target - step, step);
      WordAfter(s, k, step);
    }
  }

  /** So the failing input is reached: from the empty state, by updates that read and
      write one key, and one that writes without reading. */
  lemma OvergrownIsReached(k: Key) returns (words: seq<nat>)
    ensures
      var d := NormalisedDelta(ReadValue(Rewritten(map[], k, words), k, false), 1);
      !IsDelta(d) && !Congruent(Bumped(0, d), d)
  {
    hide FromBytes, Word, Bumped, NormalisedDelta, Congruent, Rewritten;
    words := AnyValueIsReached(k, 4 * TWO_256);
    OvergrownDelta();
  }
}

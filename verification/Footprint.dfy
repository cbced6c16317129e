/**
 Serial equivalence of histories.

 A transaction's footprint depends on the state it runs on: running it yields
 the keys it touched and the deltas it writes, and it yields the same again on
 every state that agrees on those touched keys.  A history is a sequence of
 such runs, each taken on the state its predecessors left.  Whenever two runs
 that conflict stand in a history in the same order as their transactions stand
 in a serial order, the history has the effect of the serial execution.
 */
module Footprint {
  import opened Sequences
  import opened Deltas

  type TxId = string

  /** The keys a run read, the deltas of the keys it wrote, and whether it ended in
      an error; a delta depends on the word it is added to, so a written key counts
      as touched. */
  datatype Outcome = Outcome(readKeys: set<Key>, deltas: map<Key, int>, failed: bool) {
    const touched: set<Key> := readKeys + deltas.Keys
  }

  /** What re-execution of each transaction yields on each committed state. */
  type Program = (TxId, Store) -> Outcome

  /** Predicted read and write sets; a transaction without nodes has neither. */
  datatype Speculation = Speculation(rs: map<TxId, set<Key>>, ws: map<TxId, set<Key>>) {
    function Reads(t: TxId): set<Key> {
      if t in rs then rs[t] else {}
    }

    function Writes(t: TxId): set<Key> {
      if t in ws then ws[t] else {}
    }

    predicate Conflicting(t: TxId, prev: TxId) {
      || Writes(t) * Writes(prev) != {}
      || Reads(t) * Writes(prev) != {}
      || Writes(t) * Reads(prev) != {}
    }
  }

  datatype Entry = Entry(tx: TxId, out: Outcome)

  ghost predicate Agree(s: Store, s': Store, keys: set<Key>) {
    forall k :: k in keys ==> (k in s <==> k in s') && Word(s, k) == Word(s', k)
  }

  /** Footprints: a run repeats itself on any state that agrees on what it
      touched. */
  ghost predicate WellBehaved(run: Program) {
    forall t, s, s' :: Agree(s, s', run(t, s).touched) ==> run(t, s') == run(t, s)
  }

  ghost predicate Conflict(a: Outcome, b: Outcome) {
    !(a.deltas.Keys !! b.touched) || !(b.deltas.Keys !! a.touched)
  }

  /** The store a history leaves. */
  ghost function Final(s: Store, h: seq<Entry>): Store
    decreases |h|
  {
    if h == [] then s else Final(Applied(s, h[0].out.deltas), h[1..])
  }

  /** Every entry records what its transaction yields where it stands. */
  ghost predicate Genuine(run: Program, s: Store, h: seq<Entry>)
    decreases |h|
  {
    h == [] || (h[0].out == run(h[0].tx, s) && Genuine(run, Applied(s, h[0].out.deltas), h[1..]))
  }

  ghost function Ids(h: seq<Entry>): set<TxId> {
    set e | e in h :: e.tx
  }

  ghost predicate DistinctIds(h: seq<Entry>) {
    forall i, j :: 0 <= i < j < |h| ==> h[i].tx != h[j].tx
  }

  /** Running transactions one at a time, each on what the previous ones left. */
  ghost function Serial(run: Program, s: Store, txs: seq<TxId>): Store
    decreases |txs|
  {
    if txs == [] then s else Serial(run, Applied(s, run(txs[0], s).deltas), txs[1..])
  }

  lemma {:induction false} SerialJoin(run: Program, s: Store, a: seq<TxId>, b: seq<TxId>)
    ensures Serial(run, s, a + b) == Serial(run, Serial(run, s, a), b)
    decreases |a|
  {
    hide Applied;
    if a == [] {
      assert a + b == b;
    } else {
      assert (a + b)[0] == a[0] && (a + b)[1..] == a[1..] + b;
      SerialJoin(run, Applied(s, run(a[0], s).deltas), a[1..], b);
    }
  }

  lemma SerialOne(run: Program, s: Store, a: seq<TxId>, t: TxId)
    ensures
      var before := Serial(run, s, a);
      Serial(run, s, a + [t]) == Applied(before, run(t, before).deltas)
  {
    hide Applied;
    SerialJoin(run, s, a, [t]);
    assert [t][1..] == [];
  }

  /** The members of `chosen`, in the order of `order`. */
  ghost function Select(order: seq<TxId>, chosen: set<TxId>): seq<TxId> {
    if order == [] then []
    else (if order[0] in chosen then [order[0]] else []) + Select(order[1..], chosen)
  }

  /** No two conflicting entries of `h` are inverted with respect to `order`. */
  ghost predicate Respects(h: seq<Entry>, order: seq<TxId>) {
    && (forall e :: e in h ==> e.tx in order)
    && (forall i, j :: 0 <= i < j < |h| && Conflict(h[i].out, h[j].out) ==> Rank(order, h[i].tx) < Rank(order, h[j].tx))
  }

  // ------------------------------------------------------------ swapping

  lemma AppliedOutside(s: Store, deltas: map<Key, int>, keys: set<Key>)
    requires deltas.Keys !! keys
    ensures Agree(s, Applied(s, deltas), keys)
  {
    hide FromBytes, ToBytes, Bumped;
  }

  lemma AppliedAt(s: Store, deltas: map<Key, int>, k: Key)
    ensures k in Applied(s, deltas) <==> k in s || k in deltas
    ensures k !in deltas ==> Word(Applied(s, deltas), k) == Word(s, k)
    ensures k in Applied(s, deltas) ==>
              Applied(s, deltas)[k] == if k in deltas then ToBytes(Bumped(FromBytes(Word(s, k)), deltas[k])) else s[k]
  {
    hide FromBytes, ToBytes, Bumped;
  }

  lemma AppliedCommute(s: Store, a: map<Key, int>, b: map<Key, int>)
    requires a.Keys !! b.Keys
    ensures Applied(Applied(s, a), b) == Applied(Applied(s, b), a)
  {
    hide FromBytes, ToBytes, Bumped, Applied, Word;
    var l, r := Applied(Applied(s, a), b), Applied(Applied(s, b), a);
    forall k ensures k in l <==> k in r ensures k in l ==> l[k] == r[k] {
      assert k in a ==> k !in b;
      AppliedAt(s, a, k);
      AppliedAt(s, b, k);
      AppliedAt(Applied(s, a), b, k);
      AppliedAt(Applied(s, b), a, k);
    }
  }

  /** Neighbours that do not conflict can trade places. */
  lemma Swap(run: Program, s: Store, x: Entry, y: Entry)
    requires WellBehaved(run)
    requires x.out == run(x.tx, s) && y.out == run(y.tx, Applied(s, x.out.deltas))
    requires !Conflict(x.out, y.out)
    ensures y.out == run(y.tx, s) && x.out == run(x.tx, Applied(s, y.out.deltas))
    ensures Applied(Applied(s, x.out.deltas), y.out.deltas) == Applied(Applied(s, y.out.deltas), x.out.deltas)
  {
    hide Applied, Word;
    var s' := Applied(s, x.out.deltas);
    AppliedOutside(s, x.out.deltas, y.out.touched);
    assert Agree(s', s, y.out.touched);
    assert run(y.tx, s) == y.out;
    AppliedOutside(s, y.out.deltas, x.out.touched);
    AppliedCommute(s, x.out.deltas, y.out.deltas);
  }

  ghost function Without<T>(h: seq<T>, i: nat): seq<T>
    requires i < |h|
  {
    h[..i] + h[i + 1..]
  }

  lemma WithoutKeeps<T>(h: seq<T>, i: nat)
    requires i < |h|
    ensures multiset([h[i]] + Without(h, i)) == multiset(h)
  {
    assert h == h[..i] + [h[i]] + h[i + 1..];
  }

  /** An entry that conflicts with nothing before it can be moved to the front. */
  lemma {:induction false} MoveToFront(run: Program, s: Store, h: seq<Entry>, i: nat)
    requires WellBehaved(run)
    requires i < |h| && Genuine(run, s, h)
    requires forall j :: 0 <= j < i ==> !Conflict(h[j].out, h[i].out)
    ensures Genuine(run, s, [h[i]] + Without(h, i))
    ensures Final(s, [h[i]] + Without(h, i)) == Final(s, h)
    decreases i
  {
    hide Applied, Conflict, WellBehaved, Genuine, Final;
    var x, moved := h[i], [h[i]] + Without(h, i);
    if i == 0 {
      assert moved == h;
    } else {
      var y, rest := h[0], h[1..];
      var s' := Applied(s, y.out.deltas);
      assert h == [y] + rest;
      ConsGenuine(run, s, y, rest);
      MoveToFront(run, s', rest, i - 1);
      var tail := Without(rest, i - 1);
      ConsGenuine(run, s', x, tail);
      Swap(run, s, y, x);
      ConsGenuine(run, Applied(s, x.out.deltas), y, tail);
      ConsGenuine(run, s, x, [y] + tail);
      assert moved == [x] + ([y] + tail);
    }
  }

  // ---------------------------------------------------------- main result

  lemma {:induction false} GenuineIsSerial(run: Program, s: Store, h: seq<Entry>, txs: seq<TxId>)
    requires Genuine(run, s, h)
    requires |txs| == |h| && forall i :: 0 <= i < |h| ==> h[i].tx == txs[i]
    ensures Final(s, h) == Serial(run, s, txs)
    decreases |h|
  {
    hide Applied;
    if h != [] {
      GenuineIsSerial(run, Applied(s, h[0].out.deltas), h[1..], txs[1..]);
    }
  }

  lemma RankTail(order: seq<TxId>)
    requires order != [] && Distinct(order)
    ensures Distinct(order[1..])
    ensures forall t :: t in order[1..] ==> t != order[0] && t in order && Rank(order, t) == 1 + Rank(order[1..], t)
  {
  }

  lemma {:induction false} SelectWithout(order: seq<TxId>, chosen: set<TxId>, t: TxId)
    requires t !in order
    ensures Select(order, chosen) == Select(order, chosen - {t})
  {
    if order != [] {
      SelectWithout(order[1..], chosen, t);
    }
  }

  /** A history whose conflicting entries follow `order` can be rearranged into
      the serial one: the same entries, in the order of `order`, still genuine
      and leaving the same store. */
  lemma {:induction false} Rearrange(run: Program, s: Store, h: seq<Entry>, order: seq<TxId>)
    returns (g: seq<Entry>)
    requires WellBehaved(run) && Genuine(run, s, h)
    requires DistinctIds(h) && Distinct(order) && Respects(h, order)
    ensures multiset(g) == multiset(h)
    ensures |g| == |Select(order, Ids(h))| && forall i :: 0 <= i < |g| ==> g[i].tx == Select(order, Ids(h))[i]
    ensures Genuine(run, s, g) && Final(s, g) == Final(s, h)
    decreases |order|
  {
    hide Applied, Conflict, WellBehaved, Select, Genuine, Final, Respects, Ids, Distinct;
    if order == [] {
      NothingRespects(h);
      g := h;
    } else if order[0] !in Ids(h) {
      SkipFirst(h, order);
      g := Rearrange(run, s, h, order[1..]);
    } else {
      var x, rest := BringFirst(run, s, h, order);
      var g' := Rearrange(run, Applied(s, x.out.deltas), rest, order[1..]);
      g := [x] + g';
      ConsGenuine(run, s, x, g');
      ConsGenuine(run, s, x, rest);
      assert multiset([x] + g') == multiset([x] + rest);
    }
  }

  lemma NothingRespects(h: seq<Entry>)
    requires Respects(h, [])
    ensures h == [] && Select([], Ids(h)) == []
  {
    if h != [] { HasMember(h); }
  }

  lemma SelectSkips(order: seq<TxId>, chosen: set<TxId>)
    requires order != [] && order[0] !in chosen
    ensures Select(order, chosen) == Select(order[1..], chosen)
  {
  }

  lemma SkipFirst(h: seq<Entry>, order: seq<TxId>)
    requires Respects(h, order) && Distinct(order) && order != [] && order[0] !in Ids(h)
    ensures Respects(h, order[1..]) && Distinct(order[1..])
    ensures Select(order, Ids(h)) == Select(order[1..], Ids(h))
  {
    hide Conflict, Rank, Select, Distinct;
    RankTail(order);
    SelectSkips(order, Ids(h));
    assert order == [order[0]] + order[1..];
    assert forall e :: e in h ==> e.tx in Ids(h);
    assert forall i :: 0 <= i < |h| ==> h[i] in h;
  }

  lemma ConsGenuine(run: Program, s: Store, x: Entry, t: seq<Entry>)
    ensures Genuine(run, s, [x] + t) <==> x.out == run(x.tx, s) && Genuine(run, Applied(s, x.out.deltas), t)
    ensures Final(s, [x] + t) == Final(Applied(s, x.out.deltas), t)
  {
    hide Applied;
    assert ([x] + t)[1..] == t;
  }

  /** Moves the entry of the serially first transaction to the front. */
  lemma BringFirst(run: Program, s: Store, h: seq<Entry>, order: seq<TxId>) returns (x: Entry, rest: seq<Entry>)
    requires WellBehaved(run) && Genuine(run, s, h)
    requires DistinctIds(h) && Distinct(order) && Respects(h, order)
    requires order != [] && order[0] in Ids(h)
    ensures multiset([x] + rest) == multiset(h)
    ensures DistinctIds(rest) && Distinct(order[1..]) && Respects(rest, order[1..])
    ensures x.tx == order[0] && x.out == run(x.tx, s) && Genuine(run, Applied(s, x.out.deltas), rest)
    ensures Final(s, [x] + rest) == Final(s, h)
    ensures Select(order, Ids(h)) == [x.tx] + Select(order[1..], Ids(rest))
  {
    hide Applied, Conflict, WellBehaved, Genuine, Final, Respects, DistinctIds, Distinct, Without;
    var i :| 0 <= i < |h| && h[i].tx == order[0];
    x, rest := h[i], Without(h, i);
    NothingBeforeConflicts(h, i, order);
    MoveToFront(run, s, h, i);
    ConsGenuine(run, s, x, rest);
    RestRespects(h, i, order);
    RestIds(h, i);
    assert order[0] !in order[1..] by { RankTail(order); }
    SelectWithout(order[1..], Ids(h), x.tx);
    WithoutKeeps(h, i);
  }

  lemma RestIds(h: seq<Entry>, i: nat)
    requires i < |h| && DistinctIds(h)
    ensures Ids(Without(h, i)) == Ids(h) - {h[i].tx}
  {
    var rest := Without(h, i);
    forall j | 0 <= j < |h| && j != i ensures h[j] in rest {
      if j < i { assert rest[j] == h[j]; } else { assert rest[j - 1] == h[j]; }
    }
    forall e | e in rest ensures e in h && e.tx != h[i].tx {
      var j :| 0 <= j < |rest| && rest[j] == e;
      assert e == if j < i then h[j] else h[j + 1];
    }
  }

  lemma NothingBeforeConflicts(h: seq<Entry>, i: nat, order: seq<TxId>)
    requires Respects(h, order) && i < |h| && order != [] && h[i].tx == order[0]
    ensures forall j :: 0 <= j < i ==> !Conflict(h[j].out, h[i].out)
  {
    hide Conflict;
    assert Rank(order, order[0]) == 0;
    forall j | 0 <= j < i ensures !Conflict(h[j].out, h[i].out) {
      assert h[j] in h;
    }
  }

  /** Where entry `j` of `Without(h, i)` stands in `h`. */
  ghost function Skip(i: nat, j: nat): nat {
    if j < i then j else j + 1
  }

  lemma WithoutAt<T>(h: seq<T>, i: nat)
    requires i < |h|
    ensures |Without(h, i)| == |h| - 1
    ensures forall j :: 0 <= j < |h| - 1 ==> Without(h, i)[j] == h[Skip(i, j)]
  {
  }

  lemma RestIsOrdered(h: seq<Entry>, i: nat, order: seq<TxId>)
    requires i < |h| && DistinctIds(h) && order != [] && h[i].tx == order[0]
    requires forall e :: e in h ==> e.tx in order
    ensures DistinctIds(Without(h, i))
    ensures forall e :: e in Without(h, i) ==> e.tx in order[1..]
  {
    var rest := Without(h, i);
    WithoutAt(h, i);
    hide Without;
    forall e | e in rest ensures e.tx in order[1..] {
      var j :| 0 <= j < |rest| && rest[j] == e;
      assert e == h[Skip(i, j)] && e in h;
      assert order == [order[0]] + order[1..];
    }
  }

  lemma RestRespects(h: seq<Entry>, i: nat, order: seq<TxId>)
    requires i < |h| && DistinctIds(h) && Distinct(order) && Respects(h, order)
    requires order != [] && h[i].tx == order[0]
    ensures DistinctIds(Without(h, i)) && Distinct(order[1..]) && Respects(Without(h, i), order[1..])
  {
    hide Conflict, Rank, Without, DistinctIds, Distinct;
    var rest := Without(h, i);
    RestIsOrdered(h, i, order);
    WithoutAt(h, i);
    RankTail(order);
    forall a, b | 0 <= a < b < |rest| && Conflict(rest[a].out, rest[b].out)
      ensures Rank(order[1..], rest[a].tx) < Rank(order[1..], rest[b].tx)
    {
      assert rest[a] in rest && rest[b] in rest;
      assert Rank(order, h[Skip(i, a)].tx) < Rank(order, h[Skip(i, b)].tx);
    }
  }

  /** Serial equivalence: a history whose conflicts follow `order` leaves the
      store that running its transactions one at a time in `order` leaves. */
  lemma SerialEquivalence(run: Program, s: Store, h: seq<Entry>, order: seq<TxId>)
    requires WellBehaved(run) && Genuine(run, s, h)
    requires DistinctIds(h) && Distinct(order) && Respects(h, order)
    ensures Final(s, h) == Serial(run, s, Select(order, Ids(h)))
  {
    hide Applied, Conflict, WellBehaved, Genuine, Final, Serial, Select;
    var g := Rearrange(run, s, h, order);
    GenuineIsSerial(run, s, g, Select(order, Ids(h)));
  }

  lemma {:induction false} GenuineAt(run: Program, s: Store, h: seq<Entry>, i: nat)
    requires Genuine(run, s, h) && i < |h|
    ensures Genuine(run, s, h[..i]) && h[i].out == run(h[i].tx, Final(s, h[..i]))
    decreases |h|
  {
    hide Applied;
    if i > 0 {
      GenuineAt(run, Applied(s, h[0].out.deltas), h[1..], i - 1);
      assert h[..i][1..] == h[1..][..i - 1];
    }
  }

  /** In the serial run every transaction has the outcome it had in the history. */
  lemma SerialOutcomes(run: Program, s: Store, h: seq<Entry>, order: seq<TxId>, i: nat)
    requires WellBehaved(run) && Genuine(run, s, h)
    requires DistinctIds(h) && Distinct(order) && Respects(h, order) && i < |Select(order, Ids(h))|
    ensures
      var txs := Select(order, Ids(h));
      Entry(txs[i], run(txs[i], Serial(run, s, txs[..i]))) in h
  {
    hide Applied, Conflict, WellBehaved, Genuine, Final, Serial, Select, Respects, Ids;
    var txs := Select(order, Ids(h));
    var g := Rearrange(run, s, h, order);
    GenuineAt(run, s, g, i);
    GenuineIsSerial(run, s, g[..i], txs[..i]);
    assert g[i] in multiset(g);
    assert g[i] in multiset(h);
  }

  // ---------------------------------------------------- growing histories

  /** Appending one more run to a genuine history. */
  lemma {:induction false} Append(run: Program, s: Store, h: seq<Entry>, e: Entry)
    requires Genuine(run, s, h) && e.out == run(e.tx, Final(s, h))
    ensures Genuine(run, s, h + [e]) && Final(s, h + [e]) == Applied(Final(s, h), e.out.deltas)
    decreases |h|
  {
    hide Applied;
    if h == [] {
      assert h + [e] == [e] && [e][1..] == [];
    } else {
      assert (h + [e])[1..] == h[1..] + [e];
      Append(run, Applied(s, h[0].out.deltas), h[1..], e);
    }
  }

  lemma RespectsAppend(h: seq<Entry>, e: Entry, order: seq<TxId>)
    requires Respects(h, order) && e.tx in order
    requires forall x :: x in h && Conflict(x.out, e.out) ==> Rank(order, x.tx) < Rank(order, e.tx)
    ensures Respects(h + [e], order)
  {
    hide Rank, Conflict;
    var h' := h + [e];
    forall i, j | 0 <= i < j < |h'| && Conflict(h'[i].out, h'[j].out)
      ensures Rank(order, h'[i].tx) < Rank(order, h'[j].tx)
    {
      assert h'[i] == h[i] && h[i] in h;
    }
  }
}

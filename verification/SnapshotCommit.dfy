/**
 What the numbers are for: committing by number.  The survivors of a block executed
 on one snapshot; their writes are applied group by group in the order of their
 numbers.  That is a serial execution: in any listing of the survivors by number
 each of them reads what the snapshot held, and an address ends with the value of
 its highest-numbered surviving writer.
 */
module SnapshotCommit {
  import opened Sequences
  import opened Deltas
  import opened Footprint
  import opened AddressQueues
  import opened Nezha

  type Values = map<Key, int>

  /** What each transaction writes, given the state it executes on. */
  type Effects = (TxId, Values) -> Values

  ghost predicate SameAt(s: Values, s': Values, k: Key) {
    (k in s <==> k in s') && (k in s ==> s[k] == s'[k])
  }

  ghost predicate SameReads(edges: Edges, t: TxId, s: Values, s': Values) {
    forall k :: HasNode(edges, RWNode(t, k, Read)) ==> SameAt(s, s', k)
  }

  /** A transaction writes the addresses of its write nodes, and what it writes
      depends on the addresses of its read nodes. */
  ghost predicate Faithful(edges: Edges, f: Effects) {
    && (forall t, s, k :: k in f(t, s) <==> HasNode(edges, RWNode(t, k, Write)))
    && (forall t, s, s' :: SameReads(edges, t, s, s') ==> f(t, s) == f(t, s'))
  }

  /** The survivors, in the order of their numbers; ties stand in any order. */
  ghost predicate Listing(edges: Edges, s: State, txs: seq<TxId>) {
    && Distinct(txs) && (forall t :: t in txs <==> t in edges && Live(s, t))
    && (forall i, j :: 0 <= i < j < |txs| ==> Num(s, txs[i]) <= Num(s, txs[j]))
  }

  /** One at a time, each on what the ones before it left. */
  ghost function OneByOne(f: Effects, init: Values, txs: seq<TxId>): Values {
    if txs == [] then init
    else
      var s := OneByOne(f, init, txs[..|txs| - 1]);
      s + f(txs[|txs| - 1], s)
  }

  /** All executed on the snapshot, their writes applied in order. */
  ghost function FromSnapshot(f: Effects, init: Values, txs: seq<TxId>): Values {
    if txs == [] then init
    else FromSnapshot(f, init, txs[..|txs| - 1]) + f(txs[|txs| - 1], init)
  }

  /** Nobody listed writes `k`. */
  ghost predicate NoWriter(edges: Edges, txs: seq<TxId>, k: Key) {
    forall t :: t in txs ==> !HasNode(edges, RWNode(t, k, Write))
  }

  lemma {:induction false} UnwrittenStays(edges: Edges, f: Effects, init: Values, txs: seq<TxId>, k: Key)
    requires Faithful(edges, f) && NoWriter(edges, txs, k)
    ensures SameAt(init, FromSnapshot(f, init, txs), k)
  {
    hide HasNode;
    if txs != [] {
      var n := |txs| - 1;
      assert txs[n] in txs;
      UnwrittenStays(edges, f, init, txs[..n], k);
    }
  }

  ghost predicate WritesNothing(edges: Edges, t: TxId) {
    forall k :: !HasNode(edges, RWNode(t, k, Write))
  }

  /** Whoever reads what an earlier one wrote writes nothing itself. */
  ghost predicate Quiet(edges: Edges, txs: seq<TxId>) {
    forall i, j, k :: 0 <= i < j < |txs| && HasNode(edges, RWNode(txs[i], k, Write)) &&
                      HasNode(edges, RWNode(txs[j], k, Read)) ==>
                        WritesNothing(edges, txs[j])
  }

  /** Safe reads make every listing by number quiet: whoever comes before a reader of
      an address does not write it. */
  lemma SafeIsQuiet(edges: Edges, s: State, sequence: map<RWNode, int>, txs: seq<TxId>)
    requires SafeReads(edges, sequence, s.aborted) && Links(edges, s, sequence) && Listing(edges, s, txs)
    ensures Quiet(edges, txs)
  {
    forall i, j, k | 0 <= i < j < |txs|
      ensures !(HasNode(edges, RWNode(txs[i], k, Write)) && HasNode(edges, RWNode(txs[j], k, Read)))
    {
      var w, r := RWNode(txs[i], k, Write), RWNode(txs[j], k, Read);
      assert txs[i] in txs && txs[j] in txs && txs[i] != txs[j];
      assert HasNode(edges, w) && HasNode(edges, r) ==> Num(s, r.tx) < Num(s, w.tx);
    }
  }

  /** In a quiet listing everyone does what it did on the snapshot, so applying the
      writes in order is a serial execution. */
  lemma {:induction false} CommitIsSerial(edges: Edges, f: Effects, init: Values, txs: seq<TxId>, n: nat)
    requires Quiet(edges, txs) && Faithful(edges, f) && n <= |txs|
    ensures OneByOne(f, init, txs[..n]) == FromSnapshot(f, init, txs[..n])
    ensures n < |txs| ==> f(txs[n], OneByOne(f, init, txs[..n])) == f(txs[n], init)
    decreases n
  {
    hide Quiet, Faithful, HasNode;
    if n > 0 {
      CommitIsSerial(edges, f, init, txs, n - 1);
      assert txs[..n][..n - 1] == txs[..n - 1];
    }
    if n < |txs| {
      DoesTheSame(edges, f, init, txs, n);
    }
  }

  lemma DoesTheSame(edges: Edges, f: Effects, init: Values, txs: seq<TxId>, n: nat)
    requires Quiet(edges, txs) && Faithful(edges, f) && n < |txs|
    ensures f(txs[n], FromSnapshot(f, init, txs[..n])) == f(txs[n], init)
  {
    hide HasNode;
    var t, before := txs[n], FromSnapshot(f, init, txs[..n]);
    if WritesNothing(edges, t) {
      assert f(t, before) == map[] && f(t, init) == map[];
    } else {
      forall k | HasNode(edges, RWNode(t, k, Read)) ensures SameAt(init, before, k) {
        assert NoWriter(edges, txs[..n], k);
        UnwrittenStays(edges, f, init, txs[..n], k);
      }
      assert SameReads(edges, t, init, before);
    }
  }

  // -------------------------------------------------------- exact conditions

  /** In the serial execution of `txs` everyone acts as on the snapshot. */
  ghost predicate ActsAlike(f: Effects, init: Values, txs: seq<TxId>) {
    forall n :: 0 <= n < |txs| ==> f(txs[n], OneByOne(f, init, txs[..n])) == f(txs[n], init)
  }

  /** The last writer of `k` in the listing stands at `j`. */
  ghost predicate LastAt(edges: Edges, txs: seq<TxId>, j: int, k: Key) {
    && 0 <= j < |txs| && HasNode(edges, RWNode(txs[j], k, Write))
    && (forall h :: j < h < |txs| ==> !HasNode(edges, RWNode(txs[h], k, Write)))
  }

  /** The last writer of each address reads no address that an earlier one writes. */
  ghost predicate LastQuiet(edges: Edges, txs: seq<TxId>) {
    forall i, j, k, k' :: LastAt(edges, txs, j, k) && 0 <= i < j && HasNode(edges, RWNode(txs[i], k', Write)) ==>
                            !HasNode(edges, RWNode(txs[j], k', Read))
  }

  ghost function Written(edges: Edges, t: TxId): set<Key> {
    if t in edges then set n | n in edges[t] && n == RWNode(t, n.key, Write) :: n.key else {}
  }

  /** Everybody writes 1, but whoever reads `k` writes 0 where it finds nothing. */
  ghost function Probe(edges: Edges, k: Key, t: TxId, s: Values): Values {
    var v := if HasNode(edges, RWNode(t, k, Read)) && k !in s then 0 else 1;
    map k' | k' in Written(edges, t) :: v
  }

  lemma ProbeIsFaithful(edges: Edges, k: Key)
    ensures Faithful(edges, (t, s) => Probe(edges, k, t, s))
  {
    var f: Effects := (t, s) => Probe(edges, k, t, s);
    forall t, s, k' ensures k' in f(t, s) <==> HasNode(edges, RWNode(t, k', Write)) {
      assert k' in Written(edges, t) <==> HasNode(edges, RWNode(t, k', Write));
    }
    forall t, s, s' | SameReads(edges, t, s, s') ensures f(t, s) == f(t, s') {
      assert HasNode(edges, RWNode(t, k, Read)) ==> SameAt(s, s', k);
    }
  }

  lemma {:induction false} WrittenStays(f: Effects, init: Values, txs: seq<TxId>, i: nat, k: Key)
    requires i < |txs| && forall s :: k in f(txs[i], s)
    ensures k in OneByOne(f, init, txs)
  {
    var n := |txs| - 1;
    if i < n {
      WrittenStays(f, init, txs[..n], i, k);
    }
  }

  /** Effects that tell whether the `j`-th saw what the `i`-th wrote. */
  lemma Tell(edges: Edges, txs: seq<TxId>, i: nat, j: nat, k: Key, k': Key) returns (f: Effects, init: Values)
    requires i < j < |txs| && HasNode(edges, RWNode(txs[i], k, Write)) && HasNode(edges, RWNode(txs[j], k, Read))
    requires HasNode(edges, RWNode(txs[j], k', Write))
    ensures
      var s, t := OneByOne(f, init, txs[..j]), txs[j];
      Faithful(edges, f) && k' in f(t, s) && k' in f(t, init) && f(t, s)[k'] != f(t, init)[k']
  {
    hide HasNode, OneByOne;
    f, init := (t, s) => Probe(edges, k, t, s), map[];
    ProbeIsFaithful(edges, k);
    var s, t := OneByOne(f, init, txs[..j]), txs[j];
    assert k in s by {
      forall s' ensures k in f(txs[..j][i], s') {
        assert HasNode(edges, RWNode(txs[i], k, Write));
      }
      WrittenStays(f, init, txs[..j], i, k);
    }
    assert k' in f(t, s) && k' in f(t, init);
    assert f(t, s)[k'] == 1 && f(t, init)[k'] == 0;
  }

  /** Exactly in quiet listings everyone acts as on the snapshot, whatever the
      transactions compute. */
  lemma AlikeIff(edges: Edges, txs: seq<TxId>)
    ensures (forall f, init :: Faithful(edges, f) ==> ActsAlike(f, init, txs)) <==> Quiet(edges, txs)
  {
    hide Faithful, OneByOne, FromSnapshot, HasNode;
    if Quiet(edges, txs) {
      forall f, init | Faithful(edges, f) ensures ActsAlike(f, init, txs) {
        forall n | 0 <= n < |txs| ensures f(txs[n], OneByOne(f, init, txs[..n])) == f(txs[n], init) {
          CommitIsSerial(edges, f, init, txs, n);
        }
      }
    } else {
      var i, j, k :| 0 <= i < j < |txs| && HasNode(edges, RWNode(txs[i], k, Write)) &&
        HasNode(edges, RWNode(txs[j], k, Read)) && !WritesNothing(edges, txs[j]);
      var k' :| HasNode(edges, RWNode(txs[j], k', Write));
      var f, init := Tell(edges, txs, i, j, k, k');
      assert Faithful(edges, f) && !ActsAlike(f, init, txs);
    }
  }

  lemma {:induction false} UnwrittenInRun(edges: Edges, f: Effects, init: Values, txs: seq<TxId>, k: Key)
    requires Faithful(edges, f) && NoWriter(edges, txs, k)
    ensures SameAt(init, OneByOne(f, init, txs), k)
  {
    hide HasNode;
    if txs != [] {
      var n := |txs| - 1;
      assert txs[n] in txs;
      UnwrittenInRun(edges, f, init, txs[..n], k);
    }
  }

  lemma {:induction false} LastInRun(edges: Edges, f: Effects, init: Values, txs: seq<TxId>, j: nat, k: Key)
    requires Faithful(edges, f) && LastAt(edges, txs, j, k)
    ensures
      var s := OneByOne(f, init, txs[..j]);
      k in f(txs[j], s) && k in OneByOne(f, init, txs) && OneByOne(f, init, txs)[k] == f(txs[j], s)[k]
  {
    hide HasNode;
    var n := |txs| - 1;
    if j < n {
      LastInRun(edges, f, init, txs[..n], j, k);
      assert txs[..n][..j] == txs[..j];
    }
  }

  lemma {:induction false} SomeLast(edges: Edges, txs: seq<TxId>, k: Key)
    ensures NoWriter(edges, txs, k) || exists j :: LastAt(edges, txs, j, k)
  {
    hide HasNode;
    if txs != [] {
      var n := |txs| - 1;
      if HasNode(edges, RWNode(txs[n], k, Write)) {
        assert LastAt(edges, txs, n, k);
      } else {
        SomeLast(edges, txs[..n], k);
        if j :| LastAt(edges, txs[..n], j, k) {
          assert LastAt(edges, txs, j, k);
        }
      }
    }
  }

  lemma SameInBoth(edges: Edges, f: Effects, init: Values, txs: seq<TxId>, k: Key)
    requires Faithful(edges, f) && LastQuiet(edges, txs)
    ensures SameAt(OneByOne(f, init, txs), FromSnapshot(f, init, txs), k)
  {
    hide HasNode, OneByOne, FromSnapshot;
    SomeLast(edges, txs, k);
    if j :| LastAt(edges, txs, j, k) {
      var s, t := OneByOne(f, init, txs[..j]), txs[j];
      forall k' | HasNode(edges, RWNode(t, k', Read)) ensures SameAt(init, s, k') {
        assert NoWriter(edges, txs[..j], k');
        UnwrittenInRun(edges, f, init, txs[..j], k');
      }
      assert SameReads(edges, t, init, s);
      LastInRun(edges, f, init, txs, j, k);
      LastWriteStands(edges, f, init, txs, j, k);
    } else {
      UnwrittenInRun(edges, f, init, txs, k);
      UnwrittenStays(edges, f, init, txs, k);
    }
  }

  lemma SameEverywhere(s: Values, s': Values)
    requires forall k :: SameAt(s, s', k)
    ensures s == s'
  {
    forall k ensures k in s <==> k in s' ensures k in s ==> s[k] == s'[k] {
      assert SameAt(s, s', k);
    }
  }

  /** Exactly if last writers read nothing written before them is the commit the
      serial execution, whatever the transactions compute. */
  lemma SerialIff(edges: Edges, txs: seq<TxId>)
    ensures (forall f, init :: Faithful(edges, f) ==> OneByOne(f, init, txs) == FromSnapshot(f, init, txs)) <==>
            LastQuiet(edges, txs)
  {
    hide Faithful, OneByOne, FromSnapshot, HasNode;
    if LastQuiet(edges, txs) {
      forall f, init | Faithful(edges, f) ensures OneByOne(f, init, txs) == FromSnapshot(f, init, txs) {
        forall k ensures SameAt(OneByOne(f, init, txs), FromSnapshot(f, init, txs), k) {
          SameInBoth(edges, f, init, txs, k);
        }
        SameEverywhere(OneByOne(f, init, txs), FromSnapshot(f, init, txs));
      }
    } else {
      var i, j, k, k' :| LastAt(edges, txs, j, k) && 0 <= i < j && HasNode(edges, RWNode(txs[i], k', Write)) &&
        HasNode(edges, RWNode(txs[j], k', Read));
      var f, init := Tell(edges, txs, i, j, k', k);
      LastInRun(edges, f, init, txs, j, k);
      LastWriteStands(edges, f, init, txs, j, k);
    }
  }

  lemma QuietIsLastQuiet(edges: Edges, txs: seq<TxId>)
    requires Quiet(edges, txs)
    ensures LastQuiet(edges, txs)
  {
    hide HasNode;
  }

  // ------------------------------------------------------------ last writers

  /** `t` is the highest-numbered surviving writer of `k`, and no other has its number. */
  ghost predicate LastWriter(edges: Edges, s: State, k: Key, t: TxId) {
    && t in edges && HasNode(edges, RWNode(t, k, Write)) && Live(s, t)
    && (forall u :: u != t && HasNode(edges, RWNode(u, k, Write)) && Live(s, u) ==> Num(s, u) < Num(s, t))
  }

  lemma {:induction false} LastWriteStands(edges: Edges, f: Effects, init: Values, txs: seq<TxId>, i: nat, k: Key)
    requires Faithful(edges, f) && LastAt(edges, txs, i, k)
    ensures k in f(txs[i], init) && k in FromSnapshot(f, init, txs) && FromSnapshot(f, init, txs)[k] == f(txs[i], init)[k]
  {
    hide HasNode;
    var n := |txs| - 1;
    if i < n {
      LastWriteStands(edges, f, init, txs[..n], i, k);
    }
  }

  /** An address ends with what its last writer computed on the snapshot, whichever
      way ties between other transactions are listed. */
  lemma HighestWriteStands(edges: Edges, s: State, f: Effects, init: Values, txs: seq<TxId>, k: Key, t: TxId)
    requires Listing(edges, s, txs) && Faithful(edges, f) && LastWriter(edges, s, k, t)
    ensures k in f(t, init) && k in FromSnapshot(f, init, txs) && FromSnapshot(f, init, txs)[k] == f(t, init)[k]
  {
    hide Faithful, FromSnapshot;
    assert t in txs;
    var i :| 0 <= i < |txs| && txs[i] == t;
    forall j | i < j < |txs| ensures !HasNode(edges, RWNode(txs[j], k, Write)) {
      assert txs[j] in txs && txs[j] != t;
    }
    LastWriteStands(edges, f, init, txs, i, k);
  }

  /** The surviving writers of `k` have different numbers. */
  ghost predicate WritersApart(edges: Edges, s: State, k: Key) {
    forall t, u :: t != u && LiveWriter(edges, s, k, t) && LiveWriter(edges, s, k, u) ==> Num(s, t) != Num(s, u)
  }

  ghost predicate LiveWriter(edges: Edges, s: State, k: Key, t: TxId) {
    HasNode(edges, RWNode(t, k, Write)) && Live(s, t)
  }

  /** The highest-numbered of a set of writers. */
  lemma {:induction false} Highest(s: State, txs: set<TxId>) returns (t: TxId)
    requires txs != {}
    ensures t in txs && forall u :: u in txs ==> Num(s, u) <= Num(s, t)
  {
    hide Num;
    t :| t in txs;
    var rest := txs - {t};
    assert txs == rest + {t};
    if rest != {} {
      var u := Highest(s, rest);
      if Num(s, t) <= Num(s, u) {
        t := u;
      }
    }
  }

  /** Writers that are apart have a last one, or there are none. */
  lemma SomeLastWriter(edges: Edges, s: State, k: Key)
    requires WritersApart(edges, s, k)
    ensures (exists t :: LastWriter(edges, s, k, t)) || (forall t :: !LiveWriter(edges, s, k, t))
  {
    hide Num;
    var writers := set t | t in edges && LiveWriter(edges, s, k, t);
    if writers != {} {
      var t := Highest(s, writers);
      forall u | u != t && LiveWriter(edges, s, k, u) ensures Num(s, u) < Num(s, t) {
        assert u in writers;
      }
      assert LastWriter(edges, s, k, t);
    } else {
      assert forall t :: LiveWriter(edges, s, k, t) ==> t in writers;
    }
  }

  /** Any two listings by number leave the same value at an address whose surviving
      writers are apart: the order inside a group does not show there. */
  lemma ListingsAgree(edges: Edges, s: State, f: Effects, init: Values, txs: seq<TxId>, txs': seq<TxId>, k: Key)
    requires Listing(edges, s, txs) && Listing(edges, s, txs') && Faithful(edges, f) && WritersApart(edges, s, k)
    ensures SameAt(FromSnapshot(f, init, txs), FromSnapshot(f, init, txs'), k)
  {
    hide Faithful, FromSnapshot, LastWriter, WritersApart;
    SomeLastWriter(edges, s, k);
    if t :| LastWriter(edges, s, k, t) {
      HighestWriteStands(edges, s, f, init, txs, k, t);
      HighestWriteStands(edges, s, f, init, txs', k, t);
    } else {
      assert forall t :: t in txs || t in txs' ==> !LiveWriter(edges, s, k, t);
      UnwrittenStays(edges, f, init, txs, k);
      UnwrittenStays(edges, f, init, txs', k);
    }
  }

  // -------------------------------------------------------------- whole runs

  /** Any two surviving writers of `k` write the same address last. */
  ghost predicate WrittenLast(edges: Edges, s: State, order: seq<Key>, k: Key) {
    forall t, u :: t != u && LiveWriter(edges, s, k, t) && LiveWriter(edges, s, k, u) ==> LastTogether(edges, order, t, u)
  }

  lemma WrittenLastApart(edges: Edges, s: State, order: seq<Key>, sequence: map<RWNode, int>, k: Key)
    requires ApartNodes(edges, order, sequence, s.aborted) && Links(edges, s, sequence)
    requires WrittenLast(edges, s, order, k)
    ensures WritersApart(edges, s, k)
  {
    hide LastTogether;
    forall t, u | t != u && LiveWriter(edges, s, k, t) && LiveWriter(edges, s, k, u) ensures Num(s, t) != Num(s, u) {
      var w, w' := RWNode(t, k, Write), RWNode(u, k, Write);
      assert HasNode(edges, w) && HasNode(edges, w');
    }
  }

  /** What a block's numbers are good for: committing the survivors by number is a
      serial execution, and an address whose surviving writers all write the same
      address last ends with the value of the highest-numbered one. */
  lemma CommitByNumber(edges: Edges, s: State, order: seq<Key>, sequence: map<RWNode, int>, f: Effects, init: Values,
                       txs: seq<TxId>)
    requires SafeReads(edges, sequence, s.aborted) && ApartNodes(edges, order, sequence, s.aborted)
    requires Links(edges, s, sequence) && Listing(edges, s, txs) && Faithful(edges, f)
    ensures OneByOne(f, init, txs) == FromSnapshot(f, init, txs) && ActsAlike(f, init, txs)
    ensures forall k :: WrittenLast(edges, s, order, k) ==>
              (exists t :: LastWriter(edges, s, k, t)) || (forall t :: !LiveWriter(edges, s, k, t))
    ensures forall k, t :: LastWriter(edges, s, k, t) ==>
              k in f(t, init) && k in OneByOne(f, init, txs) && OneByOne(f, init, txs)[k] == f(t, init)[k]
  {
    hide SafeReads, ApartNodes, Links, Listing, Faithful, OneByOne, FromSnapshot, LastWriter, LiveWriter, WrittenLast,
         WritersApart, Quiet;
    SafeIsQuiet(edges, s, sequence, txs);
    AlikeIff(edges, txs);
    CommitIsSerial(edges, f, init, txs, |txs|);
    assert txs[..|txs|] == txs;
    forall k | WrittenLast(edges, s, order, k)
      ensures (exists t :: LastWriter(edges, s, k, t)) || (forall t :: !LiveWriter(edges, s, k, t))
    {
      WrittenLastApart(edges, s, order, sequence, k);
      SomeLastWriter(edges, s, k);
    }
    forall k, t | LastWriter(edges, s, k, t)
      ensures k in f(t, init) && k in OneByOne(f, init, txs) && OneByOne(f, init, txs)[k] == f(t, init)[k]
    {
      HighestWriteStands(edges, s, f, init, txs, k, t);
    }
  }
}

/**
 What `sortInQueue` does to the sequence numbers, as a function of the state it is
 called in, phase by phase.
 */
module SortFunction {
  import opened Sequences
  import opened Deltas
  import opened Footprint
  import opened AddressQueues

  // ------------------------------------------------------------ the reads

  ghost function DeterminedOf(s: State, rs: seq<RWNode>): seq<RWNode> {
    if rs == [] then []
    else
      var r := rs[|rs| - 1];
      DeterminedOf(s, rs[..|rs| - 1]) + if Determined(s, r.tx) then [r] else []
  }

  ghost function Least(s: State, rs: seq<RWNode>): int {
    if rs == [] then MAX_INT32
    else
      var m, x := Least(s, rs[..|rs| - 1]), Num(s, rs[|rs| - 1].tx);
      if x < m then x else m
  }

  ghost function Greatest(s: State, rs: seq<RWNode>): int {
    if rs == [] then 0
    else
      var m, x := Greatest(s, rs[..|rs| - 1]), Num(s, rs[|rs| - 1].tx);
      if x > m then x else m
  }

  /** Readers take `x`: all of them, or those without a number. */
  ghost function ReadsAt(rs: seq<RWNode>, s: State, x: int, all: bool): State {
    if rs == [] then s
    else
      var r, s' := rs[|rs| - 1], ReadsAt(rs[..|rs| - 1], s, x, all);
      if all || Num(s', r.tx) == 0 then Put(s', r, x) else s'
  }

  /** A state, and the largest number handed out at the address. */
  datatype Mark = Mark(s: State, top: int)

  ghost function ReadPhase(q: Queue, s: State): Mark {
    var tmp := DeterminedOf(s, q.rSlice);
    if tmp == [] then Mark(ReadsAt(q.rSlice, s, INITIAL_SEQUENCE, true), if q.rSlice == [] then 0 else INITIAL_SEQUENCE)
    else
      var flagged := s.(marked := s.marked + Elements(tmp));
      Mark(ReadsAt(q.rSlice, flagged, Least(s, tmp), false), Greatest(s, tmp))
  }

  // ----------------------------------------------------------- the writes

  ghost predicate ReadHere(edges: Edges, s: State, w: RWNode) {
    exists n :: HasNode(edges, n) && n.tx == w.tx && n.kind == Read && n in s.marked && n.key == w.key
  }

  ghost predicate ReadThere(edges: Edges, s: State, w: RWNode) {
    exists n :: HasNode(edges, n) && n.tx == w.tx && n.kind == Read && n in s.marked && n.key != w.key
  }

  datatype Classes = Classes(s: State, rmw: seq<RWNode>, others: map<int, seq<RWNode>>)

  ghost function ClassifyStep(edges: Edges, c: Classes, w: RWNode, m: int): Classes {
    if !Determined(c.s, w.tx) then c
    else if Num(c.s, w.tx) <= m && ReadHere(edges, c.s, w) then c.(rmw := c.rmw + [w])
    else if Num(c.s, w.tx) <= m && ReadThere(edges, c.s, w) then c.(s := c.s.(aborted := c.s.aborted + {w.tx}))
    else c.(others := Filed(c.others, Num(c.s, w.tx), w))
  }

  ghost function ClassifyPhase(edges: Edges, ws: seq<RWNode>, s: State, m: int): Classes {
    if ws == [] then Classes(s, [], map[])
    else ClassifyStep(edges, ClassifyPhase(edges, ws[..|ws| - 1], s, m), ws[|ws| - 1], m)
  }

  ghost function RmwPhase(keep: bool, rmw: seq<RWNode>, s: State, base: int): Mark {
    if rmw == [] then Mark(s, base)
    else
      var n := |rmw| - 1;
      var w, p := rmw[n], RmwPhase(keep, rmw[..n], s, base);
      if n == 0 || keep then Mark(Put(p.s, w, p.top + 1), p.top + 1)
      else Mark(p.s.(aborted := p.s.aborted + {w.tx}), p.top)
  }

  lemma NoRmw(keep: bool, s: State, base: int)
    ensures RmwPhase(keep, [], s, base) == Mark(s, base)
  {
  }

  lemma RmwNext(keep: bool, rmw: seq<RWNode>, s: State, base: int, i: nat)
    requires i < |rmw|
    ensures
      var w, p := rmw[i], RmwPhase(keep, rmw[..i], s, base);
      RmwPhase(keep, rmw[..i + 1], s, base) ==
        if i == 0 || keep then Mark(Put(p.s, w, p.top + 1), p.top + 1)
        else Mark(p.s.(aborted := p.s.aborted + {w.tx}), p.top)
  {
    assert rmw[..i + 1][..i] == rmw[..i];
  }

  /** The first number from `x` on that is not in `keys`. */
  ghost function FirstFree(keys: set<int>, x: int): int
    decreases keys
  {
    if x in keys then FirstFree(keys - {x}, x + 1) else x
  }

  lemma {:induction false} FirstFreeIs(keys: set<int>, x: int, y: int)
    requires x <= y && y !in keys && forall z :: x <= z < y ==> z in keys
    ensures FirstFree(keys, x) == y
    decreases keys
  {
    if x in keys {
      FirstFreeIs(keys - {x}, x + 1, y);
    }
  }

  ghost function NewStep(keys: set<int>, w: RWNode, p: Mark): Mark {
    if Num(p.s, w.tx) == 0 then
      var x := FirstFree(keys, p.top + 1);
      Mark(Put(p.s, w, x), x)
    else p
  }

  ghost function NewPhase(keys: set<int>, ws: seq<RWNode>, s: State, top: int): Mark {
    if ws == [] then Mark(s, top)
    else NewStep(keys, ws[|ws| - 1], NewPhase(keys, ws[..|ws| - 1], s, top))
  }

  ghost function MoveBucketOf(bucket: seq<RWNode>, keepFirst: bool, s: State, top: int): Mark {
    if bucket == [] then Mark(s, top)
    else
      var n := |bucket| - 1;
      var p := MoveBucketOf(bucket[..n], keepFirst, s, top);
      if keepFirst && n == 0 then p else Mark(Put(p.s, bucket[n], p.top + 1), p.top + 1)
  }

  lemma NoMove(keepFirst: bool, s: State, top: int)
    ensures MoveBucketOf([], keepFirst, s, top) == Mark(s, top)
  {
  }

  lemma MoveNext(bucket: seq<RWNode>, keepFirst: bool, s: State, top: int, i: nat)
    requires i < |bucket|
    ensures
      var p := MoveBucketOf(bucket[..i], keepFirst, s, top);
      MoveBucketOf(bucket[..i + 1], keepFirst, s, top) ==
        if keepFirst && i == 0 then p else Mark(Put(p.s, bucket[i], p.top + 1), p.top + 1)
  {
    assert bucket[..i + 1][..i] == bucket[..i];
  }

  ghost function MovePhase(keys: seq<int>, others: map<int, seq<RWNode>>, mr: int, s: State, top: int): Mark {
    if keys == [] then Mark(s, top)
    else
      var n := keys[|keys| - 1];
      var p := MovePhase(keys[..|keys| - 1], others, mr, s, top);
      if n in others then MoveBucketOf(others[n], n > mr, p.s, p.top) else p
  }

  // -------------------------------------------------------- the whole call

  ghost predicate Ascending(keys: seq<int>, numbers: set<int>) {
    (forall i, j :: 0 <= i < j < |keys| ==> keys[i] < keys[j]) && Elements(keys) == numbers
  }

  /** The numbers in increasing order are one sequence. */
  lemma {:induction false} AscendingIsOne(a: seq<int>, b: seq<int>, numbers: set<int>)
    requires Ascending(a, numbers) && Ascending(b, numbers)
    ensures a == b
    decreases |a|
  {
    if a == [] {
      assert b == [] by {
        if b != [] {
          HasElement(b);
        }
      }
    } else {
      var i, j := |a| - 1, |b| - 1;
      assert a[i] in Elements(a);
      HasElement(a);
      assert b != [];
      assert b[j] in Elements(b) && a[i] in Elements(b) && b[j] in Elements(a);
      assert a[i] == b[j];
      AscendingFront(a, numbers);
      AscendingFront(b, numbers);
      AscendingIsOne(a[..i], b[..j], numbers - {a[i]});
      assert a == a[..i] + [a[i]] && b == b[..j] + [b[j]];
    }
  }

  lemma HasElement(a: seq<int>)
    requires a != []
    ensures Elements(a) != {}
  {
    var x := a[0];
    assert x in a;
    assert x in Elements(a);
  }

  lemma AscendingFront(a: seq<int>, numbers: set<int>)
    requires Ascending(a, numbers) && a != []
    ensures Ascending(a[..|a| - 1], numbers - {a[|a| - 1]})
  {
    var i := |a| - 1;
    assert a == a[..i] + [a[i]];
    assert forall x :: x in Elements(a[..i]) <==> x in numbers - {a[i]};
  }

  /** The state after the call, with the address's new maxima. */
  datatype Result = Result(s: State, maxRead: int, maxWrite: int)

  function Top(keys: seq<int>, top: int): int {
    if keys != [] && top < keys[|keys| - 1] then keys[|keys| - 1] else top
  }

  ghost function SortedWith(edges: Edges, keep: bool, q: Queue, s: State, keys: seq<int>): Result {
    var r := ReadPhase(q, s);
    var c := ClassifyPhase(edges, q.wSlice, r.s, r.top);
    var w := RmwPhase(keep, c.rmw, c.s, Base(r.top));
    var mr := if c.rmw == [] then r.top else w.top;
    var n := NewPhase(c.others.Keys, q.wSlice, w.s, w.top);
    var m := MovePhase(keys, c.others, mr, n.s, Top(keys, n.top));
    Result(m.s, mr, m.top)
  }

  /** The numbers that kept writes hold. */
  ghost function KeysOf(edges: Edges, q: Queue, s: State): set<int> {
    var r := ReadPhase(q, s);
    ClassifyPhase(edges, q.wSlice, r.s, r.top).others.Keys
  }

  /** `r` is what sorting the queue `q` makes of the state `s`. */
  ghost predicate SortsTo(edges: Edges, keep: bool, q: Queue, s: State, r: Result) {
    exists keys :: Ascending(keys, KeysOf(edges, q, s)) && r == SortedWith(edges, keep, q, s, keys)
  }

  /** There is one such result. */
  lemma SortsToOne(edges: Edges, keep: bool, q: Queue, s: State, r: Result, r': Result)
    requires SortsTo(edges, keep, q, s, r) && SortsTo(edges, keep, q, s, r')
    ensures r == r'
  {
    hide SortedWith, KeysOf, Ascending;
    var keys :| Ascending(keys, KeysOf(edges, q, s)) && r == SortedWith(edges, keep, q, s, keys);
    var keys' :| Ascending(keys', KeysOf(edges, q, s)) && r' == SortedWith(edges, keep, q, s, keys');
    AscendingIsOne(keys, keys', KeysOf(edges, q, s));
  }
}

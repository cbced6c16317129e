/**
 Sequences without repetition, and the sets of their elements.
 */
module Sequences {

  ghost predicate Distinct<T>(s: seq<T>) {
    forall i, j :: 0 <= i < j < |s| ==> s[i] != s[j]
  }

  ghost function Elements<T>(s: seq<T>): set<T> {
    set x | x in s
  }

  lemma HasMember<T>(s: seq<T>)
    requires s != []
    ensures exists x :: x in s
  {
    assert s[0] in s;
  }

  lemma {:induction false} DistinctSize<T>(s: seq<T>)
    requires Distinct(s)
    ensures |Elements(s)| == |s|
  {
    if s != [] {
      var n := |s| - 1;
      assert s == s[..n] + [s[n]];
      DistinctSize(s[..n]);
      assert Elements(s) == Elements(s[..n]) + {s[n]};
    }
  }

  lemma SubsetSize<T>(a: set<T>, b: set<T>)
    requires a <= b
    ensures |a| <= |b|
  {
    assert b == a + (b - a);
  }

  /** A set of members is no larger than the sequence. */
  lemma {:induction false} Fits<T>(s: seq<T>, a: set<T>)
    requires forall x :: x in a ==> x in s
    ensures |a| <= |s|
  {
    if s == [] {
      assert a == {};
    } else {
      var n := |s| - 1;
      var rest := a - {s[n]};
      forall x | x in rest ensures x in s[..n] {
        assert x in s;
      }
      Fits(s[..n], rest);
      SubsetSize(a, rest + {s[n]});
    }
  }

  /** Where an element first stands. */
  ghost function Rank<T>(s: seq<T>, x: T): (r: nat)
    requires x in s
    ensures r < |s| && s[r] == x
  {
    if s[0] == x then 0 else 1 + Rank(s[1..], x)
  }

  lemma {:induction false} RankAppend<T>(s: seq<T>, x: T, y: T)
    requires y in s + [x]
    ensures Rank(s + [x], y) == if y in s then Rank(s, y) else |s|
  {
    if s != [] && s[0] != y {
      assert (s + [x])[1..] == s[1..] + [x];
      RankAppend(s[1..], x, y);
    }
  }

  /** `r` lists members of `s` in the order of their first occurrences. */
  ghost predicate ByFirst<T>(s: seq<T>, r: seq<T>) {
    && (forall x :: x in r ==> x in s)
    && (forall i, j :: 0 <= i < j < |r| ==> Rank(s, r[i]) < Rank(s, r[j]))
  }

  /** A first occurrence may be listed or passed over; a repetition changes nothing. */
  lemma ByFirstMore<T>(s: seq<T>, r: seq<T>, x: T)
    requires ByFirst(s, r)
    ensures ByFirst(s + [x], r) && (x !in s ==> ByFirst(s + [x], r + [x]))
  {
    hide Rank;
    forall y | y in s + [x] ensures Rank(s + [x], y) == if y in s then Rank(s, y) else |s| {
      RankAppend(s, x, y);
    }
    assert forall i :: 0 <= i < |r| ==> r[i] in r;
  }

  function Flatten<T>(ss: seq<seq<T>>): seq<T> {
    if ss == [] then [] else Flatten(ss[..|ss| - 1]) + ss[|ss| - 1]
  }

  lemma FlattenMore<T>(ss: seq<seq<T>>, i: nat)
    requires i < |ss|
    ensures Flatten(ss[..i + 1]) == Flatten(ss[..i]) + ss[i]
  {
    assert ss[..i + 1][..i] == ss[..i];
  }
}

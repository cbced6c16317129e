/**
 `sort.Strings`, `sort.Ints` and `sort.Slice` by identifier, as one insertion
 sort over a total order, and the byte-wise order of strings.
 */
module Sorting {

  ghost predicate TotalOrder<T(!new)>(le: (T, T) -> bool) {
    && (forall a, b :: le(a, b) || le(b, a))
    && (forall a, b :: le(a, b) && le(b, a) ==> a == b)
    && (forall a, b, c :: le(a, b) && le(b, c) ==> le(a, c))
  }

  ghost predicate Sorted<T>(le: (T, T) -> bool, s: seq<T>) {
    forall i, j :: 0 <= i < j < |s| ==> le(s[i], s[j])
  }

  function Insert<T>(le: (T, T) -> bool, x: T, s: seq<T>): seq<T> {
    if s == [] then [x]
    else if le(x, s[0]) then [x] + s
    else [s[0]] + Insert(le, x, s[1..])
  }

  lemma {:induction false} InsertKeeps<T>(le: (T, T) -> bool, x: T, s: seq<T>)
    ensures multiset(Insert(le, x, s)) == multiset(s) + multiset{x}
  {
    if s != [] {
      InsertKeeps(le, x, s[1..]);
      assert s == [s[0]] + s[1..];
    }
  }

  lemma ConsSorted<T(!new)>(le: (T, T) -> bool, x: T, s: seq<T>)
    requires Sorted(le, s) && forall y :: y in s ==> le(x, y)
    ensures Sorted(le, [x] + s)
  {
  }

  lemma {:induction false} InsertSorts<T(!new)>(le: (T, T) -> bool, x: T, s: seq<T>)
    requires TotalOrder(le) && Sorted(le, s)
    ensures Sorted(le, Insert(le, x, s))
  {
    if s != [] {
      if le(x, s[0]) {
        forall y | y in s ensures le(x, y) {
          assert y == s[0] || le(s[0], y);
        }
        ConsSorted(le, x, s);
      } else {
        var t := Insert(le, x, s[1..]);
        InsertSorts(le, x, s[1..]);
        InsertKeeps(le, x, s[1..]);
        hide Insert, Sorted;
        forall y | y in t ensures le(s[0], y) {
          assert y in multiset(t);
          assert y == x || y in s[1..];
          HeadLeast(le, s);
        }
        ConsSorted(le, s[0], t);
        InsertStep(le, x, s);
      }
    }
  }

  lemma InsertStep<T>(le: (T, T) -> bool, x: T, s: seq<T>)
    requires s != [] && !le(x, s[0])
    ensures Insert(le, x, s) == [s[0]] + Insert(le, x, s[1..])
  {
  }

  lemma HeadLeast<T>(le: (T, T) -> bool, s: seq<T>)
    requires Sorted(le, s) && s != []
    ensures forall y :: y in s[1..] ==> le(s[0], y)
  {
  }

  function Sort<T(!new)>(le: (T, T) -> bool, s: seq<T>): (r: seq<T>)
    requires TotalOrder(le)
    ensures Sorted(le, r) && multiset(r) == multiset(s)
  {
    if s == [] then []
    else
      var t := Sort(le, s[1..]);
      assert s == [s[0]] + s[1..];
      InsertKeeps(le, s[0], t);
      InsertSorts(le, s[0], t);
      Insert(le, s[0], t)
  }

  /** Sorting keeps the elements, their number, and their distinctness. */
  lemma SortKeeps<T(!new)>(le: (T, T) -> bool, s: seq<T>)
    requires TotalOrder(le)
    ensures |Sort(le, s)| == |s|
    ensures forall x :: x in Sort(le, s) <==> x in s
    ensures (forall i, j :: 0 <= i < j < |s| ==> s[i] != s[j]) ==>
              forall i, j :: 0 <= i < j < |s| ==> Sort(le, s)[i] != Sort(le, s)[j]
  {
    var r := Sort(le, s);
    hide Sort;
    SameMultiset(s, r);
  }

  lemma SameMultiset<T>(s: seq<T>, r: seq<T>)
    requires multiset(s) == multiset(r)
    ensures |r| == |s|
    ensures forall x :: x in r <==> x in s
    ensures (forall i, j :: 0 <= i < j < |s| ==> s[i] != s[j]) ==> forall i, j :: 0 <= i < j < |r| ==> r[i] != r[j]
  {
    assert |multiset(s)| == |s| && |multiset(r)| == |r|;
    forall x ensures x in r <==> x in s {
      assert x in multiset(s) <==> x in s;
      assert x in multiset(r) <==> x in r;
    }
    if forall i, j :: 0 <= i < j < |s| ==> s[i] != s[j] {
      DistinctMultiset(s);
      forall i, j | 0 <= i < j < |r| ensures r[i] != r[j] {
        RepeatedCount(r, i, j);
      }
    }
  }

  lemma RepeatedCount<T>(r: seq<T>, i: nat, j: nat)
    requires i < j < |r|
    ensures r[i] == r[j] ==> multiset(r)[r[i]] >= 2
  {
    assert r == r[..i] + [r[i]] + r[i + 1..j] + [r[j]] + r[j + 1..];
  }

  lemma {:induction false} DistinctMultiset<T>(s: seq<T>)
    requires forall i, j :: 0 <= i < j < |s| ==> s[i] != s[j]
    ensures forall x :: multiset(s)[x] <= 1
  {
    if s != [] {
      var t := s[1..];
      DistinctMultiset(t);
      assert s == [s[0]] + t;
      assert s[0] !in t;
      assert s[0] !in multiset(t);
    }
  }

  // ------------------------------------------------------------- strings

  predicate StringLe(a: string, b: string) {
    if a == [] then true
    else if b == [] then false
    else a[0] < b[0] || (a[0] == b[0] && StringLe(a[1..], b[1..]))
  }

  lemma {:induction false} StringLeTotal(a: string, b: string)
    ensures StringLe(a, b) || StringLe(b, a)
    ensures StringLe(a, b) && StringLe(b, a) ==> a == b
  {
    if a != [] && b != [] {
      StringLeTotal(a[1..], b[1..]);
      assert a == [a[0]] + a[1..] && b == [b[0]] + b[1..];
    }
  }

  lemma {:induction false} StringLeTransitive(a: string, b: string, c: string)
    requires StringLe(a, b) && StringLe(b, c)
    ensures StringLe(a, c)
  {
    if a != [] && a[0] == b[0] && b[0] == c[0] {
      StringLeTransitive(a[1..], b[1..], c[1..]);
    }
  }

  lemma StringOrder()
    ensures TotalOrder(StringLe)
  {
    forall a, b ensures StringLe(a, b) || StringLe(b, a) ensures StringLe(a, b) && StringLe(b, a) ==> a == b {
      StringLeTotal(a, b);
    }
    forall a, b, c | StringLe(a, b) && StringLe(b, c) ensures StringLe(a, c) {
      StringLeTransitive(a, b, c);
    }
  }

  /** `a` ends at `i`, or has the smaller character there, after a common beginning. */
  ghost predicate Differ(a: string, b: string, i: nat) {
    i <= |a| && i <= |b| && a[..i] == b[..i] && (i == |a| || (i < |b| && a[i] < b[i]))
  }

  /** The order of the dictionary. */
  ghost predicate InDictionary(a: string, b: string) {
    exists i: nat :: Differ(a, b, i)
  }

  lemma DifferTail(a: string, b: string, i: nat)
    requires a != [] && b != [] && a[0] == b[0]
    ensures Differ(a[1..], b[1..], i) <==> Differ(a, b, i + 1)
  {
    if i < |a| && i < |b| {
      assert a[..i + 1] == [a[0]] + a[1..][..i] && b[..i + 1] == [b[0]] + b[1..][..i];
      assert a[1..][..i] == a[..i + 1][1..] && b[1..][..i] == b[..i + 1][1..];
    }
  }

  /** The comparison is the order of the dictionary. */
  lemma {:induction false} StringLeIs(a: string, b: string)
    ensures StringLe(a, b) <==> InDictionary(a, b)
  {
    if a == [] || b == [] || a[0] < b[0] {
      assert a == [] || (b != [] && a[0] < b[0]) ==> Differ(a, b, 0);
      if b == [] && a != [] {
        assert forall i: nat :: !Differ(a, b, i);
      }
    } else if a[0] == b[0] {
      StringLeIs(a[1..], b[1..]);
      if i: nat :| Differ(a[1..], b[1..], i) {
        DifferTail(a, b, i);
      }
      if i: nat :| Differ(a, b, i) {
        FirstDiffers(a, b, i);
        DifferTail(a, b, i - 1);
      }
    } else {
      forall i: nat ensures !Differ(a, b, i) {
        assert i > 0 && i <= |a| && i <= |b| ==> a[..i][0] == a[0] && b[..i][0] == b[0];
      }
    }
  }

  lemma FirstDiffers(a: string, b: string, i: nat)
    requires a != [] && b != [] && a[0] == b[0] && Differ(a, b, i)
    ensures i > 0
  {
  }

  /** Listed as in a dictionary. */
  ghost predicate Alphabetical(s: seq<string>) {
    forall i, j :: 0 <= i < j < |s| ==> InDictionary(s[i], s[j])
  }

  function SortStrings(s: seq<string>): (r: seq<string>)
    ensures Sorted(StringLe, r) && Alphabetical(r) && multiset(r) == multiset(s)
  {
    StringOrder();
    var r := Sort(StringLe, s);
    assert Alphabetical(r) by { SortedIsAlphabetical(r); }
    r
  }

  lemma SortedIsAlphabetical(s: seq<string>)
    requires Sorted(StringLe, s)
    ensures Alphabetical(s)
  {
    hide StringLe, InDictionary;
    forall i, j | 0 <= i < j < |s| ensures InDictionary(s[i], s[j]) {
      StringLeIs(s[i], s[j]);
    }
  }

  /** A map's keys, in whatever order it is traversed. */
  method Traverse(keys: set<string>) returns (s: seq<string>)
    ensures forall k :: k in s <==> k in keys
    ensures forall i, j :: 0 <= i < j < |s| ==> s[i] != s[j]
  {
    s := [];
    var todo := keys;
    while todo != {}
      invariant todo <= keys && forall i, j :: 0 <= i < j < |s| ==> s[i] != s[j]
      invariant forall k :: k in s <==> k in keys && k !in todo
      decreases todo
    {
      var k :| k in todo;
      s, todo := s + [k], todo - {k};
    }
  }
}

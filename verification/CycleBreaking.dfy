/**
 The cycle breaker of `graph/johnsonce.go`: cycles are broken greedily, component
 by component, until what is left has no cycle.
 */
module CycleBreaking {
  import opened Sequences
  import opened Digraph
  import opened Johnson
  import T = Tarjan

  // ------------------------------------------------------- the greedy loop

  function ClearedRow(n: nat): (z: seq<int>)
    ensures |z| == n && forall v :: 0 <= v < n ==> z[v] == 0
  {
    seq(n, _ => 0)
  }

  ghost predicate Hit(p: seq<nat>, invalid: set<nat>) {
    exists x :: x in p && x in invalid
  }

  /** Each row is still its cycle's, or it has been wiped and its cycle is hit. */
  ghost predicate Wiped(n: nat, cycles: seq<seq<nat>>, rows: seq<seq<int>>, invalid: set<nat>) {
    && |rows| == |cycles|
    && (forall j :: 0 <= j < |rows| ==>
          rows[j] == Row(n, cycles[j]) || (rows[j] == ClearedRow(n) && Hit(cycles[j], invalid)))
  }

  ghost predicate RowsValid(n: nat, rows: seq<seq<int>>) {
    && (forall j :: 0 <= j < |rows| ==> |rows[j]| == n)
    && (forall j, v :: 0 <= j < |rows| && 0 <= v < |rows[j]| ==> rows[j][v] == 0 || rows[j][v] == 1)
  }

  ghost predicate Cleared(rows: seq<seq<int>>, k: nat, v: nat) {
    k <= |rows| && forall j :: 0 <= j < k && v < |rows[j]| ==> rows[j][v] == 0
  }

  lemma WipedIsValid(n: nat, cycles: seq<seq<nat>>, rows: seq<seq<int>>, invalid: set<nat>)
    requires Wiped(n, cycles, rows, invalid)
    ensures RowsValid(n, rows)
  {
  }

  lemma {:induction false} ColumnUpdate(rows: seq<seq<int>>, j: nat, r: seq<int>, v: nat)
    requires j < |rows| && v < |r| && forall i :: 0 <= i < |rows| ==> v < |rows[i]|
    ensures Column(rows[j := r], v) == Column(rows, v) - rows[j][v] + r[v]
  {
    var n := |rows| - 1;
    if j == n {
      assert rows[j := r][..n] == rows[..n];
    } else {
      assert rows[j := r][..n] == rows[..n][j := r];
      ColumnUpdate(rows[..n], j, r, v);
    }
  }

  lemma {:induction false} TotalBounds(s: seq<int>)
    requires forall v :: 0 <= v < |s| ==> s[v] >= 0
    ensures Total(s) >= 0
    ensures forall v :: 0 <= v < |s| ==> s[v] <= Total(s)
  {
    if s != [] {
      TotalBounds(s[..|s| - 1]);
    }
  }

  lemma {:induction false} ColumnBounds(n: nat, rows: seq<seq<int>>, v: nat)
    requires RowsValid(n, rows) && v < n
    ensures Column(rows, v) >= 0
    ensures forall j :: 0 <= j < |rows| ==> rows[j][v] <= Column(rows, v)
    ensures Cleared(rows, |rows|, v) ==> Column(rows, v) == 0
  {
    if rows != [] {
      ColumnBounds(n, rows[..|rows| - 1], v);
    }
  }

  lemma {:induction false} TotalZero(s: seq<int>)
    requires forall v :: 0 <= v < |s| ==> s[v] <= 0
    ensures Total(s) <= 0
  {
    if s != [] {
      TotalZero(s[..|s| - 1]);
    }
  }

  lemma SumsBounds(n: nat, rows: seq<seq<int>>, sums: seq<int>, sum: int)
    requires RowsValid(n, rows) && Sums(rows, sums, sum) && |sums| == n
    ensures sum >= 0 && forall v :: 0 <= v < n ==> 0 <= sums[v] <= sum
    ensures sum > 0 ==> exists v :: 0 <= v < n && sums[v] > 0
  {
    hide Column, Total;
    forall v | 0 <= v < n ensures sums[v] >= 0 {
      ColumnBounds(n, rows, v);
    }
    TotalBounds(sums);
    if sum > 0 && forall v :: 0 <= v < n ==> sums[v] <= 0 {
      TotalZero(sums);
    }
  }

  /** Takes one row out of the sums. */
  method SubtractRow(row: seq<int>, sumArray: array<int>, sum0: int) returns (sum: int)
    requires |row| == sumArray.Length && sum0 == Total(sumArray[..])
    modifies sumArray
    ensures sum == Total(sumArray[..])
    ensures forall v :: 0 <= v < |row| ==> sumArray[v] == old(sumArray[v]) - row[v]
  {
    hide Total;
    sum := sum0;
    var k := 0;
    while k < |row|
      invariant 0 <= k <= |row| && sum == Total(sumArray[..])
      invariant forall v :: 0 <= v < k ==> sumArray[v] == old(sumArray[v]) - row[v]
      invariant forall v :: k <= v < |row| ==> sumArray[v] == old(sumArray[v])
    {
      ghost var before := sumArray[..];
      sum := sum - row[k];
      sumArray[k] := sumArray[k] - row[k];
      assert sumArray[..] == before[k := before[k] - row[k]];
      TotalUpdate(before, k, before[k] - row[k]);
      k := k + 1;
    }
  }

  lemma SumsWipe(n: nat, rows: seq<seq<int>>, sums: seq<int>, sum: int, j: nat, sums': seq<int>, sum': int)
    requires RowsValid(n, rows) && Sums(rows, sums, sum) && |sums| == |sums'| == n && j < |rows|
    requires sum' == Total(sums') && forall v :: 0 <= v < n ==> sums'[v] == sums[v] - rows[j][v]
    ensures Sums(rows[j := ClearedRow(n)], sums', sum')
  {
    hide Total;
    var rows' := rows[j := ClearedRow(n)];
    forall v | 0 <= v < n ensures sums'[v] == Column(rows', v) {
      ColumnUpdate(rows, j, ClearedRow(n), v);
    }
  }

  /** Wipes every row that contains `max`. */
  method WipeRows(n: nat, rows0: seq<seq<int>>, max: nat, sumArray: array<int>, sum0: int,
                  ghost cycles: seq<seq<nat>>, ghost invalid: set<nat>)
    returns (rows: seq<seq<int>>, sum: int)
    requires sumArray.Length == n && max < n && Sums(rows0, sumArray[..], sum0) && Wiped(n, cycles, rows0, invalid)
    modifies sumArray
    ensures Sums(rows, sumArray[..], sum) && Wiped(n, cycles, rows, invalid + {max})
    ensures Cleared(rows, |rows|, max) && forall v :: Cleared(rows0, |rows0|, v) ==> Cleared(rows, |rows|, v)
    ensures sum <= sum0 && (!Cleared(rows0, |rows0|, max) ==> sum < sum0)
  {
    hide Column, Total, Sums, Wiped, RowsValid;
    rows, sum := rows0, sum0;
    WipedMore(n, cycles, rows, invalid, max);
    var j := 0;
    while j < |rows|
      invariant 0 <= j <= |rows| == |rows0|
      invariant Sums(rows, sumArray[..], sum) && Wiped(n, cycles, rows, invalid + {max})
      invariant Cleared(rows, j, max) && forall v :: Cleared(rows0, |rows0|, v) ==> Cleared(rows, |rows|, v)
      invariant sum <= sum0 && (Cleared(rows0, j, max) || sum < sum0) && rows[j..] == rows0[j..]
    {
      assert rows[j] == rows[j..][0] == rows0[j..][0] == rows0[j];
      WipedRow(n, cycles, rows, invalid + {max}, j, max);
      SumsTotal(rows, sumArray[..], sum);
      if rows[j][max] == 1 {
        ghost var before, sumBefore := sumArray[..], sum;
        sum := SubtractRow(rows[j], sumArray, sum);
        SumsWipe(n, rows, before, sumBefore, j, sumArray[..], sum);
        SumFalls(n, rows, before, sumBefore, j, max, sumArray[..], sum);
        rows := rows[j := ClearedRow(n)];
      }
      j := j + 1;
    }
  }

  lemma SumFalls(n: nat, rows: seq<seq<int>>, sums: seq<int>, sum: int, j: nat, max: nat, sums': seq<int>, sum': int)
    requires RowsValid(n, rows) && |sums| == |sums'| == n && j < |rows| && max < n && rows[j][max] == 1
    requires Sums(rows, sums, sum) && sum' == Total(sums') && forall v :: 0 <= v < n ==> sums'[v] == sums[v] - rows[j][v]
    ensures sum' < sum
  {
    hide Total, Column;
    TotalLess(sums, sums', max);
  }

  lemma WipedMore(n: nat, cycles: seq<seq<nat>>, rows: seq<seq<int>>, invalid: set<nat>, max: nat)
    requires Wiped(n, cycles, rows, invalid)
    ensures Wiped(n, cycles, rows, invalid + {max}) && |rows| == |cycles|
  {
  }

  lemma WipedRow(n: nat, cycles: seq<seq<nat>>, rows: seq<seq<int>>, invalid: set<nat>, j: nat, max: nat)
    requires Wiped(n, cycles, rows, invalid) && j < |rows| && max in invalid && max < n
    ensures RowsValid(n, rows) && |rows[j]| == n && (rows[j][max] == 0 || rows[j][max] == 1)
    ensures rows[j][max] == 1 ==> Wiped(n, cycles, rows[j := ClearedRow(n)], invalid)
  {
    WipedIsValid(n, cycles, rows, invalid);
    if rows[j][max] == 1 {
      assert max in cycles[j];
    }
  }

  // ------------------------------------------------------ breaking the cycles

  function Flags(flags: seq<bool>): set<nat> {
    set v: nat | v < |flags| && flags[v]
  }

  /** Which cycles of a component are broken: all that are recorded, and in a
      component of two vertices whatever passes through the first. */
  ghost predicate MustHit(p: seq<nat>, vertices: seq<nat>) {
    Recordable(p, vertices) || (|vertices| == 2 && vertices[0] in p)
  }

  ghost predicate HitsExactly(g: Graph, vertices: seq<nat>, flagged: set<nat>) {
    forall p: seq<nat> :: IsCycle(g, p) && Within(p, vertices) ==> (Hit(p, flagged) <==> MustHit(p, vertices))
  }

  ghost predicate OnCycle(g: Graph, v: nat) {
    exists p :: IsCycle(g, p) && v in p
  }

  ghost predicate Breaking(cycles: seq<seq<nat>>, rows: seq<seq<int>>, sums: seq<int>, sum: int, flagged: set<nat>) {
    && Wiped(|sums|, cycles, rows, flagged) && Sums(rows, sums, sum)
    && (forall v :: v in flagged ==> Cleared(rows, |rows|, v))
  }

  lemma BreakingStarts(cycles: seq<seq<nat>>, rows: seq<seq<int>>, sums: seq<int>, sum: int)
    requires RowsOf(|sums|, cycles, rows) && Sums(rows, sums, sum)
    ensures Breaking(cycles, rows, sums, sum, {})
  {
  }

  /** How many recorded cycles through `v` are not hit yet. */
  ghost function Unbroken(cycles: seq<seq<nat>>, flagged: set<nat>, v: nat): nat {
    if cycles == [] then 0
    else
      var last := cycles[|cycles| - 1];
      Unbroken(cycles[..|cycles| - 1], flagged, v) + if v in last && !Hit(last, flagged) then 1 else 0
  }

  /** The greedy choice: the first of the vertices in the most unbroken cycles. */
  ghost predicate IsPick(n: nat, cycles: seq<seq<nat>>, flagged: set<nat>, x: nat) {
    && x < n && Unbroken(cycles, flagged, x) > 0
    && (forall v: nat :: v < n ==> Unbroken(cycles, flagged, v) <= Unbroken(cycles, flagged, x))
    && (forall v: nat :: v < x ==> Unbroken(cycles, flagged, v) < Unbroken(cycles, flagged, x))
  }

  /** Each flag is the greedy choice after those before it. */
  ghost predicate Greedily(n: nat, cycles: seq<seq<nat>>, picks: seq<nat>) {
    forall i :: 0 <= i < |picks| ==> IsPick(n, cycles, Elements(picks[..i]), picks[i])
  }

  lemma {:induction false} UnbrokenCycle(cycles: seq<seq<nat>>, flagged: set<nat>, v: nat)
    requires Unbroken(cycles, flagged, v) > 0
    ensures v !in flagged && exists j :: 0 <= j < |cycles| && v in cycles[j] && !Hit(cycles[j], flagged)
  {
    var n := |cycles| - 1;
    if v in cycles[n] && !Hit(cycles[n], flagged) {
      assert v !in flagged;
    } else {
      UnbrokenCycle(cycles[..n], flagged, v);
      var j :| 0 <= j < n && v in cycles[..n][j] && !Hit(cycles[..n][j], flagged);
      assert cycles[j] == cycles[..n][j];
    }
  }

  /** A flag breaks cycles: no count rises, and its own falls to zero. */
  lemma {:induction false} UnbrokenLess(cycles: seq<seq<nat>>, flagged: set<nat>, x: nat, v: nat)
    ensures Unbroken(cycles, flagged + {x}, v) <= Unbroken(cycles, flagged, v)
    ensures Unbroken(cycles, flagged + {x}, x) == 0
  {
    if cycles != [] {
      UnbrokenLess(cycles[..|cycles| - 1], flagged, x, v);
      var last := cycles[|cycles| - 1];
      if Hit(last, flagged) {
        var y :| y in last && y in flagged;
        assert y in flagged + {x};
      }
      if x in last {
        assert x in flagged + {x};
      }
    }
  }

  lemma {:induction false} ColumnIsCount(n: nat, cycles: seq<seq<nat>>, rows: seq<seq<int>>, flagged: set<nat>, v: nat)
    requires |rows| == |cycles| && v < n && RowsValid(n, rows)
    requires forall j :: 0 <= j < |rows| ==> rows[j][v] == if v in cycles[j] && !Hit(cycles[j], flagged) then 1 else 0
    ensures Column(rows, v) == Unbroken(cycles, flagged, v)
  {
    hide Hit;
    if rows != [] {
      var m := |rows| - 1;
      ColumnIsCount(n, cycles[..m], rows[..m], flagged, v);
    }
  }

  /** The sums count the unbroken cycles. */
  lemma SumsAreCounts(g: Graph, cycles: seq<seq<nat>>, rows: seq<seq<int>>, sums: seq<int>, sum: int, flagged: set<nat>, v: nat)
    requires Breaking(cycles, rows, sums, sum, flagged) && AllCycles(g, cycles) && |sums| == |g| && v < |g|
    ensures sums[v] == Unbroken(cycles, flagged, v)
  {
    hide Column, Total, Edge, Unbroken;
    var n := |g|;
    WipedIsValid(n, cycles, rows, flagged);
    forall j | 0 <= j < |rows| ensures rows[j][v] == if v in cycles[j] && !Hit(cycles[j], flagged) then 1 else 0 {
      assert IsCycle(g, cycles[j]);
      if rows[j] == Row(n, cycles[j]) {
        forall x | x in cycles[j] ensures x !in flagged {
          assert x < n && rows[j][x] == 1;
        }
      }
    }
    ColumnIsCount(n, cycles, rows, flagged, v);
  }

  /** While something is left to break, the first maximum is the greedy choice. */
  lemma FlagIsNew(g: Graph, cycles: seq<seq<nat>>, rows: seq<seq<int>>, sums: seq<int>, sum: int, flagged: set<nat>, max: nat)
    requires Breaking(cycles, rows, sums, sum, flagged) && AllCycles(g, cycles) && |sums| == |g| && sum != 0
    requires max < |sums| && forall v :: 0 <= v < |sums| ==> sums[v] <= sums[max]
    requires forall v :: 0 <= v < max ==> sums[v] < sums[max]
    ensures IsPick(|g|, cycles, flagged, max)
  {
    hide Column, Total, Unbroken, IsCycle;
    WipedIsValid(|g|, cycles, rows, flagged);
    SumsBounds(|g|, rows, sums, sum);
    forall v: nat | v < |g| ensures sums[v] == Unbroken(cycles, flagged, v) {
      SumsAreCounts(g, cycles, rows, sums, sum, flagged, v);
    }
  }

  lemma {:induction false} TotalLess(s: seq<int>, s': seq<int>, i: nat)
    requires |s| == |s'| && i < |s| && s'[i] < s[i] && forall v :: 0 <= v < |s| ==> s'[v] <= s[v]
    ensures Total(s') < Total(s)
  {
    var n := |s| - 1;
    if i < n {
      TotalLess(s[..n], s'[..n], i);
    } else {
      TotalNoMore(s[..n], s'[..n]);
    }
  }

  lemma {:induction false} TotalNoMore(s: seq<int>, s': seq<int>)
    requires |s| == |s'| && forall v :: 0 <= v < |s| ==> s'[v] <= s[v]
    ensures Total(s') <= Total(s)
  {
    if s != [] {
      TotalNoMore(s[..|s| - 1], s'[..|s| - 1]);
    }
  }

  /** Every round lowers the total. */
  lemma TotalFalls(g: Graph, cycles: seq<seq<nat>>, rows: seq<seq<int>>, sums: seq<int>, sum: int, flagged: set<nat>, max: nat,
                   rows': seq<seq<int>>, sums': seq<int>, sum': int)
    requires AllCycles(g, cycles) && |sums| == |sums'| == |g| && IsPick(|g|, cycles, flagged, max)
    requires Breaking(cycles, rows, sums, sum, flagged) && Breaking(cycles, rows', sums', sum', flagged + {max})
    ensures sum' < sum
  {
    hide Total, Unbroken, Wiped, AllCycles, Cleared, Column;
    forall v: nat | v < |g| ensures sums'[v] <= sums[v] && (v == max ==> sums'[v] == 0 < sums[v]) {
      SumsAreCounts(g, cycles, rows, sums, sum, flagged, v);
      SumsAreCounts(g, cycles, rows', sums', sum', flagged + {max}, v);
      UnbrokenLess(cycles, flagged, max, v);
    }
    TotalLess(sums, sums', max);
  }

  lemma SomethingLeft(cycles: seq<seq<nat>>, rows: seq<seq<int>>, sums: seq<int>, sum: int, flagged: set<nat>)
    requires Breaking(cycles, rows, sums, sum, flagged)
    ensures sum != 0 ==> |sums| > 0
  {
  }

  lemma AllHit(g: Graph, cycles: seq<seq<nat>>, rows: seq<seq<int>>, sums: seq<int>, sum: int, flagged: set<nat>)
    requires Breaking(cycles, rows, sums, sum, flagged) && sum == 0 && AllCycles(g, cycles) && |g| == |sums|
    ensures forall j :: 0 <= j < |cycles| ==> Hit(cycles[j], flagged)
  {
    hide Column, Total, Edge, Hit;
    WipedIsValid(|g|, cycles, rows, flagged);
    SumsBounds(|g|, rows, sums, sum);
    forall j | 0 <= j < |cycles| ensures Hit(cycles[j], flagged) {
      assert IsCycle(g, cycles[j]);
      var x := cycles[j][0];
      ColumnBounds(|g|, rows, x);
      assert rows[j][x] <= 0;
    }
  }

  lemma RowsHitAll(g: Graph, vertices: seq<nat>, cycles: seq<seq<nat>>, flagged: set<nat>, p: seq<nat>)
    requires AllCovered(g, vertices, cycles) && forall j :: 0 <= j < |cycles| ==> Hit(cycles[j], flagged)
    requires IsCycle(g, p) && Within(p, vertices) && Recordable(p, vertices)
    ensures Hit(p, flagged)
  {
    hide IsCycle, Within, SameCycle;
    assert HasRow(cycles, p);
    var j :| 0 <= j < |cycles| && SameCycle(cycles[j], p);
    SameElements(cycles[j], p);
    var x :| x in cycles[j] && x in flagged;
    assert x in Elements(p);
  }

  /** Nothing is flagged for no cycle; for one cycle, its least vertex. */
  lemma FewPicks(n: nat, cycles: seq<seq<nat>>, picks: seq<nat>)
    requires Greedily(n, cycles, picks) && forall j :: 0 <= j < |cycles| ==> Hit(cycles[j], Elements(picks))
    ensures cycles == [] ==> picks == []
    ensures |cycles| == 1 ==> |picks| == 1 && picks[0] in cycles[0] && forall x :: x in cycles[0] && x < n ==> picks[0] <= x
  {
    hide Greedily, IsPick, Unbroken;
    if picks != [] {
      PickIsUnbroken(n, cycles, picks, 0);
    }
    if |cycles| == 1 {
      assert Hit(cycles[0], Elements(picks));
      var x :| x in cycles[0] && x in Elements(picks);
      FirstOfOne(n, cycles, picks);
      if |picks| > 1 {
        PickIsUnbroken(n, cycles, picks, 1);
      }
    }
  }

  /** A pick stands on a recorded cycle that no earlier pick has hit. */
  lemma PickIsUnbroken(n: nat, cycles: seq<seq<nat>>, picks: seq<nat>, i: nat)
    requires Greedily(n, cycles, picks) && i < |picks|
    ensures exists j :: 0 <= j < |cycles| && picks[i] in cycles[j] && forall h :: 0 <= h < i ==> picks[h] !in cycles[j]
  {
    hide Unbroken;
    assert IsPick(n, cycles, Elements(picks[..i]), picks[i]);
    UnbrokenCycle(cycles, Elements(picks[..i]), picks[i]);
    var j :| 0 <= j < |cycles| && picks[i] in cycles[j] && !Hit(cycles[j], Elements(picks[..i]));
    forall h | 0 <= h < i ensures picks[h] !in cycles[j] {
      assert picks[..i][h] in Elements(picks[..i]);
    }
  }

  /** How many recorded cycles are hit. */
  ghost function HitCount(cycles: seq<seq<nat>>, flagged: set<nat>): (c: nat)
    ensures c <= |cycles|
  {
    if cycles == [] then 0
    else
      var n := |cycles| - 1;
      HitCount(cycles[..n], flagged) + if Hit(cycles[n], flagged) then 1 else 0
  }

  lemma {:induction false} HitCountGrows(cycles: seq<seq<nat>>, flagged: set<nat>, x: nat)
    ensures HitCount(cycles, flagged) <= HitCount(cycles, flagged + {x})
    ensures (exists j :: 0 <= j < |cycles| && x in cycles[j] && !Hit(cycles[j], flagged)) ==>
              HitCount(cycles, flagged) < HitCount(cycles, flagged + {x})
  {
    if cycles != [] {
      var n := |cycles| - 1;
      HitCountGrows(cycles[..n], flagged, x);
      assert forall j :: 0 <= j < n ==> cycles[..n][j] == cycles[j];
      assert x in flagged + {x};
    }
  }

  /** Every pick hits a recorded cycle more, so the greedy set is no larger than the
      number of recorded cycles. */
  lemma {:induction false} PicksHitMore(n: nat, cycles: seq<seq<nat>>, picks: seq<nat>)
    requires Greedily(n, cycles, picks)
    ensures |picks| <= HitCount(cycles, Elements(picks)) <= |cycles|
  {
    hide IsPick, Unbroken, HitCount, Hit;
    if picks != [] {
      var i := |picks| - 1;
      var before := picks[..i];
      forall h | 0 <= h < i ensures IsPick(n, cycles, Elements(before[..h]), before[h]) {
        assert before[..h] == picks[..h];
      }
      PicksHitMore(n, cycles, before);
      assert IsPick(n, cycles, Elements(before), picks[i]);
      PickHits(n, cycles, Elements(before), picks[i]);
      assert picks == before + [picks[i]];
      assert Elements(picks) == Elements(before) + {picks[i]};
    } else {
      AtMostAll(cycles, Elements(picks));
    }
  }

  lemma AtMostAll(cycles: seq<seq<nat>>, flagged: set<nat>)
    ensures 0 <= HitCount(cycles, flagged) <= |cycles|
  {
  }

  lemma PickHits(n: nat, cycles: seq<seq<nat>>, flagged: set<nat>, x: nat)
    requires IsPick(n, cycles, flagged, x)
    ensures HitCount(cycles, flagged) < HitCount(cycles, flagged + {x}) <= |cycles|
  {
    hide Unbroken, HitCount;
    UnbrokenCycle(cycles, flagged, x);
    HitCountGrows(cycles, flagged, x);
    AtMostAll(cycles, flagged + {x});
  }

  lemma FirstOfOne(n: nat, cycles: seq<seq<nat>>, picks: seq<nat>)
    requires Greedily(n, cycles, picks) && |cycles| == 1 && picks != []
    ensures forall x :: x in cycles[0] && x < n ==> picks[0] <= x
  {
    hide Unbroken;
    OneCycle(cycles);
    assert IsPick(n, cycles, Elements(picks[..0]), picks[0]);
    assert !Hit(cycles[0], Elements(picks[..0]));
  }

  lemma OneCycle(cycles: seq<seq<nat>>)
    requires |cycles| == 1
    ensures forall flagged, v :: Unbroken(cycles, flagged, v) == if v in cycles[0] && !Hit(cycles[0], flagged) then 1 else 0
  {
    forall flagged, v ensures Unbroken(cycles, flagged, v) == if v in cycles[0] && !Hit(cycles[0], flagged) then 1 else 0 {
      assert cycles[..0] == [];
      assert Unbroken(cycles[..0], flagged, v) == 0;
    }
  }

  lemma HitsExactlyRecorded(g: Graph, component: T.Scc, cycles: seq<seq<nat>>, picks: seq<nat>)
    requires T.IsComponent(g, component) && AllCovered(g, component.vertices, cycles) && Greedily(|g|, cycles, picks)
    requires forall j :: 0 <= j < |cycles| ==> Hit(cycles[j], Elements(picks))
    requires |component.vertices| <= 2 ==> cycles == if |component.vertices| == 1 then [] else [component.vertices]
    ensures HitsExactly(g, component.vertices, Elements(picks))
  {
    hide T.Mutual, Walk, Edge, AllCovered, Greedily;
    var vertices := component.vertices;
    FewPicks(|g|, cycles, picks);
    if |vertices| == 2 {
      assert vertices[0] in vertices && vertices[1] in vertices;
      assert picks == [vertices[0]];
    }
    forall p: seq<nat> | IsCycle(g, p) && Within(p, vertices) ensures Hit(p, Elements(picks)) <==> MustHit(p, vertices) {
      if Recordable(p, vertices) {
        RowsHitAll(g, vertices, cycles, Elements(picks), p);
      } else {
        assert p == [p[0]];
      }
    }
  }

  /** The first index with the largest count. */
  method FirstMax(sumArray: array<int>) returns (max: nat)
    requires sumArray.Length > 0
    ensures max < sumArray.Length && forall v :: 0 <= v < sumArray.Length ==> sumArray[v] <= sumArray[max]
    ensures forall v :: 0 <= v < max ==> sumArray[v] < sumArray[max]
  {
    max := 0;
    var i := 0;
    while i < sumArray.Length
      invariant 0 <= i <= sumArray.Length && 0 <= max < sumArray.Length && max <= i
      invariant forall v :: 0 <= v < i ==> sumArray[v] <= sumArray[max]
      invariant forall v :: 0 <= v < max ==> sumArray[v] < sumArray[max]
    {
      if sumArray[i] > sumArray[max] {
        max := i;
      }
      i := i + 1;
    }
  }

  ghost predicate FlagsOnCycles(g: Graph, scope: set<nat>, flagged: set<nat>) {
    flagged <= scope && forall v :: v in flagged ==> OnCycle(g, v)
  }

  lemma FlagMore(g: Graph, scope: set<nat>, flagged: set<nat>, cycles: seq<seq<nat>>, max: nat)
    requires FlagsOnCycles(g, scope, flagged) && AllCycles(g, cycles) && AllWithin(cycles, scope)
    requires IsPick(|g|, cycles, flagged, max)
    ensures FlagsOnCycles(g, scope, flagged + {max}) && max !in flagged
  {
    hide IsCycle, Unbroken;
    UnbrokenCycle(cycles, flagged, max);
    var j :| 0 <= j < |cycles| && max in cycles[j];
    assert max in Elements(cycles[j]);
  }

  lemma FlagsUpdate(flags: seq<bool>, v: nat)
    requires v < |flags|
    ensures Flags(flags[v := true]) == Flags(flags) + {v}
  {
  }

  lemma NoFlags(g: Graph, scope: set<nat>, flags: seq<bool>)
    requires forall v :: 0 <= v < |flags| ==> !flags[v]
    ensures Flags(flags) == {} && FlagsOnCycles(g, scope, {})
  {
  }

  lemma BreakingNext(cycles: seq<seq<nat>>, rows0: seq<seq<int>>, sums0: seq<int>, sum0: int, flagged: set<nat>,
                     max: nat, rows: seq<seq<int>>, sums: seq<int>, sum: int)
    requires Breaking(cycles, rows0, sums0, sum0, flagged) && |sums| == |sums0|
    requires Sums(rows, sums, sum) && Wiped(|sums|, cycles, rows, flagged + {max})
    requires Cleared(rows, |rows|, max) && forall v :: Cleared(rows0, |rows0|, v) ==> Cleared(rows, |rows|, v)
    ensures Breaking(cycles, rows, sums, sum, flagged + {max})
  {
    hide Sums, Wiped, Cleared;
  }

  lemma BreakingParts(cycles: seq<seq<nat>>, rows: seq<seq<int>>, sums: seq<int>, sum: int, flagged: set<nat>)
    requires Breaking(cycles, rows, sums, sum, flagged)
    ensures Wiped(|sums|, cycles, rows, flagged) && Sums(rows, sums, sum)
  {
    hide Sums, Wiped, Cleared;
  }

  /** One round: the vertex in the most unbroken cycles is flagged and its rows wiped. */
  method FlagNext(g: Graph, ghost scope: set<nat>, ghost cycles: seq<seq<nat>>, rows0: seq<seq<int>>,
                  sumArray: array<int>, sum0: int, invalid: array<bool>, ghost flagged: set<nat>)
    returns (rows: seq<seq<int>>, sum: int, max: nat)
    requires sumArray.Length == |g| == invalid.Length && sum0 != 0
    requires AllCycles(g, cycles) && AllWithin(cycles, scope) && FlagsOnCycles(g, scope, flagged)
    requires Breaking(cycles, rows0, sumArray[..], sum0, flagged) && flagged == Flags(invalid[..])
    modifies sumArray, invalid
    ensures IsPick(|g|, cycles, flagged, max) && sum < sum0
    ensures max !in flagged && max < |g| && FlagsOnCycles(g, scope, flagged + {max})
    ensures Breaking(cycles, rows, sumArray[..], sum, flagged + {max}) && Flags(invalid[..]) == flagged + {max}
  {
    hide Sums, RowsOf, Wiped, Breaking, Hit, AllCycles, AllWithin, FlagsOnCycles, Flags, Cleared, IsPick;
    ghost var sums, flags := sumArray[..], invalid[..];
    SomethingLeft(cycles, rows0, sums, sum0, flagged);
    max := FirstMax(sumArray);
    FlagIsNew(g, cycles, rows0, sums, sum0, flagged, max);
    FlagMore(g, scope, flagged, cycles, max);
    BreakingParts(cycles, rows0, sums, sum0, flagged);
    rows, sum := WipeRows(|g|, rows0, max, sumArray, sum0, cycles, flagged);
    BreakingNext(cycles, rows0, sums, sum0, flagged, max, rows, sumArray[..], sum);
    TotalFalls(g, cycles, rows0, sums, sum0, flagged, max, rows, sumArray[..], sum);
    invalid[max] := true;
    FlagsUpdate(flags, max);
    assert invalid[..] == flags[max := true];
  }

  lemma NoPicks(n: nat, cycles: seq<seq<nat>>)
    ensures Greedily(n, cycles, []) && Elements<nat>([]) == {}
  {
  }

  lemma PickMore(n: nat, cycles: seq<seq<nat>>, picks: seq<nat>, x: nat)
    requires Greedily(n, cycles, picks) && IsPick(n, cycles, Elements(picks), x)
    ensures Greedily(n, cycles, picks + [x]) && Elements(picks + [x]) == Elements(picks) + {x}
  {
    hide IsPick;
    var picks' := picks + [x];
    forall i | 0 <= i < |picks'| ensures IsPick(n, cycles, Elements(picks'[..i]), picks'[i]) {
      assert picks'[..i] == picks[..i];
      if i == |picks| {
        assert picks[..i] == picks;
      }
    }
  }

  lemma SumIsNatural(cycles: seq<seq<nat>>, rows: seq<seq<int>>, sums: seq<int>, sum: int, flagged: set<nat>)
    requires Breaking(cycles, rows, sums, sum, flagged)
    ensures sum >= 0
  {
    hide Column, Total;
    WipedIsValid(|sums|, cycles, rows, flagged);
    SumsBounds(|sums|, rows, sums, sum);
  }

  class JohnsonCE {
    const g: Graph
    var removeSetSize: nat

    constructor (graph: Graph)
      ensures g == graph && removeSetSize == 0
    {
      g, removeSetSize := graph, 0;
    }

    /** The greedy loop: flags vertices until every recorded cycle is hit. */
    method Greedy(rows0: seq<seq<int>>, sumArray: array<int>, sum0: int, ghost scope: set<nat>, ghost cycles: seq<seq<nat>>)
      returns (invalid: array<bool>, ghost picks: seq<nat>)
      requires sumArray.Length == |g| && RowsOf(|g|, cycles, rows0) && Sums(rows0, sumArray[..], sum0)
      requires AllCycles(g, cycles) && AllWithin(cycles, scope)
      modifies this`removeSetSize, sumArray
      ensures fresh(invalid) && invalid.Length == |g|
      ensures forall j :: 0 <= j < |cycles| ==> Hit(cycles[j], Flags(invalid[..]))
      ensures Greedily(|g|, cycles, picks) && Elements(picks) == Flags(invalid[..]) && |picks| <= |cycles|
      ensures FlagsOnCycles(g, scope, Flags(invalid[..]))
      ensures removeSetSize == old(removeSetSize) + |Flags(invalid[..])|
    {
      hide Sums, RowsOf, Wiped, Breaking, Hit, AllCycles, AllWithin, FlagsOnCycles, Flags, Cleared, Greedily, IsPick;
      invalid := new bool[|g|](_ => false);
      var rows, sum := rows0, sum0;
      picks := [];
      NoPicks(|g|, cycles);
      ghost var flagged: set<nat> := {};
      BreakingStarts(cycles, rows, sumArray[..], sum);
      NoFlags(g, scope, invalid[..]);
      while sum != 0
        invariant Breaking(cycles, rows, sumArray[..], sum, flagged) && flagged == Flags(invalid[..])
        invariant FlagsOnCycles(g, scope, flagged) && Greedily(|g|, cycles, picks) && Elements(picks) == flagged
        invariant removeSetSize == old(removeSetSize) + |flagged|
        decreases sum
      {
        var max;
        SumIsNatural(cycles, rows, sumArray[..], sum, flagged);
        rows, sum, max := FlagNext(g, scope, cycles, rows, sumArray, sum, invalid, flagged);
        PickMore(|g|, cycles, picks, max);
        flagged, picks := flagged + {max}, picks + [max];
        removeSetSize := removeSetSize + 1;
      }
      AllHit(g, cycles, rows, sumArray[..], sum, flagged);
      PicksHitMore(|g|, cycles, picks);
    }

    /** `BreakCycles`: flags vertices of one component, on cycles only.  A cycle of the
        component is hit if and only if it is recorded, or the component has two
        vertices and the cycle passes through the first. */
    method BreakCycles(component: T.Scc) returns (invalid: array<bool>)
      requires InRange(g) && T.IsComponent(g, component)
      modifies this`removeSetSize
      ensures fresh(invalid) && invalid.Length == |g|
      ensures HitsExactly(g, component.vertices, Flags(invalid[..]))
      ensures FlagsOnCycles(g, Elements(component.vertices), Flags(invalid[..]))
      ensures removeSetSize == old(removeSetSize) + |Flags(invalid[..])|
    {
      hide Sums, RowsOf, Hit, AllCycles, AllWithin, FlagsOnCycles, Flags, HitsExactly, AllCovered, T.IsComponent, Greedily;
      var search := new CycleSearch(g, component);
      assert component == T.Scc(component.vertices, search.explore[..]);
      search.FindCycles(component.vertices);
      ghost var picks;
      invalid, picks := Greedy(search.cyclesMap, search.sumArray, search.sum, search.scope, search.cycles);
      HitsExactlyRecorded(g, component, search.cycles, picks);
    }

    /** Copies the component's flags into `invalid`. */
    method CopyFlags(vertices: seq<nat>, inv: array<bool>, invalid: array<bool>)
      requires inv.Length == invalid.Length && inv != invalid
      requires forall v :: v in vertices ==> v < invalid.Length
      modifies invalid
      ensures forall v :: 0 <= v < invalid.Length ==>
                            invalid[v] == if v in vertices then inv[v] else old(invalid[v])
    {
      var i := 0;
      while i < |vertices|
        invariant 0 <= i <= |vertices|
        invariant forall v :: 0 <= v < invalid.Length ==>
                                invalid[v] == if v in vertices[..i] then inv[v] else old(invalid[v])
      {
        var v := vertices[i];
        assert v in vertices;
        invalid[v] := inv[v];
        assert vertices[..i + 1] == vertices[..i] + [vertices[i]];
        i := i + 1;
      }
      assert vertices[..i] == vertices;
    }

    /** `Run`: the flagged vertices are counted exactly and each stands on a cycle.
        Which cycles are hit is settled by the graph: all those of two or more
        vertices, and an arc from a vertex to itself if its component has three or
        more vertices or it is the first of two.  Without the flagged vertices every
        walk that returns to its start has stayed there. */
    method Run() returns (n: nat, invalid: array<bool>)
      requires InRange(g) && removeSetSize == 0
      modifies this`removeSetSize
      ensures invalid.Length == |g| && n == |Flags(invalid[..])|
      ensures forall p: seq<nat> :: IsCycle(g, p) ==> (Hit(p, Flags(invalid[..])) <==> MustBreak(g, p))
      ensures forall v :: v in Flags(invalid[..]) ==> OnCycle(g, v)
      ensures AcyclicWithout(g, Flags(invalid[..]))
    {
      hide Hit, FlagsOnCycles, Flags, HitsExactly, T.Divides, T.IsComponent, IsCycle, BrokenUpTo, T.Marks, AcyclicWithout, MustBreak;
      invalid := new bool[|g|](_ => false);
      var sccGen := new T.TarjanScc(g);
      NoMarks(sccGen.stackMember[..]);
      var _ := sccGen.Run();
      var sccs := sccGen.sccList;
      var k := 0;
      NothingBroken(g, sccs, invalid[..]);
      while k < |sccs|
        invariant 0 <= k <= |sccs| && BrokenUpTo(g, sccs, k, Flags(invalid[..]))
        invariant removeSetSize == |Flags(invalid[..])|
      {
        ghost var flags := invalid[..];
        DividesAt(g, sccs, k);
        var inv := BreakCycles(sccs[k]);
        CopyFlags(sccs[k].vertices, inv, invalid);
        BrokenNext(g, sccs, k, flags, inv[..], invalid[..]);
        k := k + 1;
      }
      AllBroken(g, sccs, Flags(invalid[..]));
      assert forall p: seq<nat> :: |p| >= 2 ==> MustBreak(g, p) by { LongMustBreak(g); }
      NothingLeft(g, Flags(invalid[..]));
      n := removeSetSize;
    }
  }

  // ------------------------------------------------------------- whole runs

  /** The first `k` components are broken, and only they hold flags. */
  ghost predicate BrokenUpTo(g: Graph, sccs: seq<T.Scc>, k: nat, flagged: set<nat>) {
    && k <= |sccs|
    && (forall i :: 0 <= i < k ==> HitsExactly(g, sccs[i].vertices, flagged))
    && (forall v :: v in flagged ==> Placed(g, sccs, k, v))
  }

  lemma NothingBroken(g: Graph, sccs: seq<T.Scc>, flags: seq<bool>)
    requires forall v :: 0 <= v < |flags| ==> !flags[v]
    ensures BrokenUpTo(g, sccs, 0, Flags(flags)) && |Flags(flags)| == 0
  {
    assert Flags(flags) == {};
  }

  lemma DividesAt(g: Graph, sccs: seq<T.Scc>, k: nat)
    requires T.Divides(g, sccs, UpTo(|g|)) && k < |sccs|
    ensures T.IsComponent(g, sccs[k])
    ensures forall v :: v in sccs[k].vertices ==> v < |g|
  {
    hide Edge;
  }

  lemma HitSame(g: Graph, vertices: seq<nat>, flagged: set<nat>, flagged': set<nat>)
    requires HitsExactly(g, vertices, flagged) && forall v :: v in vertices ==> (v in flagged <==> v in flagged')
    ensures HitsExactly(g, vertices, flagged')
  {
    hide IsCycle, MustHit;
    forall p: seq<nat> | Within(p, vertices) ensures Hit(p, flagged) <==> Hit(p, flagged') {
      if Hit(p, flagged) {
        var x :| x in p && x in flagged;
        assert x in flagged';
      }
      if Hit(p, flagged') {
        var x :| x in p && x in flagged';
        assert x in flagged;
      }
    }
  }

  /** A component's flags join those of the components before it, which it does not meet. */
  lemma FlagsJoin(g: Graph, sccs: seq<T.Scc>, k: nat, flags: seq<bool>, inv: seq<bool>, flags': seq<bool>)
    requires k < |sccs| && T.Divides(g, sccs, UpTo(|g|)) && BrokenUpTo(g, sccs, k, Flags(flags))
    requires FlagsOnCycles(g, Elements(sccs[k].vertices), Flags(inv)) && |flags| == |inv| == |flags'| == |g|
    requires forall v :: 0 <= v < |g| ==> flags'[v] == if v in sccs[k].vertices then inv[v] else flags[v]
    ensures Flags(flags') == Flags(flags) + Flags(inv) && Flags(flags) !! Flags(inv)
  {
    hide HitsExactly, OnCycle, T.IsComponent, T.Divides, BrokenUpTo;
    var vertices := sccs[k].vertices;
    forall v | v in Flags(flags) ensures v !in vertices {
      FlagIsElsewhere(g, sccs, k, Flags(flags), v);
    }
    forall v | v in Flags(inv) ensures v in vertices {
      assert v in Elements(vertices);
    }
  }

  lemma NotFlagged(g: Graph, vertices: seq<nat>, flagged: set<nat>, v: nat)
    requires FlagsOnCycles(g, Elements(vertices), flagged) && v !in vertices
    ensures v !in flagged
  {
  }

  lemma NotInLater(g: Graph, sccs: seq<T.Scc>, i: nat, k: nat, v: nat)
    requires i < k < |sccs| && T.Divides(g, sccs, UpTo(|g|)) && v in sccs[i].vertices
    ensures v !in sccs[k].vertices
  {
    hide T.IsComponent;
    assert T.Contains(sccs[i], v);
    assert !T.Contains(sccs[k], v);
  }

  lemma FlagIsElsewhere(g: Graph, sccs: seq<T.Scc>, k: nat, flagged: set<nat>, v: nat)
    requires k < |sccs| && T.Divides(g, sccs, UpTo(|g|)) && BrokenUpTo(g, sccs, k, flagged) && v in flagged
    ensures v !in sccs[k].vertices
  {
    hide HitsExactly, OnCycle, T.IsComponent;
    var i :| 0 <= i < k && T.Contains(sccs[i], v);
    assert !T.Contains(sccs[k], v);
  }

  /** In its own component every flag stands as it was set there. */
  lemma OwnFlags(g: Graph, sccs: seq<T.Scc>, k: nat, flagged0: set<nat>, invalid: set<nat>, flagged: set<nat>, i: nat, v: nat)
    requires k < |sccs| && T.Divides(g, sccs, UpTo(|g|)) && BrokenUpTo(g, sccs, k, flagged0)
    requires FlagsOnCycles(g, Elements(sccs[k].vertices), invalid) && flagged == flagged0 + invalid
    requires i <= k && v in sccs[i].vertices
    ensures v in (if i < k then flagged0 else invalid) <==> v in flagged
  {
    hide HitsExactly, OnCycle, T.IsComponent, T.Divides, Flags, BrokenUpTo, FlagsOnCycles, Elements;
    if i < k {
      NotInLater(g, sccs, i, k, v);
      NotFlagged(g, sccs[k].vertices, invalid, v);
    } else if v in flagged0 {
      FlagIsElsewhere(g, sccs, k, flagged0, v);
    }
  }

  lemma StillExact(g: Graph, sccs: seq<T.Scc>, k: nat, flagged0: set<nat>, invalid: set<nat>, flagged: set<nat>, i: nat)
    requires k < |sccs| && T.Divides(g, sccs, UpTo(|g|)) && BrokenUpTo(g, sccs, k, flagged0)
    requires FlagsOnCycles(g, Elements(sccs[k].vertices), invalid) && flagged == flagged0 + invalid
    requires HitsExactly(g, sccs[k].vertices, invalid) && i <= k
    ensures HitsExactly(g, sccs[i].vertices, flagged)
  {
    hide HitsExactly, OnCycle, T.IsComponent, T.Divides, BrokenUpTo, FlagsOnCycles, Elements;
    var own := if i < k then flagged0 else invalid;
    forall v | v in sccs[i].vertices ensures v in own <==> v in flagged {
      OwnFlags(g, sccs, k, flagged0, invalid, flagged, i, v);
    }
    if i < k {
      BrokenBefore(g, sccs, k, flagged0, i);
    }
    HitSame(g, sccs[i].vertices, own, flagged);
  }

  lemma BrokenNext(g: Graph, sccs: seq<T.Scc>, k: nat, flags: seq<bool>, inv: seq<bool>, flags': seq<bool>)
    requires k < |sccs| && T.Divides(g, sccs, UpTo(|g|)) && BrokenUpTo(g, sccs, k, Flags(flags))
    requires FlagsOnCycles(g, Elements(sccs[k].vertices), Flags(inv)) && |flags| == |inv| == |flags'| == |g|
    requires HitsExactly(g, sccs[k].vertices, Flags(inv))
    requires forall v :: 0 <= v < |g| ==> flags'[v] == if v in sccs[k].vertices then inv[v] else flags[v]
    ensures BrokenUpTo(g, sccs, k + 1, Flags(flags')) && |Flags(flags')| == |Flags(flags)| + |Flags(inv)|
  {
    hide HitsExactly, OnCycle, T.IsComponent, T.Divides, Flags, FlagsOnCycles, BrokenUpTo, Elements;
    FlagsJoin(g, sccs, k, flags, inv, flags');
    var flagged := Flags(flags');
    forall i | 0 <= i < k + 1 ensures HitsExactly(g, sccs[i].vertices, flagged) {
      StillExact(g, sccs, k, Flags(flags), Flags(inv), flagged, i);
    }
    forall v | v in flagged ensures Placed(g, sccs, k + 1, v) {
      FlagIsSomewhere(g, sccs, k, Flags(flags), Flags(inv), v);
    }
    BrokenMore(g, sccs, k, flagged);
  }

  lemma BrokenBefore(g: Graph, sccs: seq<T.Scc>, k: nat, flagged: set<nat>, i: nat)
    requires BrokenUpTo(g, sccs, k, flagged) && i < k
    ensures HitsExactly(g, sccs[i].vertices, flagged)
  {
    hide HitsExactly, OnCycle;
  }

  ghost predicate Placed(g: Graph, sccs: seq<T.Scc>, k: nat, v: nat) {
    k <= |sccs| && OnCycle(g, v) && exists i :: 0 <= i < k && T.Contains(sccs[i], v)
  }

  lemma BrokenMore(g: Graph, sccs: seq<T.Scc>, k: nat, flagged: set<nat>)
    requires k < |sccs| && (forall v :: v in flagged ==> Placed(g, sccs, k + 1, v))
    requires forall i :: 0 <= i < k + 1 ==> HitsExactly(g, sccs[i].vertices, flagged)
    ensures BrokenUpTo(g, sccs, k + 1, flagged)
  {
    hide HitsExactly, OnCycle;
  }

  lemma FlagIsSomewhere(g: Graph, sccs: seq<T.Scc>, k: nat, flagged0: set<nat>, invalid: set<nat>, v: nat)
    requires k < |sccs| && BrokenUpTo(g, sccs, k, flagged0)
    requires FlagsOnCycles(g, Elements(sccs[k].vertices), invalid) && v in flagged0 + invalid
    ensures Placed(g, sccs, k + 1, v)
  {
    hide HitsExactly, OnCycle;
    if v in flagged0 {
      var i :| 0 <= i < k && T.Contains(sccs[i], v);
    } else {
      assert v in Elements(sccs[k].vertices);
      assert T.Contains(sccs[k], v);
    }
  }

  /** The vertices of a cycle reach each other, so they share a component. */
  lemma CycleIsMutual(g: Graph, p: seq<nat>, i: nat)
    requires IsCycle(g, p) && i < |p|
    ensures T.Mutual(g, p[0], p[i])
  {
    hide Edge, Reach;
    FrontReaches(g, p, i);
    BackReaches(g, p, i);
    ReachTransitive(g, p[i], p[|p| - 1], p[0]);
  }

  lemma FrontReaches(g: Graph, p: seq<nat>, i: nat)
    requires IsCycle(g, p) && i < |p|
    ensures Reach(g, p[0], p[i])
  {
    hide Edge;
    assert WalkFromTo(g, p[..i + 1], p[0], p[i]);
  }

  lemma BackReaches(g: Graph, p: seq<nat>, i: nat)
    requires IsCycle(g, p) && i < |p|
    ensures Reach(g, p[i], p[|p| - 1]) && Reach(g, p[|p| - 1], p[0])
  {
    hide Edge;
    var n := |p| - 1;
    forall k | 0 <= k < |p[i..]| - 1 ensures Edge(g, p[i..][k], p[i..][k + 1]) {
      assert Edge(g, p[i + k], p[i + k + 1]);
    }
    assert WalkFromTo(g, p[i..], p[i], p[n]);
    assert WalkFromTo(g, [p[n], p[0]], p[n], p[0]);
  }

  /** Two other vertices share the component. */
  ghost predicate Large(g: Graph, v: nat) {
    exists a: nat, b: nat :: a != b && a != v && b != v && T.Mutual(g, v, a) && T.Mutual(g, v, b)
  }

  ghost predicate FirstOfPair(g: Graph, v: nat) {
    !Large(g, v) && exists b: nat :: b > v && T.Mutual(g, v, b)
  }

  /** Which cycles the program breaks. */
  ghost predicate MustBreak(g: Graph, p: seq<nat>) {
    |p| >= 2 || (p != [] && (Large(g, p[0]) || FirstOfPair(g, p[0])))
  }

  lemma LongMustBreak(g: Graph)
    ensures forall p: seq<nat> :: |p| >= 2 ==> MustBreak(g, p)
  {
    hide Large, FirstOfPair;
  }

  lemma LargeIff(g: Graph, c: T.Scc, v: nat)
    requires T.IsComponent(g, c) && v in c.vertices
    ensures Large(g, v) <==> |c.vertices| >= 3
  {
    hide T.Mutual;
    var i :| 0 <= i < |c.vertices| && c.vertices[i] == v;
    if |c.vertices| >= 3 {
      var j, k := if i == 0 then 1 else 0, if i == 2 then 1 else 2;
      var a, b := c.vertices[j], c.vertices[k];
      assert a in c.vertices && b in c.vertices && a != b && a != v && b != v;
      assert T.Mutual(g, v, a) && T.Mutual(g, v, b);
    }
    if Large(g, v) {
      var a: nat, b: nat :| a != b && a != v && b != v && T.Mutual(g, v, a) && T.Mutual(g, v, b);
      assert a in c.vertices && b in c.vertices;
      Fits(c.vertices, {v, a, b});
    }
  }

  lemma FirstIff(g: Graph, c: T.Scc, v: nat)
    requires T.IsComponent(g, c) && v in c.vertices
    ensures FirstOfPair(g, v) <==> |c.vertices| == 2 && c.vertices[0] == v
  {
    hide T.Mutual, Large;
    LargeIff(g, c, v);
    if |c.vertices| == 2 && c.vertices[0] == v {
      assert c.vertices[1] in c.vertices;
    }
    if FirstOfPair(g, v) {
      var b: nat :| b > v && T.Mutual(g, v, b);
      assert b in c.vertices;
      Fits(c.vertices, {v, b});
    }
  }

  lemma MustBreakIff(g: Graph, c: T.Scc, p: seq<nat>)
    requires T.IsComponent(g, c) && p != [] && Within(p, c.vertices)
    ensures MustHit(p, c.vertices) <==> MustBreak(g, p)
  {
    hide T.IsComponent, Large, FirstOfPair;
    assert p[0] in p;
    LargeIff(g, c, p[0]);
    FirstIff(g, c, p[0]);
    if |p| < 2 {
      assert p == [p[0]];
    }
  }

  lemma AllBroken(g: Graph, sccs: seq<T.Scc>, flagged: set<nat>)
    requires T.Divides(g, sccs, UpTo(|g|)) && BrokenUpTo(g, sccs, |sccs|, flagged)
    ensures forall p: seq<nat> :: IsCycle(g, p) ==> (Hit(p, flagged) <==> MustBreak(g, p))
    ensures forall v :: v in flagged ==> OnCycle(g, v)
  {
    hide Hit, OnCycle, IsCycle, T.Divides, T.Contains, Within, MustBreak, MustHit, T.IsComponent;
    forall p: seq<nat> | IsCycle(g, p) ensures Hit(p, flagged) <==> MustBreak(g, p) {
      var i := CycleIsInComponent(g, sccs, p);
      DividesAt(g, sccs, i);
      CycleIsNonempty(g, p);
      assert HitsExactly(g, sccs[i].vertices, flagged);
      MustBreakIff(g, sccs[i], p);
    }
  }

  lemma CycleIsInComponent(g: Graph, sccs: seq<T.Scc>, p: seq<nat>) returns (i: nat)
    requires T.Divides(g, sccs, UpTo(|g|)) && IsCycle(g, p)
    ensures i < |sccs| && Within(p, sccs[i].vertices)
  {
    hide T.Mutual, T.IsComponent, T.Divides, IsCycle;
    i := ComponentOf(g, sccs, p);
    forall x | x in p ensures x in sccs[i].vertices {
      var j :| 0 <= j < |p| && p[j] == x;
      CycleIsMutual(g, p, j);
      SharesComponent(g, sccs[i], p[0], x);
    }
  }

  lemma ComponentOf(g: Graph, sccs: seq<T.Scc>, p: seq<nat>) returns (i: nat)
    requires T.Divides(g, sccs, UpTo(|g|)) && IsCycle(g, p)
    ensures i < |sccs| && p != [] && p[0] in sccs[i].vertices && T.IsComponent(g, sccs[i])
  {
    hide Edge, T.IsComponent;
    assert p[0] in UpTo(|g|);
    i :| 0 <= i < |sccs| && T.Contains(sccs[i], p[0]);
  }

  lemma SharesComponent(g: Graph, c: T.Scc, u: nat, v: nat)
    requires T.IsComponent(g, c) && u in c.vertices && T.Mutual(g, u, v)
    ensures v in c.vertices
  {
    hide T.Mutual;
  }

  /** Off the flagged vertices, a walk that returns to its start never left it. */
  ghost predicate AcyclicWithout(g: Graph, flagged: set<nat>) {
    forall p: seq<nat> :: Walk(g, p) && p[0] == p[|p| - 1] && !Hit(p, flagged) ==> StaysPut(p)
  }

  ghost predicate StaysPut(p: seq<nat>) {
    forall i :: 0 <= i < |p| ==> p[i] == p[0]
  }

  ghost predicate Moves(p: seq<nat>) {
    forall i :: 0 <= i < |p| - 1 ==> p[i] != p[i + 1]
  }

  /** A closed walk that moves contains a cycle of two or more vertices. */
  lemma {:induction false} ClosedWalkHasCycle(g: Graph, p: seq<nat>) returns (c: seq<nat>)
    requires Walk(g, p) && |p| >= 2 && Moves(p) && p[0] == p[|p| - 1]
    ensures IsCycle(g, c) && |c| >= 2 && Within(c, p)
    decreases |p|
  {
    hide Edge;
    c := p[..|p| - 1];
    if !Distinct(c) {
      var i, j :| 0 <= i < j < |c| && c[i] == c[j];
      WalkSlice(g, p, i, j);
      c := ClosedWalkHasCycle(g, p[i..j + 1]);
    }
  }

  /** A walk without its pauses. */
  lemma {:induction false} WithoutPauses(g: Graph, p: seq<nat>) returns (q: seq<nat>)
    requires Walk(g, p)
    ensures Walk(g, q) && Moves(q) && q[0] == p[0] && q[|q| - 1] == p[|p| - 1] && Within(q, p)
    ensures |q| == 1 ==> StaysPut(p)
    decreases |p|
  {
    hide Edge;
    var n := |p| - 1;
    if n == 0 {
      q := p;
    } else {
      WalkFront(g, p);
      q := WithoutPauses(g, p[..n]);
      assert Edge(g, p[n - 1], p[n - 1 + 1]);
      if p[n] != p[n - 1] {
        q := q + [p[n]];
      }
    }
  }

  lemma WalkFront(g: Graph, p: seq<nat>)
    requires Walk(g, p) && |p| > 1
    ensures Walk(g, p[..|p| - 1])
  {
    hide Edge;
    var q := p[..|p| - 1];
    forall i | 0 <= i < |q| - 1 ensures Edge(g, q[i], q[i + 1]) {
      assert Edge(g, p[i], p[i + 1]);
    }
  }

  /** When every cycle of two or more vertices is hit, no walk leaves its start and
      returns. */
  lemma NothingLeft(g: Graph, flagged: set<nat>)
    requires forall p: seq<nat> :: IsCycle(g, p) && |p| >= 2 ==> Hit(p, flagged)
    ensures AcyclicWithout(g, flagged)
  {
    hide IsCycle, Edge;
    forall p: seq<nat> | Walk(g, p) && p[0] == p[|p| - 1] && !Hit(p, flagged) ensures StaysPut(p) {
      var q := WithoutPauses(g, p);
      if |q| >= 2 {
        var c := ClosedWalkHasCycle(g, q);
      }
    }
  }

  lemma NoMarks(flags: seq<bool>)
    requires forall v :: 0 <= v < |flags| ==> !flags[v]
    ensures T.Marks(flags, [])
  {
  }
}

/**
 * `aplicar_2opt`: local search on one route. Passes over the pairs 1 <= i < j <= len - 2
 * reverse `rota[i..j]` whenever reconnecting `rota[i-1]`-`rota[j]` and `rota[i]`-`rota[j+1]`
 * is shorter than the current two edges, until a pass changes nothing. Points are looked up
 * in the id-keyed dictionary built by the evolution loop.
 */
module TwoOpt {
  import opened Sequences
  import opened Points
  import opened FitnessEvaluator

  /** `dict_pontos`. */
  type Table = map<int, Point>

  /** Every id of the route has an entry (a missing one raises KeyError). */
  predicate Known(s: seq<int>, table: Table) {
    forall x :: x in s ==> x in table
  }

  /** The distance between the points of two ids. */
  function Edge(table: Table, dist: Distance, a: int, b: int): real
    requires a in table && b in table
  {
    dist(table[a].coord, table[b].coord)
  }

  /** The test `d3 + d4 < d1 + d2` for the pair (i, j). */
  predicate Improving(s: seq<int>, table: Table, dist: Distance, i: nat, j: nat)
    requires Known(s, table) && 1 <= i < j < |s| - 1
  {
    Edge(table, dist, s[i - 1], s[j]) + Edge(table, dist, s[i], s[j + 1])
      < Edge(table, dist, s[i - 1], s[i]) + Edge(table, dist, s[j], s[j + 1])
  }

  /** A 2-opt local optimum: no pair passes the test. */
  predicate Optimal(s: seq<int>, table: Table, dist: Distance)
    requires Known(s, table)
  {
    forall i, j :: 1 <= i < j < |s| - 1 ==> !Improving(s, table, dist, i, j)
  }

  /** `melhor_rota[i:j+1] = reversed(melhor_rota[i:j+1])`. */
  method ReverseSegment(a: array<int>, i: nat, j: nat)
    requires i <= j < a.Length
    modifies a
    ensures a[..] == ReverseRange(old(a[..]), i, j)
  {
    ReverseRangeIndices(a[..], i, j);
    var segment := a[i..j + 1];
    forall k | i <= k <= j {
      a[k] := segment[j - k];
    }
  }

  /** Reversing part of a route keeps its stops, so their entries too. */
  lemma KnownReversed(s: seq<int>, table: Table, i: nat, j: nat)
    requires Known(s, table) && i <= j < |s|
    ensures Known(ReverseRange(s, i, j), table)
  {
    ReverseRangePermutes(s, i, j);
    KnownPermuted(s, ReverseRange(s, i, j), table);
  }

  /** A rearrangement of a route has the route's stops, so their entries too. */
  lemma KnownPermuted(s: seq<int>, r: seq<int>, table: Table)
    requires Known(s, table) && multiset(r) == multiset(s)
    ensures Known(r, table)
  {
    forall x | x in r ensures x in table {
      assert x in multiset(r);
    }
  }

  /**
   * Row `i` of a pass from column `j` on, over the route as it stands. Returns the route
   * after the row and whether some reversal happened.
   */
  function RowScan(s: seq<int>, table: Table, dist: Distance, i: nat, j: nat): (r: (seq<int>, bool))
    requires Known(s, table) && 1 <= i < j
    ensures |r.0| == |s| && Known(r.0, table)
    decreases |s| - j, 1
  {
    if j >= |s| - 1 then (s, false) else RowColumn(s, table, dist, i, j)
  }

  /**
   * Column `j` of row `i` and the columns after it: an improving pair is reversed at once,
   * and the row goes on over the reversed route.
   */
  function RowColumn(s: seq<int>, table: Table, dist: Distance, i: nat, j: nat): (r: (seq<int>, bool))
    requires Known(s, table) && 1 <= i < j < |s| - 1
    ensures |r.0| == |s| && Known(r.0, table)
    decreases |s| - j, 0
  {
    if Improving(s, table, dist, i, j) then
      var t := ReverseRange(s, i, j);
      KnownReversed(s, table, i, j);
      (RowScan(t, table, dist, i, j + 1).0, true)
    else
      RowScan(s, table, dist, i, j + 1)
  }

  /** Rows `i` to `len - 3` of one pass, each over the route the rows before it left. */
  function PassScan(s: seq<int>, table: Table, dist: Distance, i: nat): (r: (seq<int>, bool))
    requires Known(s, table) && 1 <= i
    ensures |r.0| == |s| && Known(r.0, table)
    decreases |s| - i, 1
  {
    if i + 2 >= |s| then (s, false) else PassRow(s, table, dist, i)
  }

  /** Row `i` of a pass and the rows after it. */
  function PassRow(s: seq<int>, table: Table, dist: Distance, i: nat): (r: (seq<int>, bool))
    requires Known(s, table) && 1 <= i && i + 2 < |s|
    ensures |r.0| == |s| && Known(r.0, table)
    decreases |s| - i, 0
  {
    var row := RowScan(s, table, dist, i, i + 1);
    var rest := PassScan(row.0, table, dist, i + 1);
    (rest.0, row.1 || rest.1)
  }

  /**
   * The `while otimizou` loop with at most `passLimit` passes: it stops after a pass that
   * reversed nothing (converged) or when the passes run out (not converged).
   */
  function Refined(s: seq<int>, table: Table, dist: Distance, passLimit: nat): (r: (seq<int>, bool))
    requires Known(s, table)
    ensures |r.0| == |s| && Known(r.0, table)
    decreases passLimit, 1
  {
    if passLimit == 0 then (s, false) else RefinePass(s, table, dist, passLimit)
  }

  /** One pass of the loop, then the passes after it unless this one reversed nothing. */
  function RefinePass(s: seq<int>, table: Table, dist: Distance, passLimit: nat): (r: (seq<int>, bool))
    requires Known(s, table) && passLimit >= 1
    ensures |r.0| == |s| && Known(r.0, table)
    decreases passLimit, 0
  {
    var pass := PassScan(s, table, dist, 1);
    if pass.1 then Refined(pass.0, table, dist, passLimit - 1) else (pass.0, true)
  }

  /** The route after `k` passes, whatever they found. */
  function Iterate(s: seq<int>, table: Table, dist: Distance, k: nat): (r: seq<int>)
    requires Known(s, table)
    ensures |r| == |s| && Known(r, table)
    decreases k
  {
    if k == 0 then s else Iterate(PassScan(s, table, dist, 1).0, table, dist, k - 1)
  }

  /**
   * The inner loop for one `i`: every `j` in `range(i + 1, len - 1)` is tested against the
   * route as it stands, reversing on success. Returns whether some reversal happened.
   */
  method ScanRow(a: array<int>, i: nat, table: Table, dist: Distance) returns (improved: bool)
    requires 1 <= i && Known(a[..], table)
    modifies a
    ensures (a[..], improved) == RowScan(old(a[..]), table, dist, i, i + 1)
  {
    var n := a.Length;
    improved := false;
    var j := i + 1;
    while j < n - 1
      invariant i + 1 <= j && Known(a[..], table)
      invariant (RowScan(a[..], table, dist, i, j).0, improved || RowScan(a[..], table, dist, i, j).1)
        == RowScan(old(a[..]), table, dist, i, i + 1)
      decreases n - j
    {
      ghost var before := a[..];
      KnownEnds(before, table, i, j);
      var d1 := dist(table[a[i - 1]].coord, table[a[i]].coord);
      var d2 := dist(table[a[j]].coord, table[a[j + 1]].coord);
      var d3 := dist(table[a[i - 1]].coord, table[a[j]].coord);
      var d4 := dist(table[a[i]].coord, table[a[j + 1]].coord);
      if d3 + d4 < d1 + d2 {
        assert Improving(before, table, dist, i, j);
        ColumnReverses(before, table, dist, i, j);
        ReverseSegment(a, i, j);
        improved := true;
      } else {
        assert !Improving(before, table, dist, i, j);
        ColumnSkips(before, table, dist, i, j);
      }
      j := j + 1;
    }
  }

  /** The four stops the test at `(i, j)` looks up have entries. */
  lemma KnownEnds(s: seq<int>, table: Table, i: nat, j: nat)
    requires Known(s, table) && 1 <= i < j < |s| - 1
    ensures s[i - 1] in table && s[i] in table && s[j] in table && s[j + 1] in table
  {
    var p, q, u, v := s[i - 1], s[i], s[j], s[j + 1];
    assert p in s && q in s && u in s && v in s;
  }

  /** An improving column of a row reverses its pair and goes on over the reversed route. */
  lemma ColumnReverses(s: seq<int>, table: Table, dist: Distance, i: nat, j: nat)
    requires Known(s, table) && 1 <= i < j < |s| - 1 && Improving(s, table, dist, i, j)
    ensures Known(ReverseRange(s, i, j), table)
    ensures RowScan(s, table, dist, i, j) == (RowScan(ReverseRange(s, i, j), table, dist, i, j + 1).0, true)
  {
    KnownReversed(s, table, i, j);
    assert RowScan(s, table, dist, i, j) == RowColumn(s, table, dist, i, j);
  }

  /** Any other column of a row leaves the route to the next column. */
  lemma ColumnSkips(s: seq<int>, table: Table, dist: Distance, i: nat, j: nat)
    requires Known(s, table) && 1 <= i < j < |s| - 1 && !Improving(s, table, dist, i, j)
    ensures RowScan(s, table, dist, i, j) == RowScan(s, table, dist, i, j + 1)
  {
    assert RowScan(s, table, dist, i, j) == RowColumn(s, table, dist, i, j);
  }

  /** One pass of the `while otimizou` loop: the double loop over all pairs. */
  method Pass(a: array<int>, table: Table, dist: Distance) returns (improved: bool)
    requires Known(a[..], table)
    modifies a
    ensures (a[..], improved) == PassScan(old(a[..]), table, dist, 1)
  {
    var n := a.Length;
    improved := false;
    var i := 1;
    while i < n - 2
      invariant 1 <= i && Known(a[..], table)
      invariant (PassScan(a[..], table, dist, i).0, improved || PassScan(a[..], table, dist, i).1)
        == PassScan(old(a[..]), table, dist, 1)
      decreases n - i
    {
      assert PassScan(a[..], table, dist, i) == PassRow(a[..], table, dist, i);
      var row := ScanRow(a, i, table, dist);
      improved := improved || row;
      i := i + 1;
    }
  }

  /**
   * What refining `before` into `after` guarantees: the same stops, with the same endpoints;
   * a 2-opt optimum when the passes converged; nothing touched on a route that already was
   * one; and, for a symmetric distance, either no change or a strictly shorter path, and a
   * strictly shorter one whenever a pass ran on a route that was not yet an optimum.
   */
  ghost predicate Refinement(before: seq<int>, after: seq<int>, converged: bool, table: Table, dist: Distance, passLimit: nat)
    requires Known(before, table)
  {
    && |after| == |before| && multiset(after) == multiset(before) && Known(after, table)
    && (|before| >= 1 ==> after[0] == before[0] && after[|after| - 1] == before[|before| - 1])
    && (converged ==> Optimal(after, table, dist))
    && (Optimal(before, table, dist) && passLimit >= 1 ==> after == before && converged)
    && (Symmetric(dist) ==> after == before || PathLength(table, dist, after) < PathLength(table, dist, before))
    && (passLimit >= 1 && Symmetric(dist) && !Optimal(before, table, dist) ==>
          PathLength(table, dist, after) < PathLength(table, dist, before))
  }

  /**
   * `aplicar_2opt`. The source repeats passes until one finds nothing to improve; with an
   * abstract distance that need not happen, so at most `passLimit` passes run.
   */
  method Refine(route: seq<int>, table: Table, dist: Distance, passLimit: nat) returns (best: seq<int>, converged: bool)
    requires Known(route, table)
    ensures (best, converged) == Refined(route, table, dist, passLimit)
    ensures Refinement(route, best, converged, table, dist, passLimit)
  {
    var a := new int[|route|](k requires 0 <= k < |route| => route[k]);
    assert a[..] == route;
    var improved := true;
    var count := 0;
    while improved && count < passLimit
      invariant count <= passLimit && Known(a[..], table)
      invariant improved ==> Refined(a[..], table, dist, passLimit - count) == Refined(route, table, dist, passLimit)
      invariant !improved ==> (a[..], true) == Refined(route, table, dist, passLimit)
      decreases passLimit - count
    {
      assert Refined(a[..], table, dist, passLimit - count) == RefinePass(a[..], table, dist, passLimit - count);
      improved := Pass(a, table, dist);
      count := count + 1;
    }
    best, converged := a[..], !improved;
    RefinedIsRefinement(route, table, dist, passLimit);
  }

  // ---------------------------------------------------------------------------
  // What a row, a pass and the pass loop guarantee

  /** A row rearranges the route. */
  lemma {:induction false} RowScanPermutes(s: seq<int>, table: Table, dist: Distance, i: nat, j: nat)
    requires Known(s, table) && 1 <= i < j
    ensures multiset(RowScan(s, table, dist, i, j).0) == multiset(s)
    decreases |s| - j
  {
    if j < |s| - 1 {
      if Improving(s, table, dist, i, j) {
        var t := ReverseRange(s, i, j);
        KnownReversed(s, table, i, j);
        ReverseRangePermutes(s, i, j);
        RowScanPermutes(t, table, dist, i, j + 1);
      } else {
        RowScanPermutes(s, table, dist, i, j + 1);
      }
    }
  }

  /** A row keeps every position before `i` and the last one. */
  lemma {:induction false} RowScanKeeps(s: seq<int>, table: Table, dist: Distance, i: nat, j: nat)
    requires Known(s, table) && 1 <= i < j
    ensures var r := RowScan(s, table, dist, i, j).0;
      forall k :: 0 <= k < |s| && (k < i || k == |s| - 1) ==> r[k] == s[k]
    decreases |s| - j
  {
    if j < |s| - 1 {
      if Improving(s, table, dist, i, j) {
        var t := ReverseRange(s, i, j);
        KnownReversed(s, table, i, j);
        ReverseRangeIndices(s, i, j);
        RowScanKeeps(t, table, dist, i, j + 1);
      } else {
        RowScanKeeps(s, table, dist, i, j + 1);
      }
    }
  }

  /** A row that reversed nothing changed nothing. */
  lemma {:induction false} RowScanUnchanged(s: seq<int>, table: Table, dist: Distance, i: nat, j: nat)
    requires Known(s, table) && 1 <= i < j
    ensures var r := RowScan(s, table, dist, i, j); !r.1 ==> r.0 == s
    decreases |s| - j
  {
    if j < |s| - 1 && !Improving(s, table, dist, i, j) {
      RowScanUnchanged(s, table, dist, i, j + 1);
    }
  }

  /** A row reverses something exactly when some `j` from `j0` on improves the route. */
  lemma {:induction false} RowScanQuiet(s: seq<int>, table: Table, dist: Distance, i: nat, j0: nat)
    requires Known(s, table) && 1 <= i < j0
    ensures RowScan(s, table, dist, i, j0).1 <==> exists j :: j0 <= j < |s| - 1 && Improving(s, table, dist, i, j)
    decreases |s| - j0
  {
    if j0 < |s| - 1 && !Improving(s, table, dist, i, j0) {
      RowScanQuiet(s, table, dist, i, j0 + 1);
    }
  }

  /** For a symmetric distance, a row that reversed something shortened the route. */
  lemma {:induction false} RowScanShortens(s: seq<int>, table: Table, dist: Distance, i: nat, j: nat)
    requires Known(s, table) && 1 <= i < j && Symmetric(dist)
    ensures var r := RowScan(s, table, dist, i, j);
      r.1 ==> PathLength(table, dist, r.0) < PathLength(table, dist, s)
    decreases |s| - j
  {
    if j < |s| - 1 {
      if Improving(s, table, dist, i, j) {
        var t := ReverseRange(s, i, j);
        KnownReversed(s, table, i, j);
        ImprovingShortens(s, table, dist, i, j);
        RowScanShortens(t, table, dist, i, j + 1);
        RowScanUnchanged(t, table, dist, i, j + 1);
      } else {
        RowScanShortens(s, table, dist, i, j + 1);
      }
    }
  }

  /** The rows from `i` on rearrange the route. */
  lemma {:induction false} PassScanPermutes(s: seq<int>, table: Table, dist: Distance, i: nat)
    requires Known(s, table) && 1 <= i
    ensures multiset(PassScan(s, table, dist, i).0) == multiset(s)
    decreases |s| - i
  {
    if i + 2 < |s| {
      var row := RowScan(s, table, dist, i, i + 1);
      RowScanPermutes(s, table, dist, i, i + 1);
      PassScanPermutes(row.0, table, dist, i + 1);
    }
  }

  /** The rows from `i` on keep every position before `i` and the last one. */
  lemma {:induction false} PassScanKeeps(s: seq<int>, table: Table, dist: Distance, i: nat)
    requires Known(s, table) && 1 <= i
    ensures var r := PassScan(s, table, dist, i).0;
      forall k :: 0 <= k < |s| && (k < i || k == |s| - 1) ==> r[k] == s[k]
    decreases |s| - i
  {
    if i + 2 < |s| {
      var row := RowScan(s, table, dist, i, i + 1);
      RowScanKeeps(s, table, dist, i, i + 1);
      PassScanKeeps(row.0, table, dist, i + 1);
    }
  }

  /** The rows from `i` on, when they reversed nothing, changed nothing. */
  lemma {:induction false} PassScanUnchanged(s: seq<int>, table: Table, dist: Distance, i: nat)
    requires Known(s, table) && 1 <= i
    ensures var r := PassScan(s, table, dist, i); !r.1 ==> r.0 == s
    decreases |s| - i
  {
    if i + 2 < |s| {
      var row := RowScan(s, table, dist, i, i + 1);
      RowScanUnchanged(s, table, dist, i, i + 1);
      PassScanUnchanged(row.0, table, dist, i + 1);
    }
  }

  /** The rows from `i` on reverse something exactly when some pair in them improves the route. */
  lemma {:induction false} PassScanQuiet(s: seq<int>, table: Table, dist: Distance, i: nat)
    requires Known(s, table) && 1 <= i
    ensures PassScan(s, table, dist, i).1 <==>
      exists i', j :: i <= i' < j < |s| - 1 && Improving(s, table, dist, i', j)
    decreases |s| - i
  {
    if i + 2 < |s| {
      var row := RowScan(s, table, dist, i, i + 1);
      RowScanQuiet(s, table, dist, i, i + 1);
      if !row.1 {
        RowScanUnchanged(s, table, dist, i, i + 1);
        PassScanQuiet(s, table, dist, i + 1);
        RowsSplit(s, table, dist, i);
      }
    }
  }

  /** An improving pair in rows `i` on is in row `i` or in the rows after it. */
  lemma {:induction false} RowsSplit(s: seq<int>, table: Table, dist: Distance, i: nat)
    requires Known(s, table) && 1 <= i
    ensures (exists i', j :: i <= i' < j < |s| - 1 && Improving(s, table, dist, i', j)) <==>
      (exists j :: i < j < |s| - 1 && Improving(s, table, dist, i, j))
      || (exists i', j :: i + 1 <= i' < j < |s| - 1 && Improving(s, table, dist, i', j))
  {
    if exists i', j :: i <= i' < j < |s| - 1 && Improving(s, table, dist, i', j) {
      var i', j :| i <= i' < j < |s| - 1 && Improving(s, table, dist, i', j);
      if i' > i {
        assert i + 1 <= i' < j < |s| - 1 && Improving(s, table, dist, i', j);
      }
    }
  }

  /** For a symmetric distance, rows that reversed something shortened the route. */
  lemma {:induction false} PassScanShortens(s: seq<int>, table: Table, dist: Distance, i: nat)
    requires Known(s, table) && 1 <= i && Symmetric(dist)
    ensures var r := PassScan(s, table, dist, i);
      r.1 ==> PathLength(table, dist, r.0) < PathLength(table, dist, s)
    decreases |s| - i
  {
    if i + 2 < |s| {
      var row := RowScan(s, table, dist, i, i + 1);
      RowScanShortens(s, table, dist, i, i + 1);
      RowScanUnchanged(s, table, dist, i, i + 1);
      PassScanShortens(row.0, table, dist, i + 1);
      PassScanUnchanged(row.0, table, dist, i + 1);
    }
  }

  /** A whole pass reverses nothing exactly on a 2-opt optimum, which it leaves unchanged. */
  lemma PassQuiet(s: seq<int>, table: Table, dist: Distance)
    requires Known(s, table)
    ensures var r := PassScan(s, table, dist, 1);
      (!r.1 <==> Optimal(s, table, dist)) && (!r.1 ==> r.0 == s)
  {
    PassScanQuiet(s, table, dist, 1);
    PassScanUnchanged(s, table, dist, 1);
  }

  /** The pass loop rearranges the route. */
  lemma {:induction false} RefinedPermutes(s: seq<int>, table: Table, dist: Distance, passLimit: nat)
    requires Known(s, table)
    ensures multiset(Refined(s, table, dist, passLimit).0) == multiset(s)
    decreases passLimit
  {
    if passLimit >= 1 {
      var pass := PassScan(s, table, dist, 1);
      PassScanPermutes(s, table, dist, 1);
      if pass.1 {
        RefinedPermutes(pass.0, table, dist, passLimit - 1);
      }
    }
  }

  /** The pass loop keeps both ends of the route. */
  lemma {:induction false} RefinedKeeps(s: seq<int>, table: Table, dist: Distance, passLimit: nat)
    requires Known(s, table)
    ensures var r := Refined(s, table, dist, passLimit).0;
      |s| >= 1 ==> r[0] == s[0] && r[|r| - 1] == s[|s| - 1]
    decreases passLimit
  {
    if passLimit >= 1 {
      var pass := PassScan(s, table, dist, 1);
      PassScanKeeps(s, table, dist, 1);
      if pass.1 {
        RefinedKeeps(pass.0, table, dist, passLimit - 1);
      }
    }
  }

  /** The pass loop converges only on an optimum, and leaves an optimum untouched. */
  lemma {:induction false} RefinedOptimal(s: seq<int>, table: Table, dist: Distance, passLimit: nat)
    requires Known(s, table)
    ensures var r := Refined(s, table, dist, passLimit);
      && (r.1 ==> Optimal(r.0, table, dist))
      && (Optimal(s, table, dist) && passLimit >= 1 ==> r.0 == s && r.1)
    decreases passLimit
  {
    if passLimit >= 1 {
      var pass := PassScan(s, table, dist, 1);
      PassQuiet(s, table, dist);
      if pass.1 {
        RefinedOptimal(pass.0, table, dist, passLimit - 1);
      }
    }
  }

  /**
   * For a symmetric distance the pass loop never lengthens the route, and shortens it
   * whenever a pass runs on a route that is not an optimum.
   */
  lemma {:induction false} RefinedShortens(s: seq<int>, table: Table, dist: Distance, passLimit: nat)
    requires Known(s, table) && Symmetric(dist)
    ensures var r := Refined(s, table, dist, passLimit);
      && (r.0 == s || PathLength(table, dist, r.0) < PathLength(table, dist, s))
      && (passLimit >= 1 && !Optimal(s, table, dist) ==> PathLength(table, dist, r.0) < PathLength(table, dist, s))
    decreases passLimit
  {
    if passLimit >= 1 {
      var pass := PassScan(s, table, dist, 1);
      PassQuiet(s, table, dist);
      PassScanShortens(s, table, dist, 1);
      if pass.1 {
        RefinedShortens(pass.0, table, dist, passLimit - 1);
      }
    }
  }

  /** The pass loop's result is a `Refinement` of its input. */
  lemma RefinedIsRefinement(s: seq<int>, table: Table, dist: Distance, passLimit: nat)
    requires Known(s, table)
    ensures var r := Refined(s, table, dist, passLimit);
      Refinement(s, r.0, r.1, table, dist, passLimit)
  {
    RefinedPermutes(s, table, dist, passLimit);
    RefinedKeeps(s, table, dist, passLimit);
    RefinedOptimal(s, table, dist, passLimit);
    if Symmetric(dist) {
      RefinedShortens(s, table, dist, passLimit);
    }
  }

  /** Every pass before the `k`-th of `passLimit` reversed something (so the loop went on). */
  ghost predicate AllImproved(s: seq<int>, table: Table, dist: Distance, k: nat)
    requires Known(s, table)
  {
    forall m :: 0 <= m < k ==> PassScan(Iterate(s, table, dist, m), table, dist, 1).1
  }

  /** The passes of `s` are the first pass followed by the passes of its result. */
  lemma {:induction false} IterateShift(s: seq<int>, table: Table, dist: Distance, k: nat)
    requires Known(s, table)
    ensures Iterate(s, table, dist, k + 1) == Iterate(PassScan(s, table, dist, 1).0, table, dist, k)
  {
  }

  /** All of the first `k + 1` passes improved when the first did and the next `k` did. */
  lemma {:induction false} AllImprovedShift(s: seq<int>, table: Table, dist: Distance, k: nat)
    requires Known(s, table) && PassScan(s, table, dist, 1).1
    requires AllImproved(PassScan(s, table, dist, 1).0, table, dist, k)
    ensures AllImproved(s, table, dist, k + 1)
  {
    forall m | 0 <= m < k + 1 ensures PassScan(Iterate(s, table, dist, m), table, dist, 1).1 {
      if m == 0 {
        assert Iterate(s, table, dist, 0) == s;
      } else {
        IterateShift(s, table, dist, m - 1);
        assert 0 <= m - 1 < k;
      }
    }
  }

  /**
   * How the pass loop stops: a result that did not converge is the route after all
   * `passLimit` passes, every one of which reversed something; a converged result is the
   * route after some `k < passLimit` passes that each reversed something, followed by one
   * that reversed nothing.
   */
  lemma {:induction false} RefinedStops(s: seq<int>, table: Table, dist: Distance, passLimit: nat)
    requires Known(s, table)
    ensures var r := Refined(s, table, dist, passLimit);
      && (!r.1 ==> r.0 == Iterate(s, table, dist, passLimit) && AllImproved(s, table, dist, passLimit))
      && (r.1 ==> exists k :: 0 <= k < passLimit && r.0 == Iterate(s, table, dist, k)
                   && !PassScan(Iterate(s, table, dist, k), table, dist, 1).1 && AllImproved(s, table, dist, k))
    decreases passLimit
  {
    if passLimit >= 1 {
      var pass := PassScan(s, table, dist, 1);
      PassScanUnchanged(s, table, dist, 1);
      if pass.1 {
        var next := pass.0;
        RefinedStops(next, table, dist, passLimit - 1);
        assert Refined(s, table, dist, passLimit) == RefinePass(s, table, dist, passLimit);
        var r := Refined(next, table, dist, passLimit - 1);
        if r.1 {
          var k :| 0 <= k < passLimit - 1 && r.0 == Iterate(next, table, dist, k)
            && !PassScan(Iterate(next, table, dist, k), table, dist, 1).1 && AllImproved(next, table, dist, k);
          IterateShift(s, table, dist, k);
          AllImprovedShift(s, table, dist, k);
        } else {
          IterateShift(s, table, dist, passLimit - 1);
          AllImprovedShift(s, table, dist, passLimit - 1);
        }
      } else {
        assert Iterate(s, table, dist, 0) == s;
        assert AllImproved(s, table, dist, 0);
      }
    }
  }

  // ---------------------------------------------------------------------------
  // Why an improving reversal shortens the route

  /** Euclidean distance is symmetric; the model keeps the distance abstract. */
  ghost predicate Symmetric(dist: Distance) {
    forall p, q :: dist(p, q) == dist(q, p)
  }

  /** Length of the path through `s`, edge by edge. */
  function PathLength(table: Table, dist: Distance, s: seq<int>): real
    requires Known(s, table)
  {
    if |s| < 2 then 0.0 else Edge(table, dist, s[0], s[1]) + PathLength(table, dist, s[1..])
  }

  lemma {:induction false} PathConcat(table: Table, dist: Distance, s: seq<int>, t: seq<int>)
    requires Known(s, table) && Known(t, table) && s != [] && t != []
    ensures Known(s + t, table)
    ensures PathLength(table, dist, s + t)
      == PathLength(table, dist, s) + Edge(table, dist, s[|s| - 1], t[0]) + PathLength(table, dist, t)
  {
    if |s| >= 2 {
      assert (s + t)[1..] == s[1..] + t;
      PathConcat(table, dist, s[1..], t);
    } else {
      assert (s + t)[1..] == t;
    }
  }

  /** The stops of a reversed sequence are those of the sequence. */
  lemma KnownRev(table: Table, s: seq<int>)
    requires Known(s, table)
    ensures Known(Rev(s), table)
  {
    forall x | x in Rev(s) ensures x in table {
      var k :| 0 <= k < |Rev(s)| && Rev(s)[k] == x;
      assert s[|s| - 1 - k] == x;
    }
  }

  lemma {:induction false} PathReversed(table: Table, dist: Distance, s: seq<int>)
    requires Known(s, table) && Symmetric(dist)
    ensures Known(Rev(s), table) && PathLength(table, dist, Rev(s)) == PathLength(table, dist, s)
  {
    KnownRev(table, s);
    if |s| >= 2 {
      var tail := s[1..];
      PathReversed(table, dist, tail);
      assert Rev(s) == Rev(tail) + [s[0]];
      PathConcat(table, dist, Rev(tail), [s[0]]);
      assert Rev(tail)[|tail| - 1] == s[1];
      assert Edge(table, dist, s[1], s[0]) == Edge(table, dist, s[0], s[1]);
    }
  }

  /** The path through three consecutive parts: each part plus the two edges joining them. */
  lemma PathThree(table: Table, dist: Distance, left: seq<int>, mid: seq<int>, right: seq<int>)
    requires Known(left, table) && Known(mid, table) && Known(right, table)
    requires left != [] && mid != [] && right != []
    ensures Known(left + mid + right, table)
    ensures PathLength(table, dist, left + mid + right)
      == PathLength(table, dist, left) + Edge(table, dist, left[|left| - 1], mid[0]) + PathLength(table, dist, mid)
         + Edge(table, dist, mid[|mid| - 1], right[0]) + PathLength(table, dist, right)
  {
    var front := left + mid;
    PathConcat(table, dist, left, mid);
    assert front[|front| - 1] == mid[|mid| - 1];
    PathConcat(table, dist, front, right);
  }

  /** Exchanging two of five summands changes the sum by their difference. */
  lemma SwapTwoTerms(w: real, w': real, l: real, m: real, r: real, e1: real, e2: real, e3: real, e4: real)
    requires w == l + e1 + m + e2 + r && w' == l + e3 + m + e4 + r
    ensures w' == w - (e1 + e2) + (e3 + e4)
  {
  }

  /**
   * Replacing the middle part of `left + mid + right` by a part `mid'` of the same path
   * length with swapped ends changes the path by exactly the two connecting edges.
   */
  lemma Reconnect(table: Table, dist: Distance, left: seq<int>, mid: seq<int>, mid': seq<int>, right: seq<int>)
    requires Known(left, table) && Known(mid, table) && Known(mid', table) && Known(right, table)
    requires left != [] && mid != [] && right != [] && |mid'| == |mid|
    requires mid'[0] == mid[|mid| - 1] && mid'[|mid| - 1] == mid[0]
    requires PathLength(table, dist, mid') == PathLength(table, dist, mid)
    ensures Known(left + mid + right, table) && Known(left + mid' + right, table)
    ensures var a, b, c, d := left[|left| - 1], mid[0], mid[|mid| - 1], right[0];
      PathLength(table, dist, left + mid' + right)
        == PathLength(table, dist, left + mid + right)
           - (Edge(table, dist, a, b) + Edge(table, dist, c, d))
           + (Edge(table, dist, a, c) + Edge(table, dist, b, d))
  {
    var a, b, c, d := left[|left| - 1], mid[0], mid[|mid| - 1], right[0];
    PathThree(table, dist, left, mid, right);
    PathThree(table, dist, left, mid', right);
    assert mid'[|mid'| - 1] == b;
    SwapTwoTerms(PathLength(table, dist, left + mid + right), PathLength(table, dist, left + mid' + right),
                 PathLength(table, dist, left), PathLength(table, dist, mid), PathLength(table, dist, right),
                 Edge(table, dist, a, b), Edge(table, dist, c, d), Edge(table, dist, a, c), Edge(table, dist, b, d));
  }

  /**
   * With a symmetric distance, reversing `s[i..j]` swaps the two edges the test compares and
   * keeps every other edge's length: the route shortens by exactly the test's margin.
   */
  lemma ReversalGain(s: seq<int>, table: Table, dist: Distance, i: nat, j: nat)
    requires Known(s, table) && 1 <= i < j < |s| - 1
    ensures Known(ReverseRange(s, i, j), table)
    ensures Symmetric(dist) ==>
      PathLength(table, dist, ReverseRange(s, i, j))
        == PathLength(table, dist, s)
           - (Edge(table, dist, s[i - 1], s[i]) + Edge(table, dist, s[j], s[j + 1]))
           + (Edge(table, dist, s[i - 1], s[j]) + Edge(table, dist, s[i], s[j + 1]))
  {
    var left, mid, right := s[..i], s[i..j + 1], s[j + 1..];
    assert s == left + mid + right;
    assert ReverseRange(s, i, j) == left + Rev(mid) + right;
    KnownRev(table, mid);
    assert Known(left + Rev(mid) + right, table);
    if Symmetric(dist) {
      PathReversed(table, dist, mid);
      Reconnect(table, dist, left, mid, Rev(mid), right);
    }
  }

  /** An improving reversal strictly shortens the route when the distance is symmetric. */
  lemma ImprovingShortens(s: seq<int>, table: Table, dist: Distance, i: nat, j: nat)
    requires Known(s, table) && 1 <= i < j < |s| - 1 && Symmetric(dist)
    requires Improving(s, table, dist, i, j)
    ensures Known(ReverseRange(s, i, j), table)
    ensures PathLength(table, dist, ReverseRange(s, i, j)) < PathLength(table, dist, s)
  {
    ReversalGain(s, table, dist, i, j);
  }
}

/**
 * `separar_rotas_por_capacidade`: the greedy left-to-right decoder that cuts a chromosome
 * (an ordering of delivery ids) into depot-anchored vehicle routes under a capacity.
 */
module RouteSplitter {
  import opened Points

  type Route = seq<int>

  /** Load of one delivery. The decoder only asks for ids that are present. */
  function LoadOf(pts: seq<Point>, id: int): int {
    if id in Ids(pts) then Lookup(pts, id).load else 0
  }

  /** Total load of `ids`, accumulated left to right as `carga_atual` is. */
  function LoadSum(pts: seq<Point>, ids: seq<int>): int {
    if ids == [] then 0 else LoadSum(pts, ids[..|ids| - 1]) + LoadOf(pts, ids[|ids| - 1])
  }

  /** The decoder's state: finished routes, the route being built (no closing depot yet), its load. */
  datatype Scan = Scan(closed: seq<Route>, open: Route, load: int)

  /** One iteration of the decoder's loop for delivery `id` of load `w`. */
  function Step(s: Scan, id: int, w: int, cap: int): Scan {
    if s.load + w > cap then
      Scan(s.closed + [s.open + [Depot]], [Depot, id], w)
    else
      Scan(s.closed, s.open + [id], s.load + w)
  }

  /** The state after the loop has consumed all of `c`. */
  function ScanOf(c: seq<int>, pts: seq<Point>, cap: int): Scan
    decreases |c|
  {
    if c == [] then
      Scan([], [Depot], 0)
    else
      var id := c[|c| - 1];
      Step(ScanOf(c[..|c| - 1], pts, cap), id, LoadOf(pts, id), cap)
  }

  /** The decoder's result: the open route is closed with the depot and appended. */
  function Split(c: seq<int>, pts: seq<Point>, cap: int): seq<Route>
    requires AllPresent(c, pts)
  {
    var s := ScanOf(c, pts, cap);
    s.closed + [s.open + [Depot]]
  }

  /** The decoder as the source writes it: one pass with appends and a running load. */
  method SplitRoutes(c: seq<int>, pts: seq<Point>, cap: int) returns (routes: seq<Route>)
    requires AllPresent(c, pts)
    ensures routes == Split(c, pts, cap)
  {
    var closed: seq<Route> := [];
    var open: Route := [Depot];
    var load := 0;
    for k := 0 to |c|
      invariant Scan(closed, open, load) == ScanOf(c[..k], pts, cap)
    {
      var id := c[k];
      var w := Lookup(pts, id).load;
      assert ScanOf(c[..k + 1], pts, cap) == Step(Scan(closed, open, load), id, w, cap) by {
        assert c[..k + 1][..k] == c[..k];
        assert w == LoadOf(pts, id);
      }
      if load + w > cap {
        open := open + [Depot];
        closed := closed + [open];
        open := [Depot, id];
        load := w;
      } else {
        open := open + [id];
        load := load + w;
      }
    }
    assert c[..|c|] == c;
    open := open + [Depot];
    closed := closed + [open];
    routes := closed;
  }

  // ---------------------------------------------------------------------------
  // What the decoder promises

  /** Starts and ends at the depot. */
  predicate Anchored(r: Route) {
    |r| >= 2 && r[0] == Depot && r[|r| - 1] == Depot
  }

  /** The deliveries of a route, between its two depot visits. */
  function Interior(r: Route): seq<int> {
    if |r| >= 2 then r[1..|r| - 1] else []
  }

  function Interiors(rs: seq<Route>): (gs: seq<seq<int>>)
    ensures |gs| == |rs| && forall k :: 0 <= k < |rs| ==> gs[k] == Interior(rs[k])
  {
    seq(|rs|, k requires 0 <= k < |rs| => Interior(rs[k]))
  }

  /** Concatenation of groups, in order. */
  function Flatten(gs: seq<seq<int>>): seq<int> {
    if gs == [] then [] else Flatten(gs[..|gs| - 1]) + gs[|gs| - 1]
  }

  /** Every route after the first was opened because its first delivery did not fit in the previous one. */
  predicate Chained(pts: seq<Point>, cap: int, gs: seq<seq<int>>) {
    forall k :: 1 <= k < |gs| ==> gs[k] != [] && LoadSum(pts, gs[k - 1]) + LoadOf(pts, gs[k][0]) > cap
  }

  /** Load of the first `n` deliveries of `g`. */
  function PrefixLoad(pts: seq<Point>, g: seq<int>, n: nat): int
    requires n <= |g|
  {
    LoadSum(pts, g[..n])
  }

  /** Every delivery from position `from` on was added to the group without exceeding `cap`. */
  predicate Packed(pts: seq<Point>, cap: int, g: seq<int>, from: nat) {
    forall n :: from < n <= |g| ==> PrefixLoad(pts, g, n) <= cap
  }

  /**
   * The greedy rule: a delivery joins the current route exactly when the load stays within
   * `cap`; otherwise it opens the next route. Only the first delivery of a later route is
   * exempt (it is placed even when it alone exceeds `cap`).
   */
  predicate Greedy(pts: seq<Point>, cap: int, gs: seq<seq<int>>) {
    Chained(pts, cap, gs) && forall k :: 0 <= k < |gs| ==> Packed(pts, cap, gs[k], if k == 0 then 0 else 1)
  }

  function Groups(s: Scan): seq<seq<int>>
    requires |s.open| >= 1
  {
    Interiors(s.closed) + [s.open[1..]]
  }

  ghost predicate ScanInv(c: seq<int>, pts: seq<Point>, cap: int, s: Scan) {
    && |s.open| >= 1 && s.open[0] == Depot
    && (forall r :: r in s.closed ==> Anchored(r))
    && s.load == LoadSum(pts, s.open[1..])
    && Flatten(Groups(s)) == c
    && Greedy(pts, cap, Groups(s))
  }

  lemma FlattenSnoc(gs: seq<seq<int>>, g: seq<int>)
    ensures Flatten(gs + [g]) == Flatten(gs) + g
  {
    assert (gs + [g])[..|gs|] == gs;
  }

  lemma LoadSumSnoc(pts: seq<Point>, g: seq<int>, id: int)
    ensures LoadSum(pts, g + [id]) == LoadSum(pts, g) + LoadOf(pts, id)
  {
    assert (g + [id])[..|g|] == g;
  }

  /** The decoder's `if` branch: close the open route and start `[0, id]`. */
  lemma CloseKeepsInv(c: seq<int>, pts: seq<Point>, cap: int, s: Scan, id: int)
    requires ScanInv(c, pts, cap, s)
    requires s.load + LoadOf(pts, id) > cap
    ensures ScanInv(c + [id], pts, cap, Step(s, id, LoadOf(pts, id), cap))
  {
    var w := LoadOf(pts, id);
    var s' := Step(s, id, w, cap);
    var gs := Groups(s);
    assert Interior(s.open + [Depot]) == s.open[1..];
    assert Interiors(s'.closed) == Interiors(s.closed) + [s.open[1..]];
    assert s'.open[1..] == [id];
    assert Groups(s') == gs + [[id]];
    FlattenSnoc(gs, [id]);
    LoadSumSnoc(pts, [], id);
    assert [] + [id] == [id];
    var gs' := gs + [[id]];
    assert Chained(pts, cap, gs') by {
      forall k | 1 <= k < |gs'|
        ensures gs'[k] != [] && LoadSum(pts, gs'[k - 1]) + LoadOf(pts, gs'[k][0]) > cap
      {
        if k < |gs| {
          assert gs'[k] == gs[k] && gs'[k - 1] == gs[k - 1];
        } else {
          assert gs'[k - 1] == s.open[1..];
        }
      }
    }
    assert forall k :: 0 <= k < |gs'| ==> Packed(pts, cap, gs'[k], if k == 0 then 0 else 1) by {
      forall k | 0 <= k < |gs'| ensures Packed(pts, cap, gs'[k], if k == 0 then 0 else 1) {
        if k < |gs| {
          assert gs'[k] == gs[k];
        }
      }
    }
  }

  /** The decoder's `else` branch: append `id` to the open route. */
  lemma ExtendKeepsInv(c: seq<int>, pts: seq<Point>, cap: int, s: Scan, id: int)
    requires ScanInv(c, pts, cap, s)
    requires s.load + LoadOf(pts, id) <= cap
    ensures ScanInv(c + [id], pts, cap, Step(s, id, LoadOf(pts, id), cap))
  {
    var w := LoadOf(pts, id);
    var s' := Step(s, id, w, cap);
    var gs := Groups(s);
    var g := s.open[1..];
    var last := |gs| - 1;
    assert s'.open[1..] == g + [id];
    var gs' := Groups(s');
    assert gs' == gs[..last] + [g + [id]];
    assert gs == gs[..last] + [g];
    FlattenSnoc(gs[..last], g);
    FlattenSnoc(gs[..last], g + [id]);
    LoadSumSnoc(pts, g, id);
    ExtendKeepsChained(pts, cap, gs[..last], g, id);
    assert forall k :: 0 <= k < |gs'| ==> Packed(pts, cap, gs'[k], if k == 0 then 0 else 1) by {
      forall k | 0 <= k < |gs'| ensures Packed(pts, cap, gs'[k], if k == 0 then 0 else 1) {
        if k < last {
          assert gs'[k] == gs[k];
        } else {
          ExtendKeepsPacked(pts, cap, g, id, if k == 0 then 0 else 1);
        }
      }
    }
  }

  lemma ExtendKeepsChained(pts: seq<Point>, cap: int, gs: seq<seq<int>>, g: seq<int>, id: int)
    requires Chained(pts, cap, gs + [g])
    ensures Chained(pts, cap, gs + [g + [id]])
  {
    var before, after := gs + [g], gs + [g + [id]];
    forall k | 1 <= k < |after|
      ensures after[k] != [] && LoadSum(pts, after[k - 1]) + LoadOf(pts, after[k][0]) > cap
    {
      assert after[k - 1] == before[k - 1];
      if k < |gs| {
        assert after[k] == before[k];
      } else {
        assert before[k] == g != [];
        assert after[k][0] == g[0];
      }
    }
  }

  lemma ExtendKeepsPacked(pts: seq<Point>, cap: int, g: seq<int>, id: int, from: nat)
    requires Packed(pts, cap, g, from) && LoadSum(pts, g) + LoadOf(pts, id) <= cap
    ensures Packed(pts, cap, g + [id], from)
  {
    LoadSumSnoc(pts, g, id);
    forall n | from < n <= |g| + 1
      ensures PrefixLoad(pts, g + [id], n) <= cap
    {
      if n <= |g| {
        assert (g + [id])[..n] == g[..n];
        assert PrefixLoad(pts, g, n) <= cap;
      } else {
        assert (g + [id])[..n] == g + [id];
      }
    }
  }

  lemma {:induction false} ScanInvariant(c: seq<int>, pts: seq<Point>, cap: int)
    ensures ScanInv(c, pts, cap, ScanOf(c, pts, cap))
    decreases |c|
  {
    if c == [] {
      EmptyScanInvariant(pts, cap);
    } else {
      var init, id := c[..|c| - 1], c[|c| - 1];
      assert c == init + [id];
      ScanInvariant(init, pts, cap);
      var s := ScanOf(init, pts, cap);
      if s.load + LoadOf(pts, id) > cap {
        CloseKeepsInv(init, pts, cap, s, id);
      } else {
        ExtendKeepsInv(init, pts, cap, s, id);
      }
    }
  }

  /** The scan of the empty chromosome: one open route holding only the depot. */
  lemma EmptyScanInvariant(pts: seq<Point>, cap: int)
    ensures ScanInv([], pts, cap, ScanOf([], pts, cap))
  {
    assert ScanOf([], pts, cap) == Scan([], [Depot], 0);
    StartInvariant(pts, cap);
  }

  /** The loop's initial state satisfies the invariant for the empty prefix. */
  lemma StartInvariant(pts: seq<Point>, cap: int)
    ensures ScanInv([], pts, cap, Scan([], [Depot], 0))
  {
    var s := Scan([], [Depot], 0);
    assert s.open[1..] == [];
    assert Groups(s) == [[]] by {
      assert Interiors(s.closed) == [];
    }
    SingleEmptyGroup(pts, cap);
  }

  /** One empty group flattens to nothing and keeps the greedy rule. */
  lemma SingleEmptyGroup(pts: seq<Point>, cap: int)
    ensures Flatten([[]]) == [] && Greedy(pts, cap, [[]])
  {
    var gs: seq<seq<int>> := [[]];
    assert gs[..0] == [];
    assert Packed(pts, cap, [], 0);
  }

  /**
   * The decoder's result is an order-preserving partition of the chromosome into
   * depot-anchored routes, cut by the greedy capacity rule.
   */
  lemma SplitIsGreedyPartition(c: seq<int>, pts: seq<Point>, cap: int)
    requires AllPresent(c, pts)
    ensures var rs := Split(c, pts, cap);
      && |rs| >= 1
      && (forall r :: r in rs ==> Anchored(r))
      && Flatten(Interiors(rs)) == c
      && Greedy(pts, cap, Interiors(rs))
  {
    ScanInvariant(c, pts, cap);
    var s := ScanOf(c, pts, cap);
    var rs := Split(c, pts, cap);
    assert Interior(s.open + [Depot]) == s.open[1..];
    assert Interiors(rs) == Groups(s);
  }

  /** An empty chromosome yields exactly one, empty, route. */
  lemma EmptyChromosome(pts: seq<Point>, cap: int)
    ensures Split([], pts, cap) == [[Depot, Depot]]
  {
    var s := ScanOf([], pts, cap);
    assert s == Scan([], [Depot], 0);
    assert s.open + [Depot] == [Depot, Depot];
  }

  /**
   * Capacity: a route's deliveries weigh at most `cap`, except a route holding a single
   * delivery (which may weigh more on its own).
   */
  lemma RouteCapacity(c: seq<int>, pts: seq<Point>, cap: int)
    requires AllPresent(c, pts) && cap >= 0
    ensures var rs := Split(c, pts, cap);
      forall k :: 0 <= k < |rs| ==> LoadSum(pts, Interior(rs[k])) <= cap || |Interior(rs[k])| == 1
  {
    SplitIsGreedyPartition(c, pts, cap);
    var rs := Split(c, pts, cap);
    var gs := Interiors(rs);
    forall k | 0 <= k < |rs|
      ensures LoadSum(pts, Interior(rs[k])) <= cap || |Interior(rs[k])| == 1
    {
      var g := gs[k];
      assert Packed(pts, cap, g, if k == 0 then 0 else 1);
      if |g| >= 2 {
        assert g[..|g|] == g;
        assert PrefixLoad(pts, g, |g|) <= cap;
      }
    }
  }

  lemma {:induction false} FlattenHead(gs: seq<seq<int>>, c: seq<int>)
    requires Flatten(gs) == c && |gs| >= 1
    ensures |gs[0]| <= |c| && c[..|gs[0]|] == gs[0]
    decreases |gs|
  {
    if |gs| == 1 {
      assert Flatten(gs) == Flatten([]) + gs[0];
    } else {
      var init := gs[..|gs| - 1];
      FlattenHead(init, Flatten(init));
      assert init[0] == gs[0];
    }
  }

  /**
   * The first route is empty exactly when the chromosome is empty or its first delivery
   * alone exceeds the capacity; no later route is ever empty.
   */
  lemma EmptyRoutes(c: seq<int>, pts: seq<Point>, cap: int)
    requires AllPresent(c, pts) && cap >= 0
    ensures var rs := Split(c, pts, cap);
      && (Interior(rs[0]) == [] <==> c == [] || LoadOf(pts, c[0]) > cap)
      && forall k :: 1 <= k < |rs| ==> Interior(rs[k]) != []
  {
    SplitIsGreedyPartition(c, pts, cap);
    var rs := Split(c, pts, cap);
    var gs := Interiors(rs);
    FlattenHead(gs, c);
    if c != [] {
      if gs[0] != [] {
        assert Packed(pts, cap, gs[0], 0);
        assert PrefixLoad(pts, gs[0], 1) <= cap;
        assert gs[0][..1] == [c[0]];
        LoadSumSnoc(pts, [], c[0]);
        assert [] + [c[0]] == [c[0]];
      } else {
        assert |gs| >= 2;
        FlattenHead(gs[1..], Flatten(gs[1..])) by {
          assert |gs[1..]| >= 1;
        }
        FlattenFrontEmpty(gs);
        assert gs[1] != [];
        assert c[0] == gs[1][0];
      }
    }
  }

  lemma {:induction false} FlattenFrontEmpty(gs: seq<seq<int>>)
    requires |gs| >= 1 && gs[0] == []
    ensures Flatten(gs) == Flatten(gs[1..])
    decreases |gs|
  {
    if |gs| == 1 {
      assert Flatten(gs) == Flatten([]) + gs[0];
    } else {
      var init := gs[..|gs| - 1];
      FlattenFrontEmpty(init);
      assert init[1..] == gs[1..][..|gs[1..]| - 1];
    }
  }

  /** Every id a route visits is the depot or a delivery of the chromosome. */
  lemma {:induction false} InFlatten(gs: seq<seq<int>>, k: nat, x: int)
    requires k < |gs| && x in gs[k]
    ensures x in Flatten(gs)
    decreases |gs|
  {
    if k < |gs| - 1 {
      InFlatten(gs[..|gs| - 1], k, x);
    }
  }

  lemma SplitVisitsOnly(c: seq<int>, pts: seq<Point>, cap: int)
    requires AllPresent(c, pts)
    ensures forall r, x :: r in Split(c, pts, cap) && x in r ==> x == Depot || x in c
  {
    SplitIsGreedyPartition(c, pts, cap);
    var rs := Split(c, pts, cap);
    forall r, x | r in rs && x in r ensures x == Depot || x in c {
      var k :| 0 <= k < |rs| && rs[k] == r;
      var i :| 0 <= i < |r| && r[i] == x;
      if 0 < i < |r| - 1 {
        assert x == Interior(r)[i - 1];
        InFlatten(Interiors(rs), k, x);
      }
    }
  }

  /** The decoder's unit test: loads 150 then 60 under capacity 200 need two vehicles. */
  lemma TwoVehiclesExample()
    ensures var pts := [Point(0, Coord(0.0, 0.0), 0, Regular),
                        Point(1, Coord(1.0, 1.0), 150, Regular),
                        Point(2, Coord(2.0, 2.0), 60, Regular)];
      Split([1, 2], pts, 200) == [[0, 1, 0], [0, 2, 0]]
  {
    var pts := [Point(0, Coord(0.0, 0.0), 0, Regular),
                Point(1, Coord(1.0, 1.0), 150, Regular),
                Point(2, Coord(2.0, 2.0), 60, Regular)];
    assert Ids(pts) == [0, 1, 2];
    assert LoadOf(pts, 1) == 150 && LoadOf(pts, 2) == 60;
    assert [1, 2][..1] == [1] && [1][..0] == [];
    var s0 := ScanOf([], pts, 200);
    assert s0 == Scan([], [0], 0);
    var s1 := ScanOf([1], pts, 200);
    assert s1 == Step(s0, 1, 150, 200);
    assert s1 == Scan([], [0, 1], 150);
    var s2 := ScanOf([1, 2], pts, 200);
    assert s2 == Step(s1, 2, 60, 200);
    assert [0, 1] + [0] == [0, 1, 0];
    assert s2.closed == [] + [[0, 1, 0]];
    assert s2 == Scan([[0, 1, 0]], [0, 2], 60);
    assert s2.open + [0] == [0, 2, 0];
    assert Split([1, 2], pts, 200) == [[0, 1, 0]] + [[0, 2, 0]];
  }

  /** A single delivery that fits yields the one route depot, delivery, depot. */
  lemma SingleDelivery(id: int, pts: seq<Point>, cap: int)
    requires id in Ids(pts) && 0 <= LoadOf(pts, id) <= cap
    ensures Split([id], pts, cap) == [[Depot, id, Depot]]
  {
    assert [id][..0] == [];
    var s0 := ScanOf([], pts, cap);
    assert s0 == Scan([], [Depot], 0);
    var s1 := ScanOf([id], pts, cap);
    assert s1 == Step(s0, id, LoadOf(pts, id), cap);
    assert s1 == Scan([], [Depot, id], LoadOf(pts, id));
    assert s1.open + [Depot] == [Depot, id, Depot];
    assert Split([id], pts, cap) == [] + [[Depot, id, Depot]];
  }
}

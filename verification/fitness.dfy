/**
 * `funcao_fitness_vrp`: the cost of a chromosome is the weighted length of the routes the
 * decoder makes of it, each walked from the depot, times a cost per unit of distance.
 */
module FitnessEvaluator {
  import opened Points
  import opened RouteSplitter

  /** The distance between two positions; Euclidean in the source, abstract here. */
  type Distance = (Coord, Coord) -> real

  ghost predicate NonNegative(dist: Distance) {
    forall a, b :: dist(a, b) >= 0.0
  }

  /** A leg counts at half its length when it ends at a critical point. */
  function Leg(dist: Distance, from: Point, to: Point): real {
    var d := dist(from.coord, to.coord);
    if to.priority == Critical then d * 0.5 else d
  }

  /** Weighted length of visiting `ids` in order, starting at `from`. */
  function WalkCost(dist: Distance, pts: seq<Point>, from: Point, ids: seq<int>): real
    requires AllPresent(ids, pts)
    decreases |ids|
  {
    if ids == [] then 0.0
    else
      var p := Lookup(pts, ids[0]);
      Leg(dist, from, p) + WalkCost(dist, pts, p, ids[1..])
  }

  predicate RoutesPresent(routes: seq<Route>, pts: seq<Point>) {
    forall k :: 0 <= k < |routes| ==> AllPresent(routes[k], pts)
  }

  /** Sum over the routes of each one's weighted walk from the depot. */
  function RoutesCost(dist: Distance, pts: seq<Point>, routes: seq<Route>): real
    requires Depot in Ids(pts) && RoutesPresent(routes, pts)
  {
    if routes == [] then 0.0
    else RoutesCost(dist, pts, routes[..|routes| - 1])
         + WalkCost(dist, pts, Lookup(pts, Depot), routes[|routes| - 1])
  }

  lemma SplitRoutesPresent(c: seq<int>, pts: seq<Point>, cap: int)
    requires AllPresent(c, pts) && Depot in Ids(pts)
    ensures RoutesPresent(Split(c, pts, cap), pts)
  {
    SplitVisitsOnly(c, pts, cap);
    var rs := Split(c, pts, cap);
    forall k | 0 <= k < |rs| ensures AllPresent(rs[k], pts) {
      assert rs[k] in rs;
    }
  }

  /** The cost of a chromosome (the specification of `funcao_fitness_vrp`). */
  function Fitness(c: seq<int>, pts: seq<Point>, cap: int, costPerKm: real, dist: Distance): real
    requires AllPresent(c, pts) && Depot in Ids(pts)
  {
    SplitRoutesPresent(c, pts, cap);
    RoutesCost(dist, pts, Split(c, pts, cap)) * costPerKm
  }

  /** The inner loop of the fitness function: the weighted walk of one route from the depot. */
  method WalkRoute(route: Route, pts: seq<Point>, depot: Point, dist: Distance) returns (legs: real)
    requires AllPresent(route, pts)
    ensures legs == WalkCost(dist, pts, depot, route)
  {
    legs := 0.0;
    var previous := depot;
    for k := 0 to |route|
      invariant legs + WalkCost(dist, pts, previous, route[k..]) == WalkCost(dist, pts, depot, route)
    {
      var current := Lookup(pts, route[k]);
      var leg := dist(previous.coord, current.coord);
      if current.priority == Critical {
        leg := leg * 0.5;
      }
      assert route[k..][1..] == route[k + 1..];
      legs := legs + leg;
      previous := current;
    }
    assert route[|route|..] == [];
  }

  /** The outer loop of the fitness function: `custo_total` over all routes. */
  method SumRoutes(routes: seq<Route>, pts: seq<Point>, dist: Distance) returns (total: real)
    requires Depot in Ids(pts) && RoutesPresent(routes, pts)
    ensures total == RoutesCost(dist, pts, routes)
  {
    var depot := Lookup(pts, Depot);
    total := 0.0;
    for r := 0 to |routes|
      invariant total == RoutesCost(dist, pts, routes[..r])
    {
      var legs := WalkRoute(routes[r], pts, depot, dist);
      assert routes[..r + 1][..r] == routes[..r];
      total := total + legs;
    }
    assert routes[..|routes|] == routes;
  }

  /** The fitness function as the source computes it, with two nested accumulating loops. */
  method EvaluateFitness(c: seq<int>, pts: seq<Point>, cap: int, costPerKm: real, dist: Distance)
    returns (cost: real)
    requires AllPresent(c, pts) && Depot in Ids(pts)
    ensures cost == Fitness(c, pts, cap, costPerKm, dist)
  {
    var routes := SplitRoutes(c, pts, cap);
    SplitRoutesPresent(c, pts, cap);
    var total := SumRoutes(routes, pts, dist);
    cost := total * costPerKm;
  }

  // ---------------------------------------------------------------------------
  // What the fitness promises

  /** Length of the same walk with every leg counted in full. */
  function PlainWalk(dist: Distance, pts: seq<Point>, from: Point, ids: seq<int>): real
    requires AllPresent(ids, pts)
    decreases |ids|
  {
    if ids == [] then 0.0
    else
      var p := Lookup(pts, ids[0]);
      dist(from.coord, p.coord) + PlainWalk(dist, pts, p, ids[1..])
  }

  function PlainRoutes(dist: Distance, pts: seq<Point>, routes: seq<Route>): real
    requires Depot in Ids(pts) && RoutesPresent(routes, pts)
  {
    if routes == [] then 0.0
    else PlainRoutes(dist, pts, routes[..|routes| - 1])
         + PlainWalk(dist, pts, Lookup(pts, Depot), routes[|routes| - 1])
  }

  /** The cost of a chromosome with every leg counted in full. */
  function PlainFitness(c: seq<int>, pts: seq<Point>, cap: int, costPerKm: real, dist: Distance): real
    requires AllPresent(c, pts) && Depot in Ids(pts)
  {
    SplitRoutesPresent(c, pts, cap);
    PlainRoutes(dist, pts, Split(c, pts, cap)) * costPerKm
  }

  /** With nonnegative distances, discounting lies between half and all of the plain length. */
  lemma {:induction false} WalkBounds(dist: Distance, pts: seq<Point>, from: Point, ids: seq<int>)
    requires NonNegative(dist) && AllPresent(ids, pts)
    ensures 0.5 * PlainWalk(dist, pts, from, ids) <= WalkCost(dist, pts, from, ids) <= PlainWalk(dist, pts, from, ids)
    decreases |ids|
  {
    if ids != [] {
      var p := Lookup(pts, ids[0]);
      assert dist(from.coord, p.coord) >= 0.0;
      WalkBounds(dist, pts, p, ids[1..]);
    }
  }

  lemma {:induction false} RoutesBounds(dist: Distance, pts: seq<Point>, routes: seq<Route>)
    requires NonNegative(dist) && Depot in Ids(pts) && RoutesPresent(routes, pts)
    ensures 0.5 * PlainRoutes(dist, pts, routes) <= RoutesCost(dist, pts, routes) <= PlainRoutes(dist, pts, routes)
    decreases |routes|
  {
    if routes != [] {
      RoutesBounds(dist, pts, routes[..|routes| - 1]);
      WalkBounds(dist, pts, Lookup(pts, Depot), routes[|routes| - 1]);
    }
  }

  /**
   * The cost is never negative, and it lies between half and all of the plain (undiscounted)
   * length of the decoded routes times the cost per unit.
   */
  lemma FitnessBounds(c: seq<int>, pts: seq<Point>, cap: int, costPerKm: real, dist: Distance)
    requires AllPresent(c, pts) && Depot in Ids(pts)
    requires NonNegative(dist) && costPerKm >= 0.0
    ensures var plain := PlainFitness(c, pts, cap, costPerKm, dist);
      0.0 <= 0.5 * plain <= Fitness(c, pts, cap, costPerKm, dist) <= plain
  {
    SplitRoutesPresent(c, pts, cap);
    var rs := Split(c, pts, cap);
    RoutesBounds(dist, pts, rs);
    var w, p, k := RoutesCost(dist, pts, rs), PlainRoutes(dist, pts, rs), costPerKm;
    assert Fitness(c, pts, cap, k, dist) == w * k;
    assert PlainFitness(c, pts, cap, k, dist) == p * k;
    ScaleMonotone(0.0, 0.5 * p, k);
    ScaleMonotone(0.5 * p, w, k);
    ScaleMonotone(w, p, k);
    ScaleHalf(p, k);
  }

  lemma ScaleMonotone(a: real, b: real, factor: real)
    requires a <= b && factor >= 0.0
    ensures a * factor <= b * factor
  {
  }

  lemma ScaleHalf(a: real, factor: real)
    ensures (0.5 * a) * factor == 0.5 * (a * factor)
  {
  }

  /** When no point is critical, every leg counts in full. */
  lemma {:induction false} NoCriticalWalk(dist: Distance, pts: seq<Point>, from: Point, ids: seq<int>)
    requires AllPresent(ids, pts)
    requires forall k :: 0 <= k < |pts| ==> pts[k].priority == Regular
    ensures WalkCost(dist, pts, from, ids) == PlainWalk(dist, pts, from, ids)
    decreases |ids|
  {
    if ids != [] {
      var p := Lookup(pts, ids[0]);
      NoCriticalWalk(dist, pts, p, ids[1..]);
    }
  }

  lemma {:induction false} NoCriticalRoutes(dist: Distance, pts: seq<Point>, routes: seq<Route>)
    requires Depot in Ids(pts) && RoutesPresent(routes, pts)
    requires forall k :: 0 <= k < |pts| ==> pts[k].priority == Regular
    ensures RoutesCost(dist, pts, routes) == PlainRoutes(dist, pts, routes)
    decreases |routes|
  {
    if routes != [] {
      NoCriticalRoutes(dist, pts, routes[..|routes| - 1]);
      NoCriticalWalk(dist, pts, Lookup(pts, Depot), routes[|routes| - 1]);
    }
  }

  /**
   * The walk starts at the depot although every route also starts with id 0, so an empty
   * chromosome costs two depot-to-depot legs.
   */
  lemma EmptyChromosomeCost(pts: seq<Point>, cap: int, costPerKm: real, dist: Distance)
    requires Depot in Ids(pts)
    ensures var d := Lookup(pts, Depot);
      Fitness([], pts, cap, costPerKm, dist) == (Leg(dist, d, d) + Leg(dist, d, d)) * costPerKm
  {
    EmptyChromosome(pts, cap);
    var d := Lookup(pts, Depot);
    var rs := Split([], pts, cap);
    assert rs == [[Depot, Depot]];
    assert rs[..0] == [];
    assert [Depot, Depot][1..] == [Depot] && [Depot][1..] == [];
    assert WalkCost(dist, pts, d, []) == 0.0;
    assert WalkCost(dist, pts, d, [Depot]) == Leg(dist, d, d) + WalkCost(dist, pts, d, []);
    assert WalkCost(dist, pts, d, [Depot, Depot]) == Leg(dist, d, d) + WalkCost(dist, pts, d, [Depot]);
    assert RoutesCost(dist, pts, rs) == RoutesCost(dist, pts, []) + WalkCost(dist, pts, d, [Depot, Depot]);
  }
}

/** Delivery points and the two ways the solver looks them up by id. */
module Points {
  import opened Sequences

  /** Id 0 is reserved for the depot. */
  const Depot: int := 0

  datatype Priority = Regular | Critical

  /** A planar position; the distance between two of them is left abstract. */
  datatype Coord = Coord(x: real, y: real)

  /**
   * One entry of `pontos`. A point without a `carga` key has load 0 and one whose
   * `prioridade` is anything but "crítica" (or absent) is Regular.
   */
  datatype Point = Point(id: int, coord: Coord, load: int, priority: Priority)

  /** `[p["id"] for p in pontos]`. */
  function Ids(pts: seq<Point>): (r: seq<int>)
    ensures |r| == |pts|
  {
    if pts == [] then [] else [pts[0].id] + Ids(pts[1..])
  }

  /** The k-th id is the id of the k-th point. */
  lemma {:induction false} IdsAt(pts: seq<Point>)
    ensures forall k :: 0 <= k < |pts| ==> Ids(pts)[k] == pts[k].id
  {
    if pts != [] {
      IdsAt(pts[1..]);
      assert forall k :: 1 <= k < |pts| ==> Ids(pts)[k] == Ids(pts[1..])[k - 1];
    }
  }

  /** Every point has its own id, and no id is negative. */
  predicate WellFormedIds(pts: seq<Point>) {
    Distinct(Ids(pts)) && forall x :: x in Ids(pts) ==> x >= 0
  }

  /** Every id of `ids` names some point. */
  predicate AllPresent(ids: seq<int>, pts: seq<Point>) {
    forall x :: x in ids ==> x in Ids(pts)
  }

  /** Position of the first point carrying `id` from position `from` on. */
  function FirstWith(pts: seq<Point>, id: int, from: nat): (k: nat)
    requires exists j :: from <= j < |pts| && pts[j].id == id
    ensures from <= k < |pts| && pts[k].id == id
    ensures forall m :: from <= m < k ==> pts[m].id != id
    decreases |pts| - from
  {
    if pts[from].id == id then from else FirstWith(pts, id, from + 1)
  }

  /**
   * `next(p for p in pontos if p["id"] == id)`: the FIRST point carrying `id`.
   * Python raises StopIteration when there is none, hence the precondition.
   */
  function Lookup(pts: seq<Point>, id: int): (p: Point)
    requires id in Ids(pts)
    ensures p.id == id
    ensures exists k :: 0 <= k < |pts| && pts[k] == p && forall m :: 0 <= m < k ==> pts[m].id != id
  {
    IdsAt(pts);
    var k := FirstWith(pts, id, 0);
    pts[k]
  }

  /** `{p["id"]: p for p in pontos}`: a later point overrides an earlier one with the same id. */
  function IndexById(pts: seq<Point>): (m: map<int, Point>)
    ensures forall id :: id in m <==> id in Ids(pts)
    ensures forall id :: id in m ==> m[id].id == id
    ensures forall id :: id in m ==> exists k :: 0 <= k < |pts| && pts[k] == m[id] && forall n :: k < n < |pts| ==> pts[n].id != id
  {
    if pts == [] then
      map[]
    else
      var init, last := pts[..|pts| - 1], pts[|pts| - 1];
      var m := IndexById(init);
      LastWins(pts, m);
      m[last.id := last]
  }

  /** `m` maps each id of `pts` to its LAST point carrying that id. */
  ghost predicate IndexOf(m: map<int, Point>, pts: seq<Point>) {
    && (forall id :: id in m <==> id in Ids(pts))
    && (forall id :: id in m ==> m[id].id == id)
    && (forall id :: id in m ==> exists k :: 0 <= k < |pts| && pts[k] == m[id] && forall n :: k < n < |pts| ==> pts[n].id != id)
  }

  /** Adding the last point of `pts` to the index of the others indexes all of `pts`. */
  lemma LastWins(pts: seq<Point>, m: map<int, Point>)
    requires pts != [] && IndexOf(m, pts[..|pts| - 1])
    ensures IndexOf(m[pts[|pts| - 1].id := pts[|pts| - 1]], pts)
  {
    var init, last := pts[..|pts| - 1], pts[|pts| - 1];
    var m' := m[last.id := last];
    assert pts == init + [last];
    IdsAt(pts);
    IdsAt(init);
    assert Ids(pts) == Ids(init) + [last.id];
    forall id | id in m' && id != last.id
      ensures exists k :: 0 <= k < |pts| && pts[k] == m'[id] && forall n :: k < n < |pts| ==> pts[n].id != id
    {
      var k :| 0 <= k < |init| && init[k] == m[id] && forall n :: k < n < |init| ==> init[n].id != id;
      assert pts[k] == m'[id];
    }
    assert pts[|pts| - 1] == m'[last.id];
  }

  /** With unique ids the dictionary used by 2-opt and the list scan used elsewhere agree. */
  lemma IndexAgreesWithLookup(pts: seq<Point>, id: int)
    requires Distinct(Ids(pts)) && id in Ids(pts)
    ensures id in IndexById(pts) && IndexById(pts)[id] == Lookup(pts, id)
  {
    var m := IndexById(pts);
    var p := Lookup(pts, id);
    var k :| 0 <= k < |pts| && pts[k] == m[id];
    var k' :| 0 <= k' < |pts| && pts[k'] == p;
    var ids := Ids(pts);
    IdsAt(pts);
    assert ids[k] == id && ids[k'] == id;
    if k != k' {
      assert false;
    }
  }
}

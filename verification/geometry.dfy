/** The grid planner of `backend/grid_calculator.py`: an N×N lattice of cell centres laid over
    the search circle, of which only the centres within the search radius are kept.
    Great-circle distance and the cosine are left uninterpreted (`Geo`); all other arithmetic
    is exact real arithmetic in place of IEEE doubles. */
module Geometry {
  import opened Wrappers

  /** The two transcendental ingredients of the planner, left abstract:
      `distance(lat1, lng1, lat2, lng2)` is the Haversine distance in km, and
      `cosDeg(x)` is `math.cos(math.radians(x))`. */
  datatype Geo = Geo(distance: (real, real, real, real) -> real, cosDeg: real -> real)

  /** Kilometres per degree of latitude used to turn the radius into a degree span. */
  const LatDegreeKm: real := 111.0

  /** One planned cell: its centre and the search radius used for it. */
  datatype GridPoint = GridPoint(lat: real, lng: real, radiusKm: real)

  /** The only way planning fails: a division by zero, raised to the caller. */
  datatype PlanError = ZeroDivisionError

  /** The quantities the planner derives before laying out the lattice. */
  datatype Layout = Layout(
    centerLat: real, centerLng: real, radiusKm: real, gridSize: int,
    cellRadius: real, radiusLat: real, radiusLng: real, stepLat: real, stepLng: real)

  /** Cell radius, degree spans and lattice steps. Dividing by `grid_size` or by the length of a
      degree of longitude raises when either is zero. */
  function PlanLayout(geo: Geo, centerLat: real, centerLng: real, radiusKm: real, gridSize: int)
    : (r: Result<Layout, PlanError>)
    ensures r.Err? <==> gridSize == 0 || geo.cosDeg(centerLat) == 0.0
    ensures r.Ok? ==>
      && r.value.centerLat == centerLat && r.value.centerLng == centerLng
      && r.value.radiusKm == radiusKm && r.value.gridSize == gridSize
    ensures r.Ok? ==>
      && r.value.cellRadius * (gridSize as real) == radiusKm
      && r.value.radiusLat * LatDegreeKm == radiusKm
      && r.value.radiusLng * (LatDegreeKm * geo.cosDeg(centerLat)) == radiusKm
      && r.value.stepLat * (gridSize as real) == 2.0 * r.value.radiusLat
      && r.value.stepLng * (gridSize as real) == 2.0 * r.value.radiusLng
  {
    if gridSize == 0 then Err(ZeroDivisionError)
    else
      var n := gridSize as real;
      var lngDegreeKm := LatDegreeKm * geo.cosDeg(centerLat);
      if lngDegreeKm == 0.0 then Err(ZeroDivisionError)
      else
        var radiusLat := radiusKm / LatDegreeKm;
        var radiusLng := radiusKm / lngDegreeKm;
        Ok(Layout(centerLat, centerLng, radiusKm, gridSize, radiusKm / n,
                  radiusLat, radiusLng, (2.0 * radiusLat) / n, (2.0 * radiusLng) / n))
  }

  /** Number of rows (and columns) visited: `range(grid_size)` is empty for a negative size. */
  function Side(l: Layout): nat {
    if l.gridSize > 0 then l.gridSize else 0
  }

  /** The centre of lattice cell (i, j): row i runs in latitude, column j in longitude. */
  function Candidate(l: Layout, i: int, j: int): GridPoint {
    GridPoint(
      l.centerLat - l.radiusLat + (i as real + 0.5) * l.stepLat,
      l.centerLng - l.radiusLng + (j as real + 0.5) * l.stepLng,
      l.cellRadius)
  }

  function Row(l: Layout, i: int): seq<GridPoint> {
    seq(Side(l), j requires 0 <= j < Side(l) => Candidate(l, i, j))
  }

  /** The first `count` rows of the lattice in row-major order. */
  function Rows(l: Layout, count: nat): seq<GridPoint> {
    if count == 0 then [] else Rows(l, count - 1) + Row(l, count - 1)
  }

  /** Every candidate centre, row-major: `i` is the outer loop, `j` the inner one. */
  function Lattice(l: Layout): seq<GridPoint> {
    Rows(l, Side(l))
  }

  predicate InCircle(geo: Geo, l: Layout, g: GridPoint) {
    geo.distance(l.centerLat, l.centerLng, g.lat, g.lng) <= l.radiusKm
  }

  /** The candidates whose centre lies within the search radius, in their original order. */
  function KeepInCircle(geo: Geo, l: Layout, s: seq<GridPoint>): seq<GridPoint> {
    if s == [] then []
    else
      var last := s[|s| - 1];
      KeepInCircle(geo, l, s[..|s| - 1]) + (if InCircle(geo, l, last) then [last] else [])
  }

  /** Reference definition of `calculate_grid_points`. */
  function GridPlan(geo: Geo, centerLat: real, centerLng: real, radiusKm: real, gridSize: int)
    : Result<seq<GridPoint>, PlanError>
  {
    match PlanLayout(geo, centerLat, centerLng, radiusKm, gridSize)
    case Err(e) => Err(e)
    case Ok(l) => Ok(KeepInCircle(geo, l, Lattice(l)))
  }

  /** `calculate_grid_points`, written as the nested loops of the source. */
  method CalculateGridPoints(geo: Geo, centerLat: real, centerLng: real, radiusKm: real, gridSize: int)
    returns (r: Result<seq<GridPoint>, PlanError>)
    ensures r == GridPlan(geo, centerLat, centerLng, radiusKm, gridSize)
    ensures r.Err? <==> gridSize == 0 || geo.cosDeg(centerLat) == 0.0
    ensures r.Ok? && gridSize < 0 ==> r.value == []
    ensures r.Ok? && gridSize > 0 ==> |r.value| <= gridSize * gridSize
    ensures r.Ok? ==> forall g :: g in r.value ==>
      && geo.distance(centerLat, centerLng, g.lat, g.lng) <= radiusKm
      && g.radiusKm == radiusKm / (gridSize as real)
  {
    var layout := PlanLayout(geo, centerLat, centerLng, radiusKm, gridSize);
    if layout.Err? {
      return Err(layout.error);
    }
    var l := layout.value;
    var points: seq<GridPoint> := [];
    for i := 0 to Side(l)
      invariant points == KeepInCircle(geo, l, Rows(l, i))
    {
      points := ScanRow(geo, l, i, points);
    }
    r := Ok(points);
    GridPlanProperties(geo, centerLat, centerLng, radiusKm, gridSize);
  }

  /** The inner loop of the planner: row `i`, columns `0 .. N-1`. */
  method ScanRow(geo: Geo, l: Layout, i: nat, points: seq<GridPoint>) returns (out: seq<GridPoint>)
    requires points == KeepInCircle(geo, l, Rows(l, i))
    ensures out == KeepInCircle(geo, l, Rows(l, i + 1))
  {
    out := points;
    var row := Row(l, i);
    assert Rows(l, i) + row[..0] == Rows(l, i);
    for j := 0 to Side(l)
      invariant out == KeepInCircle(geo, l, Rows(l, i) + row[..j])
    {
      var g := Candidate(l, i, j);
      assert g == row[j];
      assert (Rows(l, i) + row[..j + 1])[..|Rows(l, i) + row[..j + 1]| - 1] == Rows(l, i) + row[..j];
      if geo.distance(l.centerLat, l.centerLng, g.lat, g.lng) <= l.radiusKm {
        out := out + [g];
      }
    }
    assert row[..Side(l)] == row;
  }

  /** What the reference definition promises: at most N² cells, all within the radius and all
      carrying the cell radius `radius_km / grid_size`; none for a negative grid size. */
  lemma GridPlanProperties(geo: Geo, centerLat: real, centerLng: real, radiusKm: real, gridSize: int)
    ensures var r := GridPlan(geo, centerLat, centerLng, radiusKm, gridSize);
      && (r.Err? <==> gridSize == 0 || geo.cosDeg(centerLat) == 0.0)
      && (r.Ok? && gridSize < 0 ==> r.value == [])
      && (r.Ok? && gridSize > 0 ==> |r.value| <= gridSize * gridSize)
      && (r.Ok? ==> forall g :: g in r.value ==>
            && geo.distance(centerLat, centerLng, g.lat, g.lng) <= radiusKm
            && g.radiusKm == radiusKm / (gridSize as real))
  {
    var layout := PlanLayout(geo, centerLat, centerLng, radiusKm, gridSize);
    if layout.Ok? {
      var l := layout.value;
      var points := KeepInCircle(geo, l, Lattice(l));
      assert GridPlan(geo, centerLat, centerLng, radiusKm, gridSize) == Ok(points);
      PlanMembers(geo, l);
      PlanCount(geo, l);
    }
  }

  /** Every kept cell is within the radius and carries the cell radius. */
  lemma PlanMembers(geo: Geo, l: Layout)
    ensures forall g :: g in KeepInCircle(geo, l, Lattice(l)) ==> InCircle(geo, l, g) && g.radiusKm == l.cellRadius
  {
    KeepInCircleSound(geo, l, Lattice(l));
    forall g | g in Lattice(l) ensures g.radiusKm == l.cellRadius {
      LatticeCellRadius(l, Side(l), g);
    }
  }

  /** At most N² cells are kept, and none when the grid size is negative. */
  lemma PlanCount(geo: Geo, l: Layout)
    ensures |KeepInCircle(geo, l, Lattice(l))| <= Side(l) * Side(l)
    ensures l.gridSize < 0 ==> KeepInCircle(geo, l, Lattice(l)) == []
  {
    KeepInCircleSound(geo, l, Lattice(l));
    LatticeSize(l, Side(l));
  }

  lemma {:induction false} LatticeCellRadius(l: Layout, count: nat, g: GridPoint)
    requires g in Rows(l, count)
    ensures g.radiusKm == l.cellRadius
  {
    if g !in Row(l, count - 1) {
      LatticeCellRadius(l, count - 1, g);
    }
  }

  lemma {:induction false} RowsSize(l: Layout, count: nat)
    ensures |Rows(l, count)| == count * Side(l)
  {
    if count > 0 {
      RowsSize(l, count - 1);
      assert count * Side(l) == (count - 1) * Side(l) + Side(l);
    }
  }

  lemma LatticeSize(l: Layout, n: nat)
    requires n == Side(l)
    ensures |Lattice(l)| == n * n
  {
    RowsSize(l, n);
  }

  /** The filter keeps exactly the in-circle candidates: nothing outside, nothing inside dropped. */
  lemma {:induction false} KeepInCircleSound(geo: Geo, l: Layout, s: seq<GridPoint>)
    ensures |KeepInCircle(geo, l, s)| <= |s|
    ensures forall g :: g in KeepInCircle(geo, l, s) <==> g in s && InCircle(geo, l, g)
  {
    if s != [] {
      KeepInCircleSound(geo, l, s[..|s| - 1]);
      assert s == s[..|s| - 1] + [s[|s| - 1]];
    }
  }

  /** Candidate (i, j) sits at position `i·N + j` of the lattice: rows by latitude are the outer
      loop, columns by longitude the inner one. */
  lemma LatticeRowMajor(l: Layout, i: nat, j: nat)
    requires i < Side(l) && j < Side(l)
    ensures |Lattice(l)| == Side(l) * Side(l)
    ensures i * Side(l) + j < |Lattice(l)|
    ensures Lattice(l)[i * Side(l) + j] == Candidate(l, i, j)
  {
    LatticeSize(l, Side(l));
    RowsIndex(l, Side(l), i, j);
  }

  lemma {:induction false} RowsIndex(l: Layout, count: nat, i: nat, j: nat)
    requires i < count && j < Side(l)
    ensures |Rows(l, count)| == count * Side(l)
    ensures i * Side(l) + j < |Rows(l, count)|
    ensures Rows(l, count)[i * Side(l) + j] == Candidate(l, i, j)
  {
    var n := Side(l);
    RowsSize(l, count - 1);
    RowsSize(l, count);
    assert count * n == (count - 1) * n + n;
    if i < count - 1 {
      RowsIndex(l, count - 1, i, j);
    } else {
      assert i * n == (count - 1) * n;
      assert Rows(l, count)[i * n + j] == Row(l, count - 1)[j];
    }
  }

  /** Every candidate of the lattice that lies within the radius is planned. */
  lemma GridPlanComplete(geo: Geo, centerLat: real, centerLng: real, radiusKm: real, gridSize: int,
                         i: nat, j: nat)
    requires PlanLayout(geo, centerLat, centerLng, radiusKm, gridSize).Ok?
    requires i < gridSize && j < gridSize
    ensures var l := PlanLayout(geo, centerLat, centerLng, radiusKm, gridSize).value;
      InCircle(geo, l, Candidate(l, i, j)) ==>
        Candidate(l, i, j) in GridPlan(geo, centerLat, centerLng, radiusKm, gridSize).value
  {
    var l := PlanLayout(geo, centerLat, centerLng, radiusKm, gridSize).value;
    var c := Candidate(l, i, j);
    assert GridPlan(geo, centerLat, centerLng, radiusKm, gridSize).value == KeepInCircle(geo, l, Lattice(l));
    LatticeRowMajor(l, i, j);
    var k := i * Side(l) + j;
    assert Lattice(l)[k] == c;
    KeepInCircleSound(geo, l, Lattice(l));
  }

  /** The filter is an order-preserving selection: `idx` lists, in increasing order, the positions
      of `s` that were kept, and every in-circle position is among them. */
  lemma {:induction false} KeepInCircleIndices(geo: Geo, l: Layout, s: seq<GridPoint>)
    returns (idx: seq<nat>)
    ensures |idx| == |KeepInCircle(geo, l, s)|
    ensures forall k :: 0 <= k < |idx| ==> idx[k] < |s| && KeepInCircle(geo, l, s)[k] == s[idx[k]]
    ensures forall k, k' :: 0 <= k < k' < |idx| ==> idx[k] < idx[k']
    ensures forall m :: 0 <= m < |s| && InCircle(geo, l, s[m]) ==> m in idx
  {
    if s == [] {
      idx := [];
    } else {
      var init := s[..|s| - 1];
      var prev := KeepInCircleIndices(geo, l, init);
      if InCircle(geo, l, s[|s| - 1]) {
        idx := prev + [|s| - 1];
      } else {
        idx := prev;
      }
    }
  }

  /** For a positive radius and at least one cell per side, each candidate lies strictly inside
      the box `centre ± span` (latitude span `radius/111`, longitude span scaled by the cosine). */
  lemma CandidateInsideBox(geo: Geo, centerLat: real, centerLng: real, radiusKm: real, gridSize: int,
                           i: nat, j: nat)
    requires radiusKm > 0.0 && gridSize >= 1 && i < gridSize && j < gridSize
    requires geo.cosDeg(centerLat) != 0.0
    ensures PlanLayout(geo, centerLat, centerLng, radiusKm, gridSize).Ok?
    ensures var l := PlanLayout(geo, centerLat, centerLng, radiusKm, gridSize).value;
      var g := Candidate(l, i, j);
      var spanLat := radiusKm / LatDegreeKm;
      var spanLng := radiusKm / (LatDegreeKm * geo.cosDeg(centerLat));
      && centerLat - spanLat < g.lat < centerLat + spanLat
      && (spanLng > 0.0 ==> centerLng - spanLng < g.lng < centerLng + spanLng)
      && (spanLng < 0.0 ==> centerLng + spanLng < g.lng < centerLng - spanLng)
  {
    var l := PlanLayout(geo, centerLat, centerLng, radiusKm, gridSize).value;
    var n := gridSize as real;
    OffsetInside(l.radiusLat, gridSize, i);
    if l.radiusLng > 0.0 {
      OffsetInside(l.radiusLng, gridSize, j);
    } else {
      assert l.radiusLng != 0.0;
      OffsetInside(-l.radiusLng, gridSize, j);
      assert (2.0 * l.radiusLng) / n == -((2.0 * -l.radiusLng) / n);
    }
  }

  /** The N cells tile the box exactly: the first centre sits half a step above the lower edge
      `centre - span`, the last half a step below the upper edge `centre + span`, neighbours are
      one step `2·span/N` apart, and every cell has radius `radius/N`. */
  lemma LayoutTiles(geo: Geo, centerLat: real, centerLng: real, radiusKm: real, gridSize: int,
                    i: nat, j: nat)
    requires gridSize >= 1 && i < gridSize && j < gridSize
    requires geo.cosDeg(centerLat) != 0.0
    ensures PlanLayout(geo, centerLat, centerLng, radiusKm, gridSize).Ok?
    ensures var l := PlanLayout(geo, centerLat, centerLng, radiusKm, gridSize).value;
      var n := gridSize as real;
      var spanLat := radiusKm / LatDegreeKm;
      var spanLng := radiusKm / (LatDegreeKm * geo.cosDeg(centerLat));
      && Candidate(l, 0, 0).lat - l.stepLat / 2.0 == centerLat - spanLat
      && Candidate(l, 0, 0).lng - l.stepLng / 2.0 == centerLng - spanLng
      && Candidate(l, gridSize - 1, gridSize - 1).lat + l.stepLat / 2.0 == centerLat + spanLat
      && Candidate(l, gridSize - 1, gridSize - 1).lng + l.stepLng / 2.0 == centerLng + spanLng
      && Candidate(l, i + 1, j).lat - Candidate(l, i, j).lat == (2.0 * spanLat) / n
      && Candidate(l, i, j + 1).lng - Candidate(l, i, j).lng == (2.0 * spanLng) / n
      && Candidate(l, i, j).radiusKm == radiusKm / n
  {
    var l := PlanLayout(geo, centerLat, centerLng, radiusKm, gridSize).value;
    var n := gridSize as real;
    assert l.stepLat * n == 2.0 * l.radiusLat;
    assert l.stepLng * n == 2.0 * l.radiusLng;
    assert (n - 1.0 + 0.5) * l.stepLat + l.stepLat / 2.0 == 2.0 * l.radiusLat;
    assert (n - 1.0 + 0.5) * l.stepLng + l.stepLng / 2.0 == 2.0 * l.radiusLng;
  }

  /** `-r + (i + 0.5)·(2r/n)` lies strictly between `-r` and `r` for `0 <= i < n`. */
  lemma OffsetInside(r: real, n: int, i: nat)
    requires r > 0.0 && 0 <= i < n
    ensures -r < -r + (i as real + 0.5) * ((2.0 * r) / (n as real)) < r
  {
    var step := (2.0 * r) / (n as real);
    var t := i as real + 0.5;
    assert step * (n as real) == 2.0 * r;
    assert step > 0.0;
    assert 0.0 < t < n as real;
    MulStrictlyMonotone(t, n as real, step);
    assert t * step < 2.0 * r;
    assert 0.0 < t * step;
  }

  lemma MulStrictlyMonotone(a: real, b: real, c: real)
    requires a < b && c > 0.0
    ensures a * c < b * c
  {
  }

  /** Python's `round(x, 2)` on exact reals: the nearest multiple of 0.01, ties to the even one. */
  function Round2(x: real): real {
    var y := x * 100.0;
    var k := y.Floor;
    var f := y - k as real;
    var m := if f < 0.5 then k else if f > 0.5 then k + 1 else if k % 2 == 0 then k else k + 1;
    m as real / 100.0
  }

  /** The rounded value is a multiple of 0.01 at most half a step away. */
  lemma Round2Nearest(x: real)
    ensures -0.005 <= Round2(x) - x <= 0.005
    ensures (Round2(x) * 100.0).Floor as real == Round2(x) * 100.0
  {
    var y := x * 100.0;
    var k := y.Floor;
    var f := y - k as real;
    var m := if f < 0.5 then k else if f > 0.5 then k + 1 else if k % 2 == 0 then k else k + 1;
    assert -0.5 <= m as real - y <= 0.5;
    assert Round2(x) == m as real / 100.0;
    assert Round2(x) * 100.0 == m as real;
  }
}

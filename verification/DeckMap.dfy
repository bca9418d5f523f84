/** Placing the theme dots of the district map inside their districts. */
module DeckMap {
  import opened Wrappers
  import opened Orders
  import opened Reals
  import opened Rings
  import opened Clearance

  /** A polygon: its exterior ring and its holes (RFC 7946, section 3.1.6). */
  datatype Polygon = Polygon(outer: Ring, holes: seq<Ring>)

  predicate InPolygon(p: Point, g: Polygon) {
    Encloses(g.outer, p) && !exists hole :: hole in g.holes && Encloses(hole, p)
  }

  /** Inside some exterior and outside its holes. */
  predicate Inside(p: Point, polygons: seq<Polygon>) {
    exists g :: g in polygons && InPolygon(p, g)
  }

  /** A point of a district lies within the box of one of its exteriors: left and bottom sides only. */
  lemma {:induction false} InsideTheBox(p: Point, polygons: seq<Polygon>) returns (g: Polygon)
    requires Inside(p, polygons)
    ensures g in polygons
    ensures exists v :: v in g.outer && v.x <= p.x
    ensures exists v :: v in g.outer && p.x < v.x
    ensures exists v :: v in g.outer && v.y <= p.y
    ensures exists v :: v in g.outer && p.y < v.y
  {
    g :| g in polygons && InPolygon(p, g);
    if !exists v :: v in g.outer && v.x <= p.x {
      assert forall v :: v in g.outer ==> p.x < v.x;
      OutsideTheBox(p, g.outer);
    }
    if !exists v :: v in g.outer && p.x < v.x {
      assert forall v :: v in g.outer ==> v.x <= p.x;
      OutsideTheBox(p, g.outer);
    }
    if !exists v :: v in g.outer && v.y <= p.y {
      assert forall v :: v in g.outer ==> p.y < v.y;
      OutsideTheBox(p, g.outer);
    }
    if !exists v :: v in g.outer && p.y < v.y {
      assert forall v :: v in g.outer ==> v.y <= p.y;
      OutsideTheBox(p, g.outer);
    }
  }

  // ---------------------------------------------------------------------------------------------
  // The interior anchor

  function Least(s: seq<real>): (m: real)
    requires s != []
    ensures m in s && forall x :: x in s ==> m <= x
  {
    RealOrders();
    FirstLeast(s, AtMost)
  }

  function Greatest(s: seq<real>): (m: real)
    requires s != []
    ensures m in s && forall x :: x in s ==> x <= m
  {
    RealOrders();
    FirstLeast(s, AtLeast)
  }

  function Xs(ring: Ring): (r: seq<real>)
    ensures |r| == |ring|
  {
    seq(|ring|, i requires 0 <= i < |ring| => ring[i].x)
  }

  function Ys(ring: Ring): (r: seq<real>)
    ensures |r| == |ring|
  {
    seq(|ring|, i requires 0 <= i < |ring| => ring[i].y)
  }

  /** The centre of the `i`th of `n` equal cells between the extremes of `s`. */
  function CellCentre(s: seq<real>, n: nat, i: nat): real
    requires s != [] && n > 0
  {
    Least(s) + (i as real + 0.5) * (Greatest(s) - Least(s)) / n as real
  }

  /** The centre of cell (ix, iy) of the n by n grid over a ring's box. */
  function Cell(ring: Ring, n: nat, ix: nat, iy: nat): Point {
    if ring == [] || n == 0 then Point(0.0, 0.0)
    else Point(CellCentre(Xs(ring), n, ix), CellCentre(Ys(ring), n, iy))
  }

  /** The grids to try, coarse to fine, and the points of each. */
  datatype Sampler = Sampler(steps: seq<nat>, cell: (Ring, nat, nat, nat) -> Point)

  /** The grids the code tries. */
  function Coarse(): Sampler {
    Sampler([16, 32, 64], Cell)
  }

  /** The first `k` points of a column of the grid, those inside the polygon. */
  function Column(g: Polygon, s: Sampler, n: nat, ix: nat, k: nat): seq<Point> {
    if k == 0 then []
    else
      var p := s.cell(g.outer, n, ix, k - 1);
      Column(g, s, n, ix, k - 1) + if Inside(p, [g]) then [p] else []
  }

  /** The first `k` columns. */
  function Columns(g: Polygon, s: Sampler, n: nat, k: nat): seq<Point> {
    if k == 0 then [] else Columns(g, s, n, k - 1) + Column(g, s, n, k - 1, n)
  }

  /** The candidates after a polygon: a finer grid is tried only while there is no candidate at all. */
  function Scan(before: seq<Point>, g: Polygon, s: Sampler, j: nat): seq<Point>
    requires j <= |s.steps|
    decreases |s.steps| - j
  {
    if j == |s.steps| then before
    else
      var now := before + Columns(g, s, s.steps[j], s.steps[j]);
      if now != [] then now else Scan(now, g, s, j + 1)
  }

  function Candidates(polygons: seq<Polygon>, s: Sampler, k: nat): seq<Point>
    requires k <= |polygons|
  {
    if k == 0 then [] else Scan(Candidates(polygons, s, k - 1), polygons[k - 1], s, 0)
  }

  function Distance(p: Point, centre: Point): real {
    Square(p.x - centre.x) + Square(p.y - centre.y)
  }

  function Nearer(centre: Point): (Point, Point) -> bool {
    (p: Point, q: Point) => Distance(p, centre) <= Distance(q, centre)
  }

  /** The first of the nearest points. */
  function Nearest(s: seq<Point>, centre: Point): (p: Point)
    requires s != []
    ensures p in s && forall q :: q in s ==> Distance(p, centre) <= Distance(q, centre)
  {
    FirstLeast(s, Nearer(centre))
  }

  /** `_interior_anchor` as a function of the candidates. */
  function Anchor(centre: Point, polygons: seq<Polygon>, s: Sampler): Option<Point> {
    var all := Candidates(polygons, s, |polygons|);
    if Inside(centre, polygons) then Some(centre)
    else if all == [] then None
    else Some(Nearest(all, centre))
  }

  method ScanGrid(candidates: seq<Point>, g: Polygon, s: Sampler, n: nat) returns (r: seq<Point>)
    ensures r == candidates + Columns(g, s, n, n)
  {
    r := candidates;
    for ix := 0 to n
      invariant r == candidates + Columns(g, s, n, ix)
    {
      ghost var front := r;
      for iy := 0 to n
        invariant r == front + Column(g, s, n, ix, iy)
      {
        var p := s.cell(g.outer, n, ix, iy);
        if Inside(p, [g]) {
          r := r + [p];
        }
      }
      Associate(candidates, Columns(g, s, n, ix), Column(g, s, n, ix, n));
    }
  }

  ghost predicate HaveExteriors(polygons: seq<Polygon>) {
    forall i :: 0 <= i < |polygons| ==> polygons[i].outer != []
  }

  /** The exteriors are never empty, so the code's `min` and `max` have something to range over. */
  method InteriorAnchor(centre: Point, polygons: seq<Polygon>, s: Sampler) returns (r: Result<Point, string>)
    requires HaveExteriors(polygons)
    ensures Anchor(centre, polygons, s) == if r.Ok? then Some(r.value) else None
  {
    if Inside(centre, polygons) {
      return Ok(centre);
    }
    var candidates: seq<Point> := [];
    for k := 0 to |polygons|
      invariant candidates == Candidates(polygons, s, k)
    {
      candidates := ScanPolygon(candidates, polygons[k], s);
    }
    if candidates == [] {
      return Err("could not find an interior district anchor");
    }
    return Ok(Nearest(candidates, centre));
  }

  /** The resolution loop, which breaks at the first grid after which there are candidates. */
  method ScanPolygon(before: seq<Point>, g: Polygon, s: Sampler) returns (candidates: seq<Point>)
    ensures candidates == Scan(before, g, s, 0)
  {
    candidates := before;
    for j := 0 to |s.steps|
      invariant Scan(candidates, g, s, j) == Scan(before, g, s, 0)
    {
      candidates := ScanGrid(candidates, g, s, s.steps[j]);
      if candidates != [] {
        break;
      }
    }
  }

  // ---------------------------------------------------------------------------------------------
  // What the anchor promises

  /** The centre of cell (ix, iy) is inside the polygon. */
  predicate Hit(g: Polygon, s: Sampler, n: nat, ix: nat, iy: nat) {
    ix < n && iy < n && InPolygon(s.cell(g.outer, n, ix, iy), g)
  }

  lemma {:induction false} OfColumn(g: Polygon, s: Sampler, n: nat, ix: nat, k: nat, p: Point) returns (iy: nat)
    requires p in Column(g, s, n, ix, k)
    ensures iy < k && p == s.cell(g.outer, n, ix, iy) && InPolygon(p, g)
  {
    iy := k - 1;
    if p in Column(g, s, n, ix, k - 1) {
      iy := OfColumn(g, s, n, ix, k - 1, p);
    }
  }

  lemma {:induction false} OfColumns(g: Polygon, s: Sampler, n: nat, k: nat, p: Point) returns (ix: nat, iy: nat)
    requires k <= n && p in Columns(g, s, n, k)
    ensures Hit(g, s, n, ix, iy) && p == s.cell(g.outer, n, ix, iy)
  {
    hide InPolygon;
    hide Column;
    if p in Columns(g, s, n, k - 1) {
      ix, iy := OfColumns(g, s, n, k - 1, p);
    } else {
      ix := k - 1;
      iy := OfColumn(g, s, n, k - 1, n, p);
    }
  }

  lemma {:induction false} HitInColumn(g: Polygon, s: Sampler, n: nat, ix: nat, iy: nat, k: nat)
    requires Hit(g, s, n, ix, iy) && iy < k
    ensures s.cell(g.outer, n, ix, iy) in Column(g, s, n, ix, k)
  {
    hide InPolygon;
    if iy < k - 1 {
      HitInColumn(g, s, n, ix, iy, k - 1);
    } else {
    }
  }

  lemma {:induction false} HitListed(g: Polygon, s: Sampler, n: nat, ix: nat, iy: nat, k: nat)
    requires Hit(g, s, n, ix, iy) && ix < k
    ensures s.cell(g.outer, n, ix, iy) in Columns(g, s, n, k)
  {
    HitInColumn(g, s, n, ix, iy, n);
    ColumnListed(g, s, n, ix, k, s.cell(g.outer, n, ix, iy));
  }

  lemma {:induction false} ColumnListed(g: Polygon, s: Sampler, n: nat, ix: nat, k: nat, p: Point)
    requires ix < k && p in Column(g, s, n, ix, n)
    ensures p in Columns(g, s, n, k)
  {
    hide Column;
    if ix < k - 1 {
      ColumnListed(g, s, n, ix, k - 1, p);
    }
  }

  /** Some cell of some grid over the polygon is inside it. */
  ghost predicate Findable(g: Polygon, s: Sampler, j: nat) {
    exists i: nat, ix: nat, iy: nat :: j <= i < |s.steps| && Hit(g, s, s.steps[i], ix, iy)
  }

  lemma {:induction false} ScanMembers(before: seq<Point>, g: Polygon, s: Sampler, j: nat, p: Point)
    requires j <= |s.steps| && p in Scan(before, g, s, j)
    ensures p in before || InPolygon(p, g)
    decreases |s.steps| - j
  {
    if j < |s.steps| {
      var n := s.steps[j];
      var now := before + Columns(g, s, n, n);
      if now == [] {
        ScanMembers(now, g, s, j + 1, p);
      } else if p in Columns(g, s, n, n) {
        var ix, iy := OfColumns(g, s, n, n, p);
      }
    }
  }

  /** A scan ends without candidates exactly when it began without and no grid from step `j` on has a cell inside. */
  lemma {:induction false} ScanFails(before: seq<Point>, g: Polygon, s: Sampler, j: nat)
    requires j <= |s.steps|
    ensures Scan(before, g, s, j) == [] <==> before == [] && !Findable(g, s, j)
    decreases |s.steps| - j
  {
    if j < |s.steps| {
      var n := s.steps[j];
      var grid := Columns(g, s, n, n);
      ScanFails(before + grid, g, s, j + 1);
      if grid != [] {
        var ix, iy := OfColumns(g, s, n, n, grid[0]);
        assert Findable(g, s, j);
      } else {
        forall ix: nat, iy: nat ensures !Hit(g, s, n, ix, iy) {
          if Hit(g, s, n, ix, iy) {
            HitListed(g, s, n, ix, iy, n);
          }
        }
        assert Findable(g, s, j) <==> Findable(g, s, j + 1);
      }
    }
  }

  lemma {:induction false} CandidatesInside(polygons: seq<Polygon>, s: Sampler, k: nat, p: Point)
    requires k <= |polygons| && p in Candidates(polygons, s, k)
    ensures Inside(p, polygons)
  {
    ScanMembers(Candidates(polygons, s, k - 1), polygons[k - 1], s, 0, p);
    if p in Candidates(polygons, s, k - 1) {
      CandidatesInside(polygons, s, k - 1, p);
    }
  }

  /** Some polygon has a cell inside it, in some grid. */
  ghost predicate AnyFindable(polygons: seq<Polygon>, s: Sampler, k: nat)
    requires k <= |polygons|
  {
    exists i :: 0 <= i < k && Findable(polygons[i], s, 0)
  }

  lemma {:induction false} CandidatesFail(polygons: seq<Polygon>, s: Sampler, k: nat)
    requires k <= |polygons|
    ensures Candidates(polygons, s, k) != [] <==> AnyFindable(polygons, s, k)
  {
    if k > 0 {
      CandidatesFail(polygons, s, k - 1);
      ScanFails(Candidates(polygons, s, k - 1), polygons[k - 1], s, 0);
    }
  }

  /**
   * An anchor is inside the district: the centre when that is inside. There is none exactly when the centre is outside
   * and no grid point of any polygon, down to the finest grid, is inside that polygon.
   */
  lemma {:induction false} AnchorIsInside(centre: Point, polygons: seq<Polygon>, s: Sampler)
    ensures Anchor(centre, polygons, s) == None <==>
      !Inside(centre, polygons) && !AnyFindable(polygons, s, |polygons|)
    ensures Anchor(centre, polygons, s).Some? ==> Inside(Anchor(centre, polygons, s).value, polygons)
    ensures Inside(centre, polygons) ==> Anchor(centre, polygons, s) == Some(centre)
  {
    CandidatesFail(polygons, s, |polygons|);
    if !Inside(centre, polygons) && Anchor(centre, polygons, s).Some? {
      CandidatesInside(polygons, s, |polygons|, Anchor(centre, polygons, s).value);
    }
  }

  /** Some grid of the polygon between steps `j` and `l` has a cell inside it. */
  ghost predicate FoundBetween(g: Polygon, s: Sampler, j: nat, l: nat) {
    exists m: nat, ix: nat, iy: nat :: j <= m < l && m < |s.steps| && Hit(g, s, s.steps[m], ix, iy)
  }

  /**
   * Grid `j` of polygon `i` is tried: its coarsest always, a finer one only when no grid of an earlier polygon and no
   * coarser grid of this one has a cell inside its polygon.
   */
  ghost predicate Tried(polygons: seq<Polygon>, s: Sampler, i: nat, j: nat)
    requires i < |polygons|
  {
    j < |s.steps| && (j == 0 || (!AnyFindable(polygons, s, i) && !FoundBetween(polygons[i], s, 0, j)))
  }

  /** Cell (ix, iy) of a tried grid `j` of polygon `i` is inside that polygon, and its centre is `p`. */
  ghost predicate TriedHit(polygons: seq<Polygon>, s: Sampler, i: nat, j: nat, ix: nat, iy: nat, p: Point)
    requires i < |polygons|
  {
    && Tried(polygons, s, i, j) && Hit(polygons[i], s, s.steps[j], ix, iy)
    && p == s.cell(polygons[i].outer, s.steps[j], ix, iy)
  }

  lemma {:induction false} FoundAtOnce(g: Polygon, s: Sampler, j: nat, l: nat)
    requires j < l <= |s.steps| && !FoundBetween(g, s, j, l)
    ensures Columns(g, s, s.steps[j], s.steps[j]) == [] && !FoundBetween(g, s, j + 1, l)
  {
    hide Hit;
    var n := s.steps[j];
    var grid := Columns(g, s, n, n);
    if grid != [] {
      var ix, iy := OfColumns(g, s, n, n, grid[0]);
    }
  }

  lemma {:induction false} NoneAtOnce(g: Polygon, s: Sampler, j: nat, l: nat)
    requires j < l <= |s.steps| && Columns(g, s, s.steps[j], s.steps[j]) == [] && !FoundBetween(g, s, j + 1, l)
    ensures !FoundBetween(g, s, j, l)
  {
    var n := s.steps[j];
    forall ix: nat, iy: nat ensures !Hit(g, s, n, ix, iy) {
      if Hit(g, s, n, ix, iy) {
        HitListed(g, s, n, ix, iy, n);
      }
    }
  }

  /** What a scan adds comes from its first grid, or from a later one when all was empty up to there. */
  lemma {:induction false} ScanFinds(before: seq<Point>, g: Polygon, s: Sampler, j: nat, p: Point)
    returns (l: nat, ix: nat, iy: nat)
    requires j <= |s.steps| && p in Scan(before, g, s, j) && p !in before
    ensures j <= l < |s.steps| && Hit(g, s, s.steps[l], ix, iy) && p == s.cell(g.outer, s.steps[l], ix, iy)
    ensures l == j || (before == [] && !FoundBetween(g, s, j, l))
    decreases |s.steps| - j
  {
    var n := s.steps[j];
    hide Columns;
    hide Hit;
    if p in Columns(g, s, n, n) {
      l := j;
      ix, iy := OfColumns(g, s, n, n, p);
    } else {
      l, ix, iy := ScanFinds([], g, s, j + 1, p);
      assert !FoundBetween(g, s, j + 1, l);
      NoneAtOnce(g, s, j, l);
    }
  }

  lemma {:induction false} ScanKeeps(before: seq<Point>, g: Polygon, s: Sampler, j: nat, l: nat, ix: nat, iy: nat)
    requires j <= l < |s.steps| && Hit(g, s, s.steps[l], ix, iy)
    requires l == j || (before == [] && !FoundBetween(g, s, j, l))
    ensures s.cell(g.outer, s.steps[l], ix, iy) in Scan(before, g, s, j)
    decreases l - j
  {
    if l == j {
      HitListed(g, s, s.steps[l], ix, iy, s.steps[l]);
    } else {
      FoundAtOnce(g, s, j, l);
      ScanKeeps([], g, s, j + 1, l, ix, iy);
    }
  }

  lemma {:induction false} ScanRetains(before: seq<Point>, g: Polygon, s: Sampler, p: Point)
    requires p in before
    ensures p in Scan(before, g, s, 0)
  {
  }

  /** Every candidate is a tried hit. */
  lemma {:induction false} CandidateIsTried(polygons: seq<Polygon>, s: Sampler, k: nat, p: Point)
    returns (i: nat, j: nat, ix: nat, iy: nat)
    requires k <= |polygons| && p in Candidates(polygons, s, k)
    ensures i < k && TriedHit(polygons, s, i, j, ix, iy, p)
  {
    hide Scan;
    hide Hit;
    var before := Candidates(polygons, s, k - 1);
    if p in before {
      i, j, ix, iy := CandidateIsTried(polygons, s, k - 1, p);
    } else {
      i := k - 1;
      j, ix, iy := ScanFinds(before, polygons[i], s, 0, p);
      CandidatesFail(polygons, s, i);
    }
  }

  /** Every tried hit is a candidate. */
  lemma {:induction false} TriedIsCandidate(
    polygons: seq<Polygon>, s: Sampler, k: nat, i: nat, j: nat, ix: nat, iy: nat, p: Point)
    requires i < k <= |polygons| && TriedHit(polygons, s, i, j, ix, iy, p)
    ensures p in Candidates(polygons, s, k)
  {
    hide Scan;
    hide Hit;
    if i == k - 1 {
      CandidatesFail(polygons, s, i);
      ScanKeeps(Candidates(polygons, s, i), polygons[i], s, 0, j, ix, iy);
    } else {
      TriedIsCandidate(polygons, s, k - 1, i, j, ix, iy, p);
      ScanRetains(Candidates(polygons, s, k - 1), polygons[k - 1], s, p);
    }
  }

  /**
   * The anchor of a district that does not hold its centre is a tried hit, and no tried hit is nearer to the centre.
   */
  lemma {:induction false} AnchorIsNearest(centre: Point, polygons: seq<Polygon>, s: Sampler)
    returns (i: nat, j: nat, ix: nat, iy: nat)
    requires !Inside(centre, polygons) && Anchor(centre, polygons, s).Some?
    ensures var a := Anchor(centre, polygons, s).value;
      && i < |polygons| && TriedHit(polygons, s, i, j, ix, iy, a)
      && forall i', j', ix', iy', p :: 0 <= i' < |polygons| && TriedHit(polygons, s, i', j', ix', iy', p) ==>
        Distance(a, centre) <= Distance(p, centre)
  {
    hide TriedHit;
    hide Distance;
    var a := Anchor(centre, polygons, s).value;
    i, j, ix, iy := CandidateIsTried(polygons, s, |polygons|, a);
    forall i': nat, j': nat, ix': nat, iy': nat, p | i' < |polygons| && TriedHit(polygons, s, i', j', ix', iy', p)
      ensures Distance(a, centre) <= Distance(p, centre)
    {
      TriedIsCandidate(polygons, s, |polygons|, i', j', ix', iy', p);
    }
  }

  // ---------------------------------------------------------------------------------------------
  // The centroid

  /** Twice the signed area an edge contributes, and its moments. */
  datatype Moments = Moments(area: real, x: real, y: real) {
    function Plus(a: Point, b: Point): Moments {
      var cross := Times(a.x, b.y) - Times(b.x, a.y);
      Moments(area + cross, x + Times(a.x + b.x, cross), y + Times(a.y + b.y, cross))
    }
  }

  function MomentsOf(path: seq<Point>): Moments {
    if |path| < 2 then Moments(0.0, 0.0, 0.0)
    else MomentsOf(path[..|path| - 1]).Plus(path[|path| - 2], path[|path| - 1])
  }

  function Sum(s: seq<real>): real {
    if s == [] then 0.0 else Sum(s[..|s| - 1]) + s[|s| - 1]
  }

  const SPECK := 0.000000000001

  function Magnitude(x: real): real {
    if x < 0.0 then -x else x
  }

  function AreaOf(ring: Ring): real {
    Magnitude(MomentsOf(Closed(ring)).area * 0.5)
  }

  /** The area centroid of a ring, or its mean vertex where it has no area. */
  function RingCentroid(ring: Ring): Point
    requires ring != []
  {
    var m := MomentsOf(Closed(ring));
    var a := m.area * 0.5;
    if Magnitude(a) < SPECK then Point(Sum(Xs(ring)) / |ring| as real, Sum(Ys(ring)) / |ring| as real)
    else Point(m.x / (6.0 * a), m.y / (6.0 * a))
  }

  /** The first of the largest rings. */
  ghost predicate Largest(rings: seq<Ring>, k: nat) {
    && k < |rings| && (forall i :: 0 <= i < k ==> AreaOf(rings[i]) < AreaOf(rings[k]))
    && (forall i :: k <= i < |rings| ==> AreaOf(rings[i]) <= AreaOf(rings[k]))
  }

  ghost predicate HasCentroid(rings: seq<Ring>, c: Point) {
    exists k: nat :: Largest(rings, k) && rings[k] != [] && c == RingCentroid(rings[k])
  }

  /** `_centroid`: that of the largest ring. */
  method Centroid(rings: seq<Ring>) returns (best: Point)
    requires rings != [] && forall i :: 0 <= i < |rings| ==> rings[i] != []
    ensures HasCentroid(rings, best)
  {
    hide AreaOf;
    hide RingCentroid;
    var area := -1.0;
    best := Point(0.0, 0.0);
    ghost var k: nat := 0;
    for i := 0 to |rings|
      invariant if i == 0 then area == -1.0 else Largest(rings[..i], k) && area == AreaOf(rings[k])
      invariant i > 0 ==> best == RingCentroid(rings[k])
    {
      AreaNonNegative(rings[i]);
      LargestNext(rings, i, k);
      if AreaOf(rings[i]) > area {
        best, area := RingCentroid(rings[i]), AreaOf(rings[i]);
        k := i;
      }
    }
    assert rings[..|rings|] == rings;
  }

  lemma {:induction false} AreaNonNegative(ring: Ring)
    ensures AreaOf(ring) >= 0.0
  {
  }

  lemma {:induction false} LargestNext(rings: seq<Ring>, i: nat, k: nat)
    requires i < |rings|
    ensures i == 0 ==> Largest(rings[..1], 0)
    ensures i > 0 && Largest(rings[..i], k) && AreaOf(rings[i]) > AreaOf(rings[k]) ==> Largest(rings[..i + 1], i)
    ensures i > 0 && Largest(rings[..i], k) && AreaOf(rings[i]) <= AreaOf(rings[k]) ==> Largest(rings[..i + 1], k)
  {
    hide AreaOf;
    assert forall j :: 0 <= j < i ==> rings[..i][j] == rings[j] == rings[..i + 1][j];
    assert rings[..i + 1][i] == rings[i];
  }

  lemma {:induction false} MomentsStep(path: seq<Point>, v: Point)
    requires path != []
    ensures MomentsOf(path + [v]) == MomentsOf(path).Plus(path[|path| - 1], v)
  {
    assert (path + [v])[..|path|] == path;
  }

  lemma {:induction false} MomentsOfFour(a: Point, b: Point, c: Point, d: Point)
    ensures MomentsOf(Closed([a, b, c, d])) == Moments(0.0, 0.0, 0.0).Plus(a, b).Plus(b, c).Plus(c, d).Plus(d, a)
  {
    MomentsStep([a], b);
    MomentsStep([a, b], c);
    MomentsStep([a, b, c], d);
    MomentsStep([a, b, c, d], a);
    assert [a] + [b] == [a, b] && [a, b] + [c] == [a, b, c] && [a, b, c] + [d] == [a, b, c, d];
    assert Closed([a, b, c, d]) == [a, b, c, d] + [a];
  }

  // ---------------------------------------------------------------------------------------------
  // A district whose anchor is not the nearest of all grid points

  function Rectangle(x0: real, x1: real, y0: real, y1: real): Ring {
    [Point(x0, y0), Point(x1, y0), Point(x1, y1), Point(x0, y1)]
  }

  /** A square with a square hole around its centroid. */
  const SQUARE: Ring := Rectangle(0.0, 64.0, 0.0, 64.0)
  const HOLE: Ring := Rectangle(25.5, 38.5, 25.5, 38.5)
  const HOLED := Polygon(SQUARE, [HOLE])
  const MIDDLE := Point(32.0, 32.0)

  /** What one edge adds, its products worked out. */
  lemma {:induction false} EdgeAdds(
    m: Moments, x0: real, y0: real, x1: real, y1: real, cross: real, mx: real, my: real)
    requires x0 * y1 - x1 * y0 == cross && (x0 + x1) * cross == mx && (y0 + y1) * cross == my
    ensures m.Plus(Point(x0, y0), Point(x1, y1)) == Moments(m.area + cross, m.x + mx, m.y + my)
  {
    assert Times(x0, y1) - Times(x1, y0) == cross && Times(x0 + x1, cross) == mx && Times(y0 + y1, cross) == my;
    hide Times;
  }

  lemma {:induction false} SquareRightHalf()
    ensures Moments(0.0, 0.0, 0.0).Plus(Point(0.0, 0.0), Point(64.0, 0.0)).Plus(Point(64.0, 0.0), Point(64.0, 64.0))
      == Moments(4096.0, 524288.0, 262144.0)
  {
    hide Times;
    hide Moments.Plus;
    EdgeAdds(Moments(0.0, 0.0, 0.0), 0.0, 0.0, 64.0, 0.0, 0.0, 0.0, 0.0);
    EdgeAdds(Moments(0.0, 0.0, 0.0), 64.0, 0.0, 64.0, 64.0, 4096.0, 524288.0, 262144.0);
  }

  lemma {:induction false} SquareLeftHalf()
    ensures Moments(4096.0, 524288.0, 262144.0)
      .Plus(Point(64.0, 64.0), Point(0.0, 64.0)).Plus(Point(0.0, 64.0), Point(0.0, 0.0))
      == Moments(8192.0, 786432.0, 786432.0)
  {
    hide Times;
    hide Moments.Plus;
    EdgeAdds(Moments(4096.0, 524288.0, 262144.0), 64.0, 64.0, 0.0, 64.0, 4096.0, 262144.0, 524288.0);
    EdgeAdds(Moments(8192.0, 786432.0, 786432.0), 0.0, 64.0, 0.0, 0.0, 0.0, 0.0, 0.0);
  }

  lemma {:induction false} SquareMoments()
    ensures MomentsOf(Closed(SQUARE)) == Moments(8192.0, 786432.0, 786432.0)
  {
    hide Times;
    hide MomentsOf;
    hide Closed;
    SquareRightHalf();
    SquareLeftHalf();
    MomentsOfFour(Point(0.0, 0.0), Point(64.0, 0.0), Point(64.0, 64.0), Point(0.0, 64.0));
  }

  lemma {:induction false} HoleArea()
    ensures MomentsOf(Closed(HOLE)).area == 338.0
  {
    hide MomentsOf;
    hide Closed;
    MomentsOfFour(Point(25.5, 25.5), Point(38.5, 25.5), Point(38.5, 38.5), Point(25.5, 38.5));
  }

  lemma {:induction false} HoledCentroid()
    ensures HasCentroid([SQUARE, HOLE], MIDDLE)
  {
    hide MomentsOf;
    hide Closed;
    SquareMoments();
    HoleArea();
    assert AreaOf(SQUARE) == 4096.0 && AreaOf(HOLE) == 169.0;
    assert Largest([SQUARE, HOLE], 0) && RingCentroid(SQUARE) == MIDDLE;
  }

  lemma {:induction false} SquareBounds()
    ensures Least(Xs(SQUARE)) == 0.0 && Greatest(Xs(SQUARE)) == 64.0
    ensures Least(Ys(SQUARE)) == 0.0 && Greatest(Ys(SQUARE)) == 64.0
  {
    var xs, ys := Xs(SQUARE), Ys(SQUARE);
    assert xs[0] == 0.0 && xs[1] == 64.0 && ys[0] == 0.0 && ys[2] == 64.0;
    assert 0.0 in xs && 64.0 in xs && 0.0 in ys && 64.0 in ys;
    assert forall x :: x in xs ==> x == 0.0 || x == 64.0;
    assert forall y :: y in ys ==> y == 0.0 || y == 64.0;
  }

  lemma {:induction false} SquareCell(n: nat, ix: nat, iy: nat)
    requires n in {16, 32}
    ensures Cell(SQUARE, n, ix, iy) == if n == 16 then Point(4.0 * ix as real + 2.0, 4.0 * iy as real + 2.0)
                                       else Point(2.0 * ix as real + 1.0, 2.0 * iy as real + 1.0)
  {
    SquareBounds();
    hide Least;
    hide Greatest;
  }

  predicate InRectangle(p: Point, x0: real, x1: real, y0: real, y1: real) {
    x0 <= p.x < x1 && y0 <= p.y < y1
  }

  lemma {:induction false} InHoled(p: Point)
    ensures InPolygon(p, HOLED) <==>
      InRectangle(p, 0.0, 64.0, 0.0, 64.0) && !InRectangle(p, 25.5, 38.5, 25.5, 38.5)
    ensures Inside(p, [HOLED]) <==> InPolygon(p, HOLED)
  {
    RectangleIsHalfOpen(p, 0.0, 64.0, 0.0, 64.0);
    RectangleIsHalfOpen(p, 25.5, 38.5, 25.5, 38.5);
    assert HOLED in [HOLED] && HOLE in HOLED.holes;
    hide Encloses;
  }

  lemma {:induction false} NearCell()
    ensures Hit(HOLED, Coarse(), 32, 12, 15) && Cell(SQUARE, 32, 12, 15) == Point(25.0, 31.0)
  {
    hide InPolygon;
    hide Cell;
    hide Encloses;
    SquareCell(32, 12, 15);
    InHoled(Point(25.0, 31.0));
  }

  lemma {:induction false} SomeCoarseHit()
    ensures Hit(HOLED, Coarse(), 16, 0, 0)
  {
    hide InPolygon;
    hide Cell;
    hide Encloses;
    SquareCell(16, 0, 0);
    InHoled(Point(2.0, 2.0));
  }

  lemma {:induction false} MiddleIsInTheHole()
    ensures !Inside(MIDDLE, [HOLED])
  {
    InHoled(MIDDLE);
    hide InPolygon;
    hide Inside;
  }

  /** A polygon with a cell of its coarsest grid inside has its anchor there, or at its centre. */
  lemma {:induction false} AnchorOnCoarsest(centre: Point, g: Polygon, s: Sampler, ix: nat, iy: nat)
    returns (kx: nat, ky: nat)
    requires s.steps != [] && Hit(g, s, s.steps[0], ix, iy) && !Inside(centre, [g])
    ensures Anchor(centre, [g], s) == Some(s.cell(g.outer, s.steps[0], kx, ky)) && Hit(g, s, s.steps[0], kx, ky)
  {
    hide Hit;
    hide Inside;
    assert [g][0] == g && Findable([g][0], s, 0);
    assert AnyFindable([g], s, 1);
    AnchorIsInside(centre, [g], s);
    var i, j;
    i, j, kx, ky := AnchorIsNearest(centre, [g], s);
    assert FoundBetween(g, s, 0, 1);
    OnlyTheCoarsest(g, s, j);
  }

  /**
   * The nearest of all grid points need not be tried: in the holed square, whose centroid lies in its hole, the finer
   * grid has a cell inside nearer to the centroid than the anchor.
   */
  lemma {:induction false} FinerGridHoldsNearer()
    ensures HasCentroid([SQUARE, HOLE], MIDDLE)
    ensures !Inside(MIDDLE, [HOLED]) && Anchor(MIDDLE, [HOLED], Coarse()).Some?
    ensures Hit(HOLED, Coarse(), 32, 12, 15)
    ensures Distance(Cell(SQUARE, 32, 12, 15), MIDDLE) < Distance(Anchor(MIDDLE, [HOLED], Coarse()).value, MIDDLE)
  {
    hide HasCentroid;
    hide Anchor;
    hide Inside;
    hide Hit;
    hide Distance;
    hide Cell;
    HoledCentroid();
    NearCell();
    SomeCoarseHit();
    MiddleIsInTheHole();
    var ix, iy := AnchorOnCoarsest(MIDDLE, HOLED, Coarse(), 0, 0);
    CoarseHitsAreFar(ix, iy);
    NearMiddle();
  }

  lemma {:induction false} OnlyTheCoarsest(g: Polygon, s: Sampler, j: nat)
    requires FoundBetween(g, s, 0, 1) && Tried([g], s, 0, j)
    ensures j == 0
  {
    hide Hit;
  }

  lemma {:induction false} CoarseHitsAreFar(ix: nat, iy: nat)
    requires Hit(HOLED, Coarse(), 16, ix, iy)
    ensures Distance(Cell(SQUARE, 16, ix, iy), MIDDLE) >= 100.0
  {
    hide InPolygon;
    hide Cell;
    var p := Cell(SQUARE, 16, ix, iy);
    SquareCell(16, ix, iy);
    InHoled(p);
    SquareSign(p.x - 32.0);
    SquareSign(p.y - 32.0);
    if p.x < 25.5 || p.x >= 38.5 {
      FarSquare(p.x - 32.0, if ix <= 5 then -1 else 1);
    } else {
      FarSquare(p.y - 32.0, if iy <= 5 then -1 else 1);
    }
  }

  lemma {:induction false} FarSquare(d: real, sign: int)
    requires (sign == 1 && d >= 10.0) || (sign == -1 && d <= -10.0)
    ensures Square(d) >= 100.0
  {
    var e := if sign == 1 then d else -d;
    assert Square(d) - 100.0 == Times(e - 10.0, e + 10.0);
    TimesNonNegative(e - 10.0, e + 10.0);
  }

  lemma {:induction false} NearMiddle()
    ensures Distance(Point(25.0, 31.0), MIDDLE) == 50.0
  {
  }

  // ---------------------------------------------------------------------------------------------
  // The dots

  const RING := 21.0
  const FRACTIONS := [1.0, 0.75, 0.5, 0.25, 0.0]

  /** A point of the segment from the centre towards the ring; the direction's cosine and sine are given. */
  function RingPoint(centre: Point, fraction: real, cos: real, sin: real): Point {
    Point(centre.x + fraction * RING * cos, centre.y + fraction * RING * sin)
  }

  lemma {:induction false} NoFraction(centre: Point, cos: real, sin: real)
    ensures RingPoint(centre, 0.0, cos, sin) == centre
  {
  }

  /** Fraction `k` is the first of the five whose point is inside, and `p` is that point. */
  ghost predicate FirstInside(k: nat, p: Point, centre: Point, cos: real, sin: real, polygons: seq<Polygon>)
    requires k < 5
  {
    && p == RingPoint(centre, FRACTIONS[k], cos, sin) && Inside(p, polygons)
    && forall j :: 0 <= j < k ==> !Inside(RingPoint(centre, FRACTIONS[j], cos, sin), polygons)
  }

  /** `_constrained_ring_point`: the farthest of five points that stays inside. From an inside centre it never fails. */
  method ConstrainedRingPoint(centre: Point, cos: real, sin: real, polygons: seq<Polygon>)
      returns (r: Result<Point, string>)
    ensures r.Ok? ==> exists k :: 0 <= k < 5 && FirstInside(k, r.value, centre, cos, sin, polygons)
    ensures r.Err? ==> forall k :: 0 <= k < 5 ==> !Inside(RingPoint(centre, FRACTIONS[k], cos, sin), polygons)
    ensures Inside(centre, polygons) ==> r.Ok?
  {
    for k := 0 to |FRACTIONS|
      invariant forall j :: 0 <= j < k ==> !Inside(RingPoint(centre, FRACTIONS[j], cos, sin), polygons)
    {
      var p := RingPoint(centre, FRACTIONS[k], cos, sin);
      if Inside(p, polygons) {
        assert FirstInside(k, p, centre, cos, sin, polygons);
        return Ok(p);
      }
    }
    NoFraction(centre, cos, sin);
    assert FRACTIONS[4] == 0.0;
    return Err("district centroid is outside its projected polygon");
  }

  /** A projected district: its area centroid, its polygons and its counts by theme. */
  datatype Feature = Feature(name: string, centre: Point, polygons: seq<Polygon>, counts: map<string, int>)

  datatype Dot = Dot(district: string, theme: string, count: int, at: Point)

  predicate ByName(f: Feature, g: Feature) {
    StringLeq(f.name, g.name)
  }

  function Count(f: Feature, theme: string): int {
    if theme in f.counts then f.counts[theme] else 0
  }

  /** The dots due for the first `n` themes of a district: those with a count. */
  function Due(f: Feature, themes: seq<string>, n: nat): seq<(string, string, int)>
    requires n <= |themes|
  {
    if n == 0 then []
    else
      var theme := themes[n - 1];
      Due(f, themes, n - 1) + if Count(f, theme) == 0 then [] else [(f.name, theme, Count(f, theme))]
  }

  function AllDue(features: seq<Feature>, themes: seq<string>, n: nat): seq<(string, string, int)>
    requires n <= |features|
  {
    if n == 0 then [] else AllDue(features, themes, n - 1) + Due(features[n - 1], themes, |themes|)
  }

  function Labels(dots: seq<Dot>): seq<(string, string, int)> {
    if dots == [] then []
    else
      var d := dots[|dots| - 1];
      Labels(dots[..|dots| - 1]) + [(d.district, d.theme, d.count)]
  }

  lemma {:induction false} LabelsSnoc(dots: seq<Dot>, d: Dot)
    ensures Labels(dots + [d]) == Labels(dots) + [(d.district, d.theme, d.count)]
  {
    assert (dots + [d])[..|dots|] == dots;
  }

  ghost predicate Drawable(features: seq<Feature>) {
    forall f :: f in features ==> HaveExteriors(f.polygons)
  }

  ghost predicate InDistrict(d: Dot, features: seq<Feature>) {
    exists f :: f in features && f.name == d.district && Inside(d.at, f.polygons)
  }

  /** The dots due for one district, in order, all of them inside it. */
  ghost predicate PlacedFor(dots: seq<Dot>, f: Feature, themes: seq<string>) {
    && Labels(dots) == Due(f, themes, |themes|)
    && forall d :: d in dots ==> d.district == f.name && Inside(d.at, f.polygons)
  }

  /** The dots of one district, from an anchor inside it: no placement fails. */
  method PlaceThemes(f: Feature, anchor: Point, themes: seq<string>, cos: nat -> real, sin: nat -> real)
      returns (dots: seq<Dot>)
    requires Inside(anchor, f.polygons)
    ensures PlacedFor(dots, f, themes)
  {
    hide Inside;
    hide RingPoint;
    dots := [];
    for i := 0 to |themes|
      invariant Labels(dots) == Due(f, themes, i)
      invariant forall d :: d in dots ==> d.district == f.name && Inside(d.at, f.polygons)
    {
      var n := Count(f, themes[i]);
      if n != 0 {
        assert Inside(anchor, f.polygons);
        var placed := ConstrainedRingPoint(anchor, cos(i), sin(i), f.polygons);
        var dot := Dot(f.name, themes[i], n, placed.value);
        LabelsSnoc(dots, dot);
        dots := dots + [dot];
      }
    }
  }

  lemma {:induction false} LabelsConcat(a: seq<Dot>, b: seq<Dot>)
    ensures Labels(a + b) == Labels(a) + Labels(b)
  {
    if b == [] {
      assert a + b == a;
    } else {
      LabelsConcat(a, b[..|b| - 1]);
      assert (a + b)[..|a + b| - 1] == a + b[..|b| - 1];
    }
  }

  /** A district of the loop: its anchor, then its dots. */
  method PlaceFeature(f: Feature, themes: seq<string>, cos: nat -> real, sin: nat -> real, s: Sampler)
    returns (r: Result<seq<Dot>, string>)
    requires HaveExteriors(f.polygons)
    ensures r.Ok? <==> Anchored(f, s)
    ensures r.Ok? ==> PlacedFor(r.value, f, themes)
  {
    var anchor := InteriorAnchor(f.centre, f.polygons, s);
    if anchor.Err? {
      return Err(anchor.error);
    }
    AnchorIsInside(f.centre, f.polygons, s);
    var placed := PlaceThemes(f, anchor.value, themes, cos, sin);
    return Ok(placed);
  }

  /**
   * The placement loop of `build`. It stops only at a district without an anchor; otherwise there is one dot for every
   * district and theme with a count, in order, and every dot is inside its district.
   */
  method PlaceDots(features: seq<Feature>, themes: seq<string>, cos: nat -> real, sin: nat -> real, s: Sampler)
    returns (r: Result<seq<Dot>, string>)
    requires Drawable(features)
    ensures r.Ok? <==> AllAnchored(InOrder(features), s, |features|)
    ensures r.Ok? ==> Placed(r.value, InOrder(features), themes, |features|)
  {
    hide Anchored;
    hide Placed;
    hide PlacedFor;
    hide HaveExteriors;
    var dots: seq<Dot> := [];
    var order := InOrder(features);
    NonePlaced(order, themes);
    for k := 0 to |order|
      invariant AllAnchored(order, s, k)
      invariant Placed(dots, order, themes, k)
    {
      var f := order[k];
      assert f in order;
      var placed := PlaceFeature(f, themes, cos, sin, s);
      if placed.Err? {
        NotAllAnchored(order, s, k, |order|);
        return Err(placed.error);
      }
      PlacedStep(dots, placed.value, order, themes, k);
      dots := dots + placed.value;
    }
    return Ok(dots);
  }

  /** `build` with the grids the code tries. */
  method Build(features: seq<Feature>, themes: seq<string>, cos: nat -> real, sin: nat -> real)
    returns (r: Result<seq<Dot>, string>)
    requires Drawable(features)
    ensures r.Ok? <==> AllAnchored(InOrder(features), Coarse(), |features|)
    ensures r.Ok? ==> Placed(r.value, InOrder(features), themes, |features|)
  {
    hide AllAnchored;
    hide Placed;
    hide Coarse;
    r := PlaceDots(features, themes, cos, sin, Coarse());
  }

  ghost predicate Anchored(f: Feature, s: Sampler) {
    Anchor(f.centre, f.polygons, s).Some?
  }

  /** The first `k` features have anchors. */
  ghost predicate AllAnchored(order: seq<Feature>, s: Sampler, k: nat)
    requires k <= |order|
  {
    k == 0 || (AllAnchored(order, s, k - 1) && Anchored(order[k - 1], s))
  }

  lemma {:induction false} NotAllAnchored(order: seq<Feature>, s: Sampler, i: nat, k: nat)
    requires i < k <= |order| && !Anchored(order[i], s)
    ensures !AllAnchored(order, s, k)
  {
    hide Anchored;
    if i < k - 1 {
      NotAllAnchored(order, s, i, k - 1);
    }
  }

  /** The features sorted by name. */
  function InOrder(features: seq<Feature>): (order: seq<Feature>)
    ensures |order| == |features| && forall f :: f in order <==> f in features
  {
    ByNameOrders();
    SortCorrect(features, ByName);
    SameFeatures(Sort(features, ByName), features);
    Sort(features, ByName)
  }

  lemma {:induction false} SameFeatures(a: seq<Feature>, b: seq<Feature>)
    requires multiset(a) == multiset(b)
    ensures forall f :: f in a <==> f in b
  {
    forall f ensures f in a <==> f in b { MultisetElement(a, b, f); }
  }

  /** The dots are those due for the first `k` features, in order, and each lies in a district of its name. */
  ghost predicate Placed(dots: seq<Dot>, order: seq<Feature>, themes: seq<string>, k: nat)
    requires k <= |order|
  {
    && Labels(dots) == AllDue(order, themes, k)
    && forall i :: 0 <= i < |dots| ==> InDistrict(dots[i], order)
  }

  lemma {:induction false} NonePlaced(order: seq<Feature>, themes: seq<string>)
    ensures Placed([], order, themes, 0)
  {
  }

  lemma {:induction false} PlacedStep(
    dots: seq<Dot>, placed: seq<Dot>, order: seq<Feature>, themes: seq<string>, k: nat)
    requires k < |order| && Placed(dots, order, themes, k)
    requires PlacedFor(placed, order[k], themes)
    ensures Placed(dots + placed, order, themes, k + 1)
  {
    LabelsConcat(dots, placed);
    assert order[k] in order;
    forall i | 0 <= i < |placed| ensures InDistrict(placed[i], order) {
      assert placed[i] in placed;
    }
  }

  lemma {:induction false} ByNameOrders()
    ensures TotalPreorder(ByName)
  {
    StringOrder();
  }

  // ---------------------------------------------------------------------------------------------
  // Printing to one decimal

  const HALF_TENTH := 0.05

  /** The points that can be printed for `p`, whichever way ties are rounded, lie in this square. */
  function Around(p: Point): Box {
    Box(p.x - HALF_TENTH, p.x + HALF_TENTH, p.y - HALF_TENTH, p.y + HALF_TENTH)
  }

  ghost predicate RingsKeepClear(box: Box, g: Polygon) {
    Clear(box, Closed(g.outer)) && forall hole :: hole in g.holes ==> Clear(box, Closed(hole))
  }

  ghost predicate AllKeepClear(box: Box, polygons: seq<Polygon>) {
    forall g :: g in polygons ==> RingsKeepClear(box, g)
  }

  lemma {:induction false} PolygonKeeps(p: Point, q: Point, g: Polygon)
    requires RingsKeepClear(Around(p), g) && Around(p).Holds(q)
    ensures InPolygon(q, g) <==> InPolygon(p, g)
  {
    hide Clear;
    hide Encloses;
    EnclosesAllOrNone(g.outer, Around(p), p, q);
    forall hole | hole in g.holes ensures Encloses(hole, p) <==> Encloses(hole, q) {
      EnclosesAllOrNone(hole, Around(p), p, q);
    }
  }

  /**
   * Where no ring comes within half a tenth of a point, across or up, the printed point is inside exactly when it is.
   */
  lemma {:induction false} PrintedStays(p: Point, q: Point, polygons: seq<Polygon>)
    requires AllKeepClear(Around(p), polygons) && Around(p).Holds(q)
    ensures Inside(q, polygons) <==> Inside(p, polygons)
  {
    hide InPolygon;
    hide RingsKeepClear;
    forall g | g in polygons ensures InPolygon(q, g) <==> InPolygon(p, g) {
      PolygonKeeps(p, q, g);
    }
  }

  /** A narrow upright district and its centroid. */
  const NARROW: Ring := Rectangle(0.03, 0.05, 0.0, 64.0)
  const CORE := Point(0.04, 32.0)

  lemma {:induction false} NarrowRightHalf()
    ensures Moments(0.0, 0.0, 0.0).Plus(Point(0.03, 0.0), Point(0.05, 0.0)).Plus(Point(0.05, 0.0), Point(0.05, 64.0))
      == Moments(3.2, 0.32, 204.8)
  {
    hide Times;
    hide Moments.Plus;
    EdgeAdds(Moments(0.0, 0.0, 0.0), 0.03, 0.0, 0.05, 0.0, 0.0, 0.0, 0.0);
    EdgeAdds(Moments(0.0, 0.0, 0.0), 0.05, 0.0, 0.05, 64.0, 3.2, 0.32, 204.8);
  }

  lemma {:induction false} NarrowLeftHalf()
    ensures Moments(3.2, 0.32, 204.8)
      .Plus(Point(0.05, 64.0), Point(0.03, 64.0)).Plus(Point(0.03, 64.0), Point(0.03, 0.0))
      == Moments(2.56, 0.3072, 245.76)
  {
    hide Times;
    hide Moments.Plus;
    EdgeAdds(Moments(3.2, 0.32, 204.8), 0.05, 64.0, 0.03, 64.0, 1.28, 0.1024, 163.84);
    EdgeAdds(Moments(4.48, 0.4224, 368.64), 0.03, 64.0, 0.03, 0.0, -1.92, -0.1152, -122.88);
  }

  lemma {:induction false} NarrowMoments()
    ensures MomentsOf(Closed(NARROW)) == Moments(2.56, 0.3072, 245.76)
  {
    hide Times;
    hide MomentsOf;
    hide Closed;
    NarrowRightHalf();
    NarrowLeftHalf();
    MomentsOfFour(Point(0.03, 0.0), Point(0.05, 0.0), Point(0.05, 64.0), Point(0.03, 64.0));
  }

  lemma {:induction false} NarrowCentroid()
    ensures HasCentroid([NARROW], CORE)
  {
    hide MomentsOf;
    hide Closed;
    NarrowMoments();
    assert Largest([NARROW], 0) && RingCentroid(NARROW) == CORE;
  }

  lemma {:induction false} InNarrow(p: Point)
    ensures Inside(p, [Polygon(NARROW, [])]) <==> InRectangle(p, 0.03, 0.05, 0.0, 64.0)
  {
    RectangleIsHalfOpen(p, 0.03, 0.05, 0.0, 64.0);
    hide Encloses;
    assert Polygon(NARROW, []) in [Polygon(NARROW, [])];
  }

  /**
   * Nearer to the edge it need not be: the first theme's dot, straight below the centroid of the narrow district, is
   * printed at a point outside.
   */
  lemma {:induction false} PrintedMayLeave()
    ensures HasCentroid([NARROW], CORE)
    ensures var district, p, printed := [Polygon(NARROW, [])], Point(0.04, 11.0), Point(0.0, 11.0);
      && Anchor(CORE, district, Coarse()) == Some(CORE)
      && FirstInside(0, p, CORE, 0.0, -1.0, district)
      && Around(p).Holds(printed) && Inside(p, district) && !Inside(printed, district)
  {
    NarrowCentroid();
    hide HasCentroid;
    InNarrow(CORE);
    InNarrow(Point(0.04, 11.0));
    InNarrow(Point(0.0, 11.0));
    hide Inside;
    AnchorIsInside(CORE, [Polygon(NARROW, [])], Coarse());
    hide Anchor;
    assert RingPoint(CORE, FRACTIONS[0], 0.0, -1.0) == Point(0.04, 11.0);
  }
}

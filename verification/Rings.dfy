/** Ray casting over the linear rings of RFC 7946, section 3.1.6, in exact reals. */
module Rings {
  import opened Reals

  datatype Point = Point(x: real, y: real)

  type Ring = seq<Point>

  predicate Above(v: Point, p: Point) {
    v.y > p.y
  }

  predicate Straddles(p: Point, a: Point, b: Point) {
    Above(a, p) != Above(b, p)
  }

  /** Where the edge from `a` to `b` meets the horizontal line through `p`. */
  function Meeting(p: Point, a: Point, b: Point): real
    requires Straddles(p, a, b)
  {
    Over(Times(b.x - a.x, p.y - a.y), b.y - a.y) + a.x
  }

  /** The edge crosses the ray that leaves `p` to the right. */
  predicate Crosses(p: Point, a: Point, b: Point) {
    Straddles(p, a, b) && p.x < Meeting(p, a, b)
  }

  function Bit(b: bool): nat {
    if b then 1 else 0
  }

  /** How many edges of a path the ray crosses. */
  function Crossings(p: Point, path: seq<Point>): nat {
    if |path| < 2 then 0
    else Crossings(p, path[..|path| - 1]) + Bit(Crosses(p, path[|path| - 2], path[|path| - 1]))
  }

  /** The vertices of a ring and its first one again: the path `zip(ring, ring[1:] + ring[:1])` walks. */
  function Closed(ring: Ring): (path: seq<Point>)
    ensures ring != [] ==> path != [] && path[0] == path[|path| - 1]
  {
    if ring == [] then [] else ring + [ring[0]]
  }

  /** An odd number of crossings. */
  predicate Encloses(ring: Ring, p: Point) {
    Crossings(p, Closed(ring)) % 2 == 1
  }

  /** `_point_in_ring`. */
  method PointInRing(p: Point, ring: Ring) returns (inside: bool)
    ensures inside == Encloses(ring, p)
  {
    inside := false;
    if ring == [] {
      return;
    }
    var ends := ring[1..] + [ring[0]];
    ghost var path := Closed(ring);
    for i := 0 to |ring|
      invariant inside == (Crossings(p, path[..i + 1]) % 2 == 1)
    {
      var a, b := ring[i], ends[i];
      PrefixStep(p, path, i);
      assert path[i] == a && path[i + 1] == b;
      CrossesAsWritten(p, a, b);
      hide Crosses;
      Toggle(Crossings(p, path[..i + 1]), Crosses(p, a, b));
      if Above(a, p) != Above(b, p) && p.x < (b.x - a.x) * (p.y - a.y) / (b.y - a.y) + a.x {
        inside := !inside;
      }
    }
    assert path[..|path|] == path;
  }

  /** The test as the code writes it. */
  lemma {:induction false} CrossesAsWritten(p: Point, a: Point, b: Point)
    ensures Crosses(p, a, b) <==>
      Above(a, p) != Above(b, p) && p.x < (b.x - a.x) * (p.y - a.y) / (b.y - a.y) + a.x
  {
  }

  lemma {:induction false} Toggle(n: nat, b: bool)
    ensures ((n + Bit(b)) % 2 == 1) == ((n % 2 == 1) != b)
  {
  }

  lemma {:induction false} PrefixStep(p: Point, path: seq<Point>, i: nat)
    requires i + 1 < |path|
    ensures Crossings(p, path[..i + 2]) == Crossings(p, path[..i + 1]) + Bit(Crosses(p, path[i], path[i + 1]))
  {
    hide Crosses;
    assert path[..i + 2][..i + 1] == path[..i + 1];
  }

  // ---------------------------------------------------------------------------------------------
  // One edge

  /** How far along the edge the line is met. */
  function Share(p: Point, a: Point, b: Point): real
    requires Straddles(p, a, b)
  {
    Over(p.y - a.y, b.y - a.y)
  }

  lemma {:induction false} OverBetween(e: real, d: real)
    requires (0.0 <= e <= d && d > 0.0) || (d <= e <= 0.0 && d < 0.0)
    ensures 0.0 <= Over(e, d) <= 1.0
  {
    var q := Over(e, d);
    OverBack(e, d);
    if d > 0.0 {
      UnitFactor(q, d);
    } else {
      assert Times(q, -d) == -Times(q, d);
      UnitFactor(q, -d);
    }
  }

  lemma {:induction false} UnitFactor(q: real, d: real)
    requires d > 0.0 && 0.0 <= Times(q, d) <= d
    ensures 0.0 <= q <= 1.0
  {
    assert Times(1.0 - q, d) == d - Times(q, d);
    NonNegativeFactor(q, d);
    NonNegativeFactor(1.0 - q, d);
  }

  lemma {:induction false} MeetingByShare(p: Point, a: Point, b: Point)
    requires Straddles(p, a, b)
    ensures Meeting(p, a, b) == a.x + Times(b.x - a.x, Share(p, a, b))
    ensures 0.0 <= Share(p, a, b) <= 1.0
  {
    OverBetween(p.y - a.y, b.y - a.y);
  }

  /** The meeting point lies between the ends of the edge. */
  lemma {:induction false} MeetingBetween(p: Point, a: Point, b: Point, low: real, high: real)
    requires Straddles(p, a, b) && low <= a.x <= high && low <= b.x <= high
    ensures low <= Meeting(p, a, b) <= high
  {
    var t, w := Share(p, a, b), b.x - a.x;
    MeetingByShare(p, a, b);
    if w >= 0.0 {
      TimesMonotone(0.0, w, t);
      TimesMonotone(t, 1.0, w);
      assert Times(t, w) == Times(w, t);
    } else {
      TimesMonotone(w, 0.0, t);
      TimesMonotone(t, 1.0, -w);
      assert Times(t, -w) == -Times(w, t);
    }
  }

  lemma {:induction false} Complement(t: real, d: real)
    ensures Times(1.0 - t, -d) == Times(t, d) - d
  {
  }

  /** Walking the edge the other way meets the line at the same point. */
  lemma {:induction false} MeetingBackwards(p: Point, a: Point, b: Point)
    requires Straddles(p, a, b)
    ensures Meeting(p, b, a) == Meeting(p, a, b)
  {
    MeetingByShare(p, a, b);
    MeetingByShare(p, b, a);
    var t, d, w := Share(p, a, b), b.y - a.y, b.x - a.x;
    OverBack(p.y - a.y, d);
    Complement(t, d);
    OverIs(p.y - b.y, 1.0 - t, -d);
    assert Share(p, b, a) == 1.0 - t;
    Complement(t, w);
    assert Times(-w, 1.0 - t) == Times(1.0 - t, -w) && Times(w, t) == Times(t, w);
  }

  lemma {:induction false} CrossesBackwards(p: Point, a: Point, b: Point)
    ensures Crosses(p, a, b) == Crosses(p, b, a)
  {
    if Straddles(p, a, b) {
      MeetingBackwards(p, a, b);
    }
  }

  // ---------------------------------------------------------------------------------------------
  // Paths

  lemma {:induction false} CrossingsStep(p: Point, path: seq<Point>, v: Point)
    requires path != []
    ensures Crossings(p, path + [v]) == Crossings(p, path) + Bit(Crosses(p, path[|path| - 1], v))
  {
    hide Crosses;
    assert (path + [v])[..|path|] == path;
  }

  /** Crossings add up where two paths are joined at `m`. */
  lemma {:induction false} CrossingsJoin(p: Point, a: seq<Point>, m: Point, b: seq<Point>)
    ensures Crossings(p, a + [m] + b) == Crossings(p, a + [m]) + Crossings(p, [m] + b)
    decreases |b|
  {
    hide Crosses;
    if b == [] {
      assert a + [m] + b == a + [m] && [m] + b == [m];
    } else {
      var init, v := b[..|b| - 1], b[|b| - 1];
      CrossingsJoin(p, a, m, init);
      assert a + [m] + b == (a + [m] + init) + [v] && [m] + b == ([m] + init) + [v];
      CrossingsStep(p, a + [m] + init, v);
      CrossingsStep(p, [m] + init, v);
      LastOf(a, [m] + init);
    }
  }

  lemma {:induction false} LastOf(a: seq<Point>, b: seq<Point>)
    requires b != []
    ensures (a + b)[|a + b| - 1] == b[|b| - 1]
    ensures forall m, c :: b == [m] + c ==> a + [m] + c == a + b
  {
  }

  function Reverse(s: seq<Point>): (r: seq<Point>)
    ensures |r| == |s| && (s != [] ==> r[|r| - 1] == s[0])
  {
    if s == [] then [] else Reverse(s[1..]) + [s[0]]
  }

  lemma {:induction false} ReverseSnoc(s: seq<Point>, v: Point)
    ensures Reverse(s + [v]) == [v] + Reverse(s)
  {
    if s != [] {
      ReverseSnoc(s[1..], v);
      assert (s + [v])[1..] == s[1..] + [v];
    }
  }

  lemma {:induction false} CrossingsReversed(p: Point, path: seq<Point>)
    ensures Crossings(p, Reverse(path)) == Crossings(p, path)
  {
    hide Crosses;
    if |path| >= 2 {
      var rest, a, b := path[1..], path[0], path[1];
      CrossingsReversed(p, rest);
      CrossingsStep(p, Reverse(rest), a);
      CrossesBackwards(p, a, b);
      CrossingsJoin(p, [a], b, rest[1..]);
      assert [a] + [b] + rest[1..] == path && [b] + rest[1..] == rest;
      assert Crossings(p, [a] + [b]) == Bit(Crosses(p, a, b)) by { CrossingsStep(p, [a], b); }
    }
  }

  // ---------------------------------------------------------------------------------------------
  // Rotating, reversing and closing a ring again

  /** It does not matter which vertex a ring starts at. */
  lemma {:induction false} RotationInvariant(p: Point, a: Ring, b: Ring)
    ensures Encloses(a + b, p) == Encloses(b + a, p)
  {
    hide Crosses;
    if a == [] || b == [] {
      assert a + b == b + a;
    } else {
      assert a == [a[0]] + a[1..] && b == [b[0]] + b[1..];
      RotatedCrossings(p, a, b[0], b[1..]);
      RotatedCrossings(p, b, a[0], a[1..]);
    }
  }

  lemma {:induction false} RotatedCrossings(p: Point, a: Ring, m: Point, b: Ring)
    requires a != []
    ensures Crossings(p, Closed(a + ([m] + b))) == Crossings(p, a + [m]) + Crossings(p, ([m] + b) + [a[0]])
  {
    hide Crosses;
    CrossingsJoin(p, a, m, b + [a[0]]);
    Rejoined(a, [m], b, [a[0]]);
  }

  lemma {:induction false} Rejoined(a: seq<Point>, m: seq<Point>, b: seq<Point>, c: seq<Point>)
    ensures a + m + (b + c) == a + (m + b) + c && m + (b + c) == m + b + c
  {
  }

  /** Nor which way round it runs. */
  lemma {:induction false} ReversalInvariant(p: Point, ring: Ring)
    ensures Encloses(Reverse(ring), p) == Encloses(ring, p)
  {
    hide Crosses;
    if ring != [] {
      var init, last := ring[..|ring| - 1], ring[|ring| - 1];
      assert ring == init + [last];
      ReverseSnoc(init, last);
      ReverseSnoc([last] + init, last);
      assert Reverse([last] + init) == Reverse(init) + [last] by { assert ([last] + init)[1..] == init; }
      assert Closed(Reverse(ring)) == Reverse([last] + init + [last]);
      CrossingsReversed(p, [last] + init + [last]);
      assert Closed([last] + init) == [last] + init + [last];
      RotationInvariant(p, [last], init);
    }
  }

  /** Repeating the first vertex at the end, as RFC 7946 requires, changes nothing. */
  lemma {:induction false} ReclosingInvariant(p: Point, ring: Ring)
    ensures Encloses(Closed(ring), p) == Encloses(ring, p)
  {
    if ring != [] {
      CrossingsStep(p, Closed(ring), ring[0]);
      assert Closed(Closed(ring)) == Closed(ring) + [ring[0]];
    }
  }

  // ---------------------------------------------------------------------------------------------
  // Outside the bounding box

  function Straddlings(p: Point, path: seq<Point>): nat {
    if |path| < 2 then 0
    else Straddlings(p, path[..|path| - 1]) + Bit(Straddles(p, path[|path| - 2], path[|path| - 1]))
  }

  /** A path changes sides an odd number of times exactly when its ends are on different sides. */
  lemma {:induction false} StraddlingParity(p: Point, path: seq<Point>)
    requires path != []
    ensures Straddlings(p, path) % 2 == 1 <==> Above(path[0], p) != Above(path[|path| - 1], p)
  {
    if |path| >= 2 {
      StraddlingParity(p, path[..|path| - 1]);
    }
  }

  lemma {:induction false} AllToTheRight(p: Point, path: seq<Point>, high: real)
    requires forall i :: 0 <= i < |path| ==> p.x < path[i].x <= high
    ensures Crossings(p, path) == Straddlings(p, path)
  {
    if |path| >= 2 {
      AllToTheRight(p, path[..|path| - 1], high);
      var a, b := path[|path| - 2], path[|path| - 1];
      if Straddles(p, a, b) {
        MeetingBetween(p, a, b, if a.x < b.x then a.x else b.x, high);
      }
    }
  }

  lemma {:induction false} NoneToTheRight(p: Point, path: seq<Point>, low: real)
    requires forall i :: 0 <= i < |path| ==> low <= path[i].x <= p.x
    ensures Crossings(p, path) == 0
  {
    if |path| >= 2 {
      NoneToTheRight(p, path[..|path| - 1], low);
      var a, b := path[|path| - 2], path[|path| - 1];
      if Straddles(p, a, b) {
        MeetingBetween(p, a, b, low, p.x);
      }
    }
  }

  lemma {:induction false} OneSided(p: Point, path: seq<Point>, side: bool)
    requires forall i :: 0 <= i < |path| ==> Above(path[i], p) == side
    ensures Crossings(p, path) == 0
  {
    if |path| >= 2 {
      OneSided(p, path[..|path| - 1], side);
    }
  }

  /** A bound on both sides of the coordinates of a path. */
  lemma {:induction false} Bounds(path: seq<Point>) returns (low: real, high: real)
    ensures forall i :: 0 <= i < |path| ==> low <= path[i].x <= high
  {
    if path == [] {
      low, high := 0.0, 0.0;
    } else {
      low, high := Bounds(path[..|path| - 1]);
      var x := path[|path| - 1].x;
      low := if x < low then x else low;
      high := if x > high then x else high;
    }
  }

  /** No ring encloses a point on or beyond the right and top sides of its box, or beyond the left and bottom ones. */
  lemma {:induction false} OutsideTheBox(p: Point, ring: Ring)
    requires || (forall v :: v in ring ==> p.x < v.x)
             || (forall v :: v in ring ==> v.x <= p.x)
             || (forall v :: v in ring ==> p.y < v.y)
             || (forall v :: v in ring ==> v.y <= p.y)
    ensures !Encloses(ring, p)
  {
    var path := Closed(ring);
    var low, high := Bounds(path);
    assert forall i :: 0 <= i < |path| ==> path[i] in ring;
    if forall v :: v in ring ==> p.x < v.x {
      AllToTheRight(p, path, high);
      if path != [] {
        StraddlingParity(p, path);
      }
    } else if forall v :: v in ring ==> v.x <= p.x {
      NoneToTheRight(p, path, low);
    } else if forall v :: v in ring ==> p.y < v.y {
      OneSided(p, path, true);
    } else {
      OneSided(p, path, false);
    }
  }

  // ---------------------------------------------------------------------------------------------
  // Cutting a ring along a chord

  /**
   * Cut the ring u, a, w, b from u to w. A point is in the ring exactly when it is in one of the two parts and not in
   * the other: no point on either side of a shared border is lost or counted twice.
   */
  lemma {:induction false} ChordSplits(p: Point, u: Point, a: seq<Point>, w: Point, b: seq<Point>)
    ensures Encloses([u] + a + [w] + b, p) == (Encloses([u] + a + [w], p) != Encloses([w] + b + [u], p))
  {
    hide Crosses;
    var left, right := [u] + a + [w], [w] + b + [u];
    ChordCrossings(p, u, a, w, b);
    ClosingEdge(p, u, a, w);
    ClosingEdge(p, w, b, u);
    CrossesBackwards(p, u, w);
    ByParity(p, left + b, left, right, Crosses(p, u, w));
  }

  lemma {:induction false} ByParity(p: Point, ring: Ring, left: Ring, right: Ring, b: bool)
    requires Crossings(p, Closed(ring)) == Crossings(p, left) + Crossings(p, right)
    requires Crossings(p, Closed(left)) == Crossings(p, left) + Bit(b)
    requires Crossings(p, Closed(right)) == Crossings(p, right) + Bit(b)
    ensures Encloses(ring, p) == (Encloses(left, p) != Encloses(right, p))
  {
    SameBit(Crossings(p, left), Crossings(p, right), b);
  }

  lemma {:induction false} ChordCrossings(p: Point, u: Point, a: seq<Point>, w: Point, b: seq<Point>)
    ensures Crossings(p, Closed([u] + a + [w] + b)) == Crossings(p, [u] + a + [w]) + Crossings(p, [w] + b + [u])
  {
    hide Crosses;
    CrossingsJoin(p, [u] + a, w, b + [u]);
    Associate([u] + a + [w], b, [u]);
    Associate([w], b, [u]);
    assert ([u] + a + [w] + b)[0] == u;
  }

  lemma {:induction false} Associate(a: seq<Point>, b: seq<Point>, c: seq<Point>)
    ensures a + (b + c) == a + b + c
  {
  }

  lemma {:induction false} ClosingEdge(p: Point, u: Point, a: seq<Point>, w: Point)
    ensures Crossings(p, Closed([u] + a + [w])) == Crossings(p, [u] + a + [w]) + Bit(Crosses(p, w, u))
  {
    hide Crosses;
    CrossingsStep(p, [u] + a + [w], u);
    assert ([u] + a + [w])[0] == u;
  }

  lemma {:induction false} SameBit(m: nat, n: nat, b: bool)
    ensures ((m + n) % 2 == 1) == (((m + Bit(b)) % 2 == 1) != ((n + Bit(b)) % 2 == 1))
  {
  }

  /** An axis-parallel rectangle encloses its points with the left and bottom sides, without the right and top ones. */
  lemma {:induction false} RectangleIsHalfOpen(p: Point, x0: real, x1: real, y0: real, y1: real)
    requires x0 <= x1 && y0 <= y1
    ensures Encloses([Point(x0, y0), Point(x1, y0), Point(x1, y1), Point(x0, y1)], p)
      <==> x0 <= p.x < x1 && y0 <= p.y < y1
  {
    var a, b, c, d := Point(x0, y0), Point(x1, y0), Point(x1, y1), Point(x0, y1);
    CrossingsStep(p, [a], b);
    CrossingsStep(p, [a, b], c);
    CrossingsStep(p, [a, b, c], d);
    CrossingsStep(p, [a, b, c, d], a);
    assert [a] + [b] == [a, b] && [a, b] + [c] == [a, b, c] && [a, b, c] + [d] == [a, b, c, d];
    assert Closed([a, b, c, d]) == [a, b, c, d] + [a];
    if Straddles(p, b, c) {
      MeetingBetween(p, b, c, x1, x1);
      MeetingBetween(p, d, a, x0, x0);
    }
  }
}

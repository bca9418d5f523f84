/** A point can move without changing sides as long as it does not cross a ring: enclosure is locally constant. */
module Clearance {
  import opened Reals
  import opened Rings

  // ---------------------------------------------------------------------------------------------
  // Points of an edge

  /** The point a share `t` of the way along an edge. */
  function At(a: Point, b: Point, t: real): Point {
    Point(a.x + Times(b.x - a.x, t), a.y + Times(b.y - a.y, t))
  }

  /** A rectangle with its sides, which may be a segment. */
  datatype Box = Box(left: real, right: real, low: real, high: real) {
    predicate Holds(v: Point) {
      left <= v.x <= right && low <= v.y <= high
    }
  }

  /** No point of the edge lies in the box. */
  ghost predicate Misses(box: Box, a: Point, b: Point) {
    forall t: real :: 0.0 <= t <= 1.0 ==> !box.Holds(At(a, b, t))
  }

  /** No edge of the path comes into the box. */
  ghost predicate Clear(box: Box, path: seq<Point>) {
    forall i :: 0 <= i < |path| - 1 ==> Misses(box, path[i], path[i + 1])
  }

  lemma {:induction false} Ends(a: Point, b: Point)
    ensures At(a, b, 0.0) == a && At(a, b, 1.0) == b
  {
  }

  lemma {:induction false} MeetingIsAt(p: Point, a: Point, b: Point)
    requires Straddles(p, a, b)
    ensures 0.0 <= Share(p, a, b) <= 1.0 && At(a, b, Share(p, a, b)) == Point(Meeting(p, a, b), p.y)
  {
    MeetingByShare(p, a, b);
    OverBack(p.y - a.y, b.y - a.y);
    assert Times(b.y - a.y, Share(p, a, b)) == Times(Share(p, a, b), b.y - a.y);
  }

  // ---------------------------------------------------------------------------------------------
  // Between two points of an edge

  /** The share that lies a share `f` of the way from `s` to `t`. */
  function Mixed(s: real, t: real, f: real): real {
    s + Times(t - s, f)
  }

  lemma {:induction false} MixedBetween(s: real, t: real, f: real, low: real, high: real)
    requires 0.0 <= f <= 1.0 && low <= s <= high && low <= t <= high
    ensures low <= Mixed(s, t, f) <= high
  {
    if s <= t {
      TimesNonNegative(t - s, f);
      TimesNonNegative(t - s, 1.0 - f);
      assert Times(t - s, 1.0 - f) == (t - s) - Times(t - s, f);
    } else {
      TimesNonNegative(s - t, f);
      TimesNonNegative(s - t, 1.0 - f);
      assert Times(t - s, f) == -Times(s - t, f);
      assert Times(s - t, 1.0 - f) == (s - t) - Times(s - t, f);
    }
  }

  lemma {:induction false} MixedAlong(a: real, d: real, s: real, t: real, f: real)
    ensures a + Times(d, Mixed(s, t, f)) == Mixed(a + Times(d, s), a + Times(d, t), f)
  {
    assert Times(d, s + Times(t - s, f)) == Times(d, s) + Times(d, Times(t - s, f));
    assert Times(d, Times(t - s, f)) == Times(Times(d, t - s), f) by { TimesThrice(d, t - s, f); }
    assert Times(d, t - s) == Times(d, t) - Times(d, s);
  }

  lemma {:induction false} TimesThrice(x: real, y: real, z: real)
    ensures Times(x, Times(y, z)) == Times(Times(x, y), z)
  {
  }

  /** Between two points of an edge, one on each side of a vertical line, it meets the line no higher and no lower. */
  lemma {:induction false} MeetsVertical(a: Point, b: Point, s: real, t: real, box: Box)
    requires 0.0 <= s <= 1.0 && 0.0 <= t <= 1.0 && box.left == box.right
    requires box.low <= At(a, b, s).y <= box.high && box.low <= At(a, b, t).y <= box.high
    requires At(a, b, s).x <= box.left < At(a, b, t).x
    ensures !Misses(box, a, b)
  {
    var u, v := At(a, b, s), At(a, b, t);
    var f := Over(box.left - u.x, v.x - u.x);
    var r := Mixed(s, t, f);
    OverBetween(box.left - u.x, v.x - u.x);
    OverBack(box.left - u.x, v.x - u.x);
    assert Times(v.x - u.x, f) == Times(f, v.x - u.x);
    MixedBetween(s, t, f, 0.0, 1.0);
    MixedAlong(a.x, b.x - a.x, s, t, f);
    MixedAlong(a.y, b.y - a.y, s, t, f);
    MixedBetween(u.y, v.y, f, box.low, box.high);
    assert box.Holds(At(a, b, r));
  }

  /** Points of an edge at the heights of a segment it misses lie on one side of it. */
  lemma {:induction false} SameSide(a: Point, b: Point, s: real, t: real, box: Box)
    requires 0.0 <= s <= 1.0 && 0.0 <= t <= 1.0 && box.left == box.right && Misses(box, a, b)
    requires box.low <= At(a, b, s).y <= box.high && box.low <= At(a, b, t).y <= box.high
    ensures box.left < At(a, b, s).x <==> box.left < At(a, b, t).x
  {
    hide Misses;
    hide At;
    if At(a, b, s).x <= box.left < At(a, b, t).x {
      MeetsVertical(a, b, s, t, box);
    }
    if At(a, b, t).x <= box.left < At(a, b, s).x {
      MeetsVertical(a, b, t, s, box);
    }
  }

  // ---------------------------------------------------------------------------------------------
  // Moving up

  /** To the right of the segment from `p` up to `q`, above the one ray and not above the other. */
  predicate InStrip(p: Point, q: Point, v: Point) {
    p.x < v.x && Above(v, p) && !Above(v, q)
  }

  function Upright(p: Point, q: Point): Box {
    Box(p.x, p.x, p.y, q.y)
  }

  /**
   * An edge that misses the segment crosses one of the two rays and not the other exactly when it enters or leaves the
   * strip.
   */
  lemma {:induction false} StripEdge(p: Point, q: Point, a: Point, b: Point)
    requires p.x == q.x && p.y <= q.y && Misses(Upright(p, q), a, b)
    ensures Crosses(p, a, b) != Crosses(q, a, b) <==> InStrip(p, q, a) != InStrip(p, q, b)
  {
    hide Misses;
    hide Meeting;
    hide At;
    hide Share;
    var box := Upright(p, q);
    Ends(a, b);
    if Straddles(p, a, b) {
      MeetingIsAt(p, a, b);
      if Straddles(q, a, b) {
        MeetingIsAt(q, a, b);
        SameSide(a, b, Share(p, a, b), Share(q, a, b), box);
      } else if Above(b, p) && !Above(b, q) {
        SameSide(a, b, Share(p, a, b), 1.0, box);
      } else if Above(a, p) && !Above(a, q) {
        SameSide(a, b, Share(p, a, b), 0.0, box);
      }
    } else if Straddles(q, a, b) {
      MeetingIsAt(q, a, b);
      if !Above(b, q) {
        SameSide(a, b, Share(q, a, b), 1.0, box);
      } else {
        SameSide(a, b, Share(q, a, b), 0.0, box);
      }
    } else if Above(a, p) && !Above(a, q) {
      SameSide(a, b, 0.0, 1.0, box);
    }
  }

  lemma {:induction false} ClearPrefix(box: Box, path: seq<Point>)
    requires Clear(box, path) && |path| >= 2
    ensures Clear(box, path[..|path| - 1]) && Misses(box, path[|path| - 2], path[|path| - 1])
  {
    hide Misses;
    var front := path[..|path| - 1];
    forall i | 0 <= i < |front| - 1 ensures Misses(box, front[i], front[i + 1]) {
      assert front[i] == path[i] && front[i + 1] == path[i + 1];
    }
    assert path[|path| - 2 + 1] == path[|path| - 1];
  }

  /**
   * Along a path, the two rays are crossed unequally often, modulo two, exactly when it ends on the other side of the
   * strip.
   */
  lemma {:induction false} StripPath(p: Point, q: Point, path: seq<Point>)
    requires p.x == q.x && p.y <= q.y && path != [] && Clear(Upright(p, q), path)
    ensures (Crossings(p, path) % 2 != Crossings(q, path) % 2)
      <==> InStrip(p, q, path[0]) != InStrip(p, q, path[|path| - 1])
  {
    if |path| >= 2 {
      hide InStrip;
      hide Crosses;
      hide Clear;
      hide Misses;
      var front, a, b := path[..|path| - 1], path[|path| - 2], path[|path| - 1];
      ClearPrefix(Upright(p, q), path);
      StripPath(p, q, front);
      StripEdge(p, q, a, b);
      ParityNext(Crossings(p, front), Crossings(q, front), Crosses(p, a, b), Crosses(q, a, b));
    }
  }

  lemma {:induction false} ParityNext(m: nat, n: nat, c: bool, d: bool)
    ensures (m + Bit(c)) % 2 != (n + Bit(d)) % 2 <==> (m % 2 != n % 2) != (c != d)
  {
  }

  // ---------------------------------------------------------------------------------------------
  // Moving across

  function Level(p: Point, q: Point): Box {
    Box(p.x, q.x, p.y, p.y)
  }

  lemma {:induction false} LevelEdge(p: Point, q: Point, a: Point, b: Point)
    requires p.y == q.y && p.x <= q.x && Misses(Level(p, q), a, b)
    ensures Crosses(p, a, b) == Crosses(q, a, b)
  {
    if Straddles(p, a, b) {
      MeetingIsAt(p, a, b);
      assert !Level(p, q).Holds(At(a, b, Share(p, a, b)));
    }
  }

  lemma {:induction false} LevelPath(p: Point, q: Point, path: seq<Point>)
    requires p.y == q.y && p.x <= q.x && Clear(Level(p, q), path)
    ensures Crossings(p, path) == Crossings(q, path)
  {
    if |path| >= 2 {
      hide Crosses;
      hide Clear;
      hide Misses;
      ClearPrefix(Level(p, q), path);
      LevelPath(p, q, path[..|path| - 1]);
      LevelEdge(p, q, path[|path| - 2], path[|path| - 1]);
    }
  }

  // ---------------------------------------------------------------------------------------------
  // Any move within a clear box

  ghost predicate Within(small: Box, box: Box) {
    box.left <= small.left && small.right <= box.right && box.low <= small.low && small.high <= box.high
  }

  lemma {:induction false} ClearWithin(small: Box, box: Box, path: seq<Point>)
    requires Within(small, box) && Clear(box, path)
    ensures Clear(small, path)
  {
    forall i | 0 <= i < |path| - 1 ensures Misses(small, path[i], path[i + 1]) {
      MissesWithin(small, box, path[i], path[i + 1]);
    }
  }

  lemma {:induction false} MissesWithin(small: Box, box: Box, a: Point, b: Point)
    requires Within(small, box) && Misses(box, a, b)
    ensures Misses(small, a, b)
  {
    hide At;
    forall t: real | 0.0 <= t <= 1.0 ensures !small.Holds(At(a, b, t)) {
      assert !box.Holds(At(a, b, t));
    }
  }

  /** Up or down. */
  lemma {:induction false} EncloseUpright(ring: Ring, p: Point, q: Point, box: Box)
    requires p.x == q.x && box.Holds(p) && box.Holds(q) && Clear(box, Closed(ring))
    ensures Encloses(ring, p) == Encloses(ring, q)
  {
    if ring != [] {
      hide Crossings;
      hide Clear;
      hide Closed;
      if p.y <= q.y {
        ClearWithin(Upright(p, q), box, Closed(ring));
        StripPath(p, q, Closed(ring));
      } else {
        ClearWithin(Upright(q, p), box, Closed(ring));
        StripPath(q, p, Closed(ring));
      }
    }
  }

  /** Left or right. */
  lemma {:induction false} EncloseLevel(ring: Ring, p: Point, q: Point, box: Box)
    requires p.y == q.y && box.Holds(p) && box.Holds(q) && Clear(box, Closed(ring))
    ensures Encloses(ring, p) == Encloses(ring, q)
  {
    hide Crossings;
    hide Clear;
    hide Closed;
    if p.x <= q.x {
      ClearWithin(Level(p, q), box, Closed(ring));
      LevelPath(p, q, Closed(ring));
    } else {
      ClearWithin(Level(q, p), box, Closed(ring));
      LevelPath(q, p, Closed(ring));
    }
  }

  /** Where no edge of a ring comes into a box, the ring encloses all of the box or none of it. */
  lemma {:induction false} EnclosesAllOrNone(ring: Ring, box: Box, p: Point, q: Point)
    requires box.Holds(p) && box.Holds(q) && Clear(box, Closed(ring))
    ensures Encloses(ring, p) <==> Encloses(ring, q)
  {
    var corner := Point(q.x, p.y);
    hide Encloses;
    EncloseLevel(ring, p, corner, box);
    EncloseUpright(ring, corner, q, box);
  }
}

/** The interpolated percentile of the benchmark report, over exact reals. */
module BenchPercentile {
  import opened Orders
  import opened Reals

  function Ceiling(r: real): int {
    -((-r).Floor)
  }

  /** A point of the segment from `a` to `b`. */
  function Blend(a: real, b: real, frac: real): real {
    Times(a, 1.0 - frac) + Times(b, frac)
  }

  /** The value at a fractional position of a sorted sample. */
  function At(s: seq<real>, rank: real): real
    requires s != [] && 0.0 <= rank <= (|s| - 1) as real
  {
    var lo, hi := rank.Floor, Ceiling(rank);
    if lo == hi then s[lo] else Blend(s[lo], s[hi], rank - lo as real)
  }

  function Rank(q: real, n: nat): (r: real)
    requires n > 0 && 0.0 <= q <= 100.0
    ensures 0.0 <= r <= (n - 1) as real
  {
    var share := q / 100.0;
    TimesMonotone(0.0, share, (n - 1) as real);
    TimesMonotone(share, 1.0, (n - 1) as real);
    Times(share, (n - 1) as real)
  }

  function SortedValues(values: seq<real>): (r: seq<real>)
    ensures |r| == |values| && Sorted(r, AtMost) && multiset(r) == multiset(values)
  {
    SortCorrect(values, AtMost);
    Sort(values, AtMost)
  }

  function Percentile(values: seq<real>, q: real): real
    requires 0.0 <= q <= 100.0
  {
    if values == [] then 0.0
    else if |values| == 1 then values[0]
    else At(SortedValues(values), Rank(q, |values|))
  }

  // ---------------------------------------------------------------------------------------------
  // Interpolation inside one cell

  lemma {:induction false} BlendClimbs(a: real, b: real, f: real, g: real)
    requires a <= b && f <= g
    ensures Blend(a, b, f) <= Blend(a, b, g)
  {
    TimesMonotone(f, g, b - a);
    assert Blend(a, b, f) == a + Times(f, b - a);
    assert Blend(a, b, g) == a + Times(g, b - a);
  }

  lemma {:induction false} BlendRaised(a: real, b: real, a': real, b': real, f: real)
    requires a <= a' && b <= b' && 0.0 <= f <= 1.0
    ensures Blend(a, b, f) <= Blend(a', b', f)
  {
    TimesMonotone(a, a', 1.0 - f);
    TimesMonotone(b, b', f);
  }

  /** Both ends of a cell included, the value is the blend of the cell's two measurements. */
  lemma {:induction false} AtInCell(s: seq<real>, rank: real, k: nat)
    requires k + 1 < |s| && k as real <= rank <= (k + 1) as real
    ensures At(s, rank) == Blend(s[k], s[k + 1], rank - k as real)
  {
    if rank == k as real {
      assert rank.Floor == k == Ceiling(rank);
    } else if rank == (k + 1) as real {
      assert rank.Floor == k + 1 == Ceiling(rank);
    } else {
      assert rank.Floor == k && Ceiling(rank) == k + 1;
    }
  }

  lemma {:induction false} AtBetweenNeighbours(s: seq<real>, rank: real)
    requires s != [] && Sorted(s, AtMost) && 0.0 <= rank <= (|s| - 1) as real
    ensures s[rank.Floor] <= At(s, rank)
    ensures rank.Floor + 1 < |s| ==> At(s, rank) <= s[rank.Floor + 1]
    ensures At(s, rank) <= s[|s| - 1]
  {
    var k := rank.Floor;
    if k + 1 < |s| {
      AtInCell(s, rank, k);
      assert AtMost(s[k], s[k + 1]);
      assert k + 1 < |s| - 1 ==> AtMost(s[k + 1], s[|s| - 1]);
      BlendClimbs(s[k], s[k + 1], 0.0, rank - k as real);
      BlendClimbs(s[k], s[k + 1], rank - k as real, 1.0);
    }
  }

  lemma {:induction false} AtClimbs(s: seq<real>, r: real, r': real)
    requires s != [] && Sorted(s, AtMost) && 0.0 <= r <= r' <= (|s| - 1) as real
    ensures At(s, r) <= At(s, r')
  {
    var k, k' := r.Floor, r'.Floor;
    AtBetweenNeighbours(s, r);
    AtBetweenNeighbours(s, r');
    if k == k' && k + 1 < |s| {
      AtInCell(s, r, k);
      AtInCell(s, r', k);
      assert AtMost(s[k], s[k + 1]);
      BlendClimbs(s[k], s[k + 1], r - k as real, r' - k as real);
    } else if k < k' {
      assert k + 1 < k' ==> AtMost(s[k + 1], s[k']);
    }
  }

  // ---------------------------------------------------------------------------------------------
  // The percentile

  /** No percentile leaves the range of the measurements, and the two extremes are the ends of that range. */
  lemma {:induction false} PercentileInRange(values: seq<real>, q: real)
    requires values != [] && 0.0 <= q <= 100.0
    ensures exists low :: low in values && low <= Percentile(values, q) && (q == 0.0 ==> low == Percentile(values, q))
    ensures exists high ::
      high in values && Percentile(values, q) <= high && (q == 100.0 ==> high == Percentile(values, q))
    ensures q == 0.0 ==> forall x :: x in values ==> Percentile(values, q) <= x
    ensures q == 100.0 ==> forall x :: x in values ==> x <= Percentile(values, q)
  {
    var s := SortedValues(values);
    MultisetElement(s, values, s[0]);
    MultisetElement(s, values, s[|s| - 1]);
    if |values| > 1 {
      var rank := Rank(q, |s|);
      AtBetweenNeighbours(s, rank);
      assert rank.Floor > 0 ==> AtMost(s[0], s[rank.Floor]);
      forall x | x in values ensures s[0] <= x <= s[|s| - 1] {
        MultisetElement(s, values, x);
        var i :| 0 <= i < |s| && s[i] == x;
        assert i > 0 ==> AtMost(s[0], s[i]);
        assert i < |s| - 1 ==> AtMost(s[i], s[|s| - 1]);
      }
    }
  }

  /** A larger q never gives a smaller percentile, across every breakpoint of the interpolation. */
  lemma {:induction false} PercentileClimbs(values: seq<real>, q: real, q': real)
    requires 0.0 <= q <= q' <= 100.0
    ensures Percentile(values, q) <= Percentile(values, q')
  {
    if |values| > 1 {
      TimesMonotone(q / 100.0, q' / 100.0, (|values| - 1) as real);
      AtClimbs(SortedValues(values), Rank(q, |values|), Rank(q', |values|));
    }
  }

  /** The order of the measurements does not matter. */
  lemma {:induction false} PercentileForgetsOrder(a: seq<real>, b: seq<real>, q: real)
    requires 0.0 <= q <= 100.0 && multiset(a) == multiset(b)
    ensures Percentile(a, q) == Percentile(b, q)
  {
    assert |a| == |multiset(a)| == |multiset(b)| == |b|;
    SortForgetsOrder(a, b, AtMost);
    if |a| == 1 {
      MultisetElement(a, b, a[0]);
    }
  }

  // ---------------------------------------------------------------------------------------------
  // Raising measurements

  ghost predicate Below(a: seq<real>, b: seq<real>) {
    |a| == |b| && forall i :: 0 <= i < |a| ==> a[i] <= b[i]
  }

  lemma {:induction false} InsertHead(s: seq<real>)
    requires s != [] && Sorted(s, AtMost)
    ensures Insert(s[0], s[1..], AtMost) == s
  {
    assert s == [s[0]] + s[1..];
    assert |s| > 1 ==> AtMost(s[0], s[1]);
  }

  lemma {:induction false} InsertBelow(x: real, y: real, s: seq<real>, t: seq<real>)
    requires x <= y && Below(s, t) && Sorted(s, AtMost) && Sorted(t, AtMost)
    ensures Below(Insert(x, s, AtMost), Insert(y, t, AtMost))
    decreases |s|
  {
    if s != [] {
      var s', t' := s[1..], t[1..];
      if AtMost(x, s[0]) && AtMost(y, t[0]) {
      } else if AtMost(x, s[0]) {
        InsertHead(s);
        InsertBelow(s[0], y, s', t');
      } else if AtMost(y, t[0]) {
        InsertHead(t);
        InsertBelow(x, t[0], s', t');
      } else {
        InsertBelow(x, y, s', t');
      }
    }
  }

  /** Raising measurements raises every order statistic. */
  lemma {:induction false} SortBelow(a: seq<real>, b: seq<real>)
    requires Below(a, b)
    ensures Below(Sort(a, AtMost), Sort(b, AtMost))
  {
    if a != [] {
      SortBelow(a[1..], b[1..]);
      SortCorrect(a[1..], AtMost);
      SortCorrect(b[1..], AtMost);
      InsertBelow(a[0], b[0], Sort(a[1..], AtMost), Sort(b[1..], AtMost));
    }
  }

  /** Raising measurements never lowers a percentile. */
  lemma {:induction false} PercentileNeverFalls(a: seq<real>, b: seq<real>, q: real)
    requires 0.0 <= q <= 100.0 && Below(a, b)
    ensures Percentile(a, q) <= Percentile(b, q)
  {
    if |a| > 1 {
      SortBelow(a, b);
      var s, t, rank := SortedValues(a), SortedValues(b), Rank(q, |a|);
      var k := rank.Floor;
      if k + 1 < |s| {
        AtInCell(s, rank, k);
        AtInCell(t, rank, k);
        BlendRaised(s[k], s[k + 1], t[k], t[k + 1], rank - k as real);
      }
    }
  }
}

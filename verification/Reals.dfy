/** Products and quotients of reals, behind names the solver does not expand on its own. */
module Reals {
  import opened Orders

  function Times(x: real, y: real): real {
    x * y
  }

  function Over(x: real, d: real): real
    requires d != 0.0
  {
    x / d
  }

  function Square(x: real): real {
    x * x
  }

  predicate AtMost(x: real, y: real) {
    x <= y
  }

  predicate AtLeast(x: real, y: real) {
    x >= y
  }

  lemma {:induction false} RealOrders()
    ensures TotalOrder(AtMost) && TotalOrder(AtLeast)
  {
  }

  lemma {:induction false} TimesNonNegative(x: real, y: real)
    requires 0.0 <= x && 0.0 <= y
    ensures 0.0 <= Times(x, y)
  {
  }

  lemma {:induction false} PositiveTimes(x: real, y: real)
    requires x > 0.0 && y > 0.0
    ensures Times(x, y) > 0.0
  {
  }

  lemma {:induction false} NonNegativeFactor(x: real, d: real)
    requires d > 0.0 && Times(x, d) >= 0.0
    ensures x >= 0.0
  {
    assert Times(-x, d) == -Times(x, d);
    if x < 0.0 {
      PositiveTimes(-x, d);
    }
  }

  lemma {:induction false} PositiveFactor(x: real, d: real)
    requires d > 0.0 && Times(x, d) > 0.0
    ensures x > 0.0
  {
    NonNegativeFactor(x, d);
    assert x == 0.0 ==> Times(x, d) == 0.0;
  }

  lemma {:induction false} TimesMonotone(x: real, y: real, f: real)
    requires x <= y && 0.0 <= f
    ensures Times(x, f) <= Times(y, f)
  {
    TimesNonNegative(y - x, f);
    assert Times(y, f) - Times(x, f) == Times(y - x, f);
  }

  lemma {:induction false} TimesCommute(x: real, y: real, z: real)
    ensures Times(Times(x, y), z) == Times(Times(x, z), y)
  {
  }

  lemma {:induction false} OverBack(x: real, d: real)
    requires d != 0.0
    ensures Times(Over(x, d), d) == x
  {
  }

  lemma {:induction false} OverIs(x: real, q: real, d: real)
    requires d != 0.0 && Times(q, d) == x
    ensures Over(x, d) == q
  {
  }

  lemma {:induction false} PositiveSquare(x: real)
    requires x > 0.0
    ensures Square(x) > 0.0
  {
    PositiveTimes(x, x);
  }

  lemma {:induction false} SquareSign(x: real)
    ensures Square(x) >= 0.0 && (Square(x) == 0.0 <==> x == 0.0)
  {
    if x > 0.0 {
      PositiveSquare(x);
    } else if x < 0.0 {
      PositiveSquare(-x);
      assert Square(-x) == Square(x);
    }
  }
}

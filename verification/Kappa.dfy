/** Cohen's kappa over the five actionability labels, in exact reals. */
module Kappa {
  import opened Reals
  import opened Wrappers

  datatype ActionLabel = Actionable | Underspecified | Irrelevant | OutOfScope | PolicyBlocked

  // ---------------------------------------------------------------------------------------------
  // Counting

  function Count(s: seq<ActionLabel>, x: ActionLabel): nat {
    if s == [] then 0 else Count(s[..|s| - 1], x) + if s[|s| - 1] == x then 1 else 0
  }

  /** How often both judges gave `x`. */
  function Both(a: seq<ActionLabel>, b: seq<ActionLabel>, x: ActionLabel): nat
    requires |a| == |b|
  {
    if a == [] then 0
    else Both(a[..|a| - 1], b[..|a| - 1], x) + if a[|a| - 1] == x && b[|a| - 1] == x then 1 else 0
  }

  /** On how many items the judges agree. */
  function Agreements(a: seq<ActionLabel>, b: seq<ActionLabel>): nat
    requires |a| == |b|
  {
    if a == [] then 0
    else Agreements(a[..|a| - 1], b[..|a| - 1]) + if a[|a| - 1] == b[|a| - 1] then 1 else 0
  }

  /** The probability that both judges draw `x` by chance. */
  function Chance(a: seq<ActionLabel>, b: seq<ActionLabel>, x: ActionLabel): real
    requires |a| == |b| && a != []
  {
    var n := |a| as real;
    Over(Times(Over(Count(a, x) as real, n), Count(b, x) as real), n)
  }

  function Expected(a: seq<ActionLabel>, b: seq<ActionLabel>): real
    requires |a| == |b| && a != []
  {
    Chance(a, b, Actionable) + Chance(a, b, Underspecified) + Chance(a, b, Irrelevant)
      + Chance(a, b, OutOfScope) + Chance(a, b, PolicyBlocked)
  }

  function Observed(a: seq<ActionLabel>, b: seq<ActionLabel>): real
    requires |a| == |b| && a != []
  {
    Over(Agreements(a, b) as real, |a| as real)
  }

  function KappaOf(observed: real, expected: real): real {
    if expected < 1.0 then Over(observed - expected, 1.0 - expected) else 1.0
  }

  /** `_cohen_kappa`. */
  function CohenKappa(a: seq<ActionLabel>, b: seq<ActionLabel>): Result<real, string> {
    if |a| != |b| || a == [] then Err("kappa requires equally sized non-empty sequences")
    else Ok(KappaOf(Observed(a, b), Expected(a, b)))
  }

  // ---------------------------------------------------------------------------------------------
  // Each judge gives every item one of the five labels

  function Total(f: ActionLabel -> int): int {
    f(Actionable) + f(Underspecified) + f(Irrelevant) + f(OutOfScope) + f(PolicyBlocked)
  }

  lemma {:induction false} CountsAddUp(s: seq<ActionLabel>)
    ensures Total(x => Count(s, x)) == |s|
  {
    if s != [] {
      CountsAddUp(s[..|s| - 1]);
    }
  }

  lemma {:induction false} BothAddUp(a: seq<ActionLabel>, b: seq<ActionLabel>)
    requires |a| == |b|
    ensures Total(x => Both(a, b, x)) == Agreements(a, b) <= |a|
  {
    if a != [] {
      BothAddUp(a[..|a| - 1], b[..|a| - 1]);
    }
  }

  /** A row and its column cover no item twice but those on the diagonal. */
  lemma {:induction false} RowAndColumn(a: seq<ActionLabel>, b: seq<ActionLabel>, x: ActionLabel)
    requires |a| == |b|
    ensures Count(a, x) + Count(b, x) <= |a| + Both(a, b, x)
    ensures Both(a, b, x) <= Count(a, x) <= |a| && Both(a, b, x) <= Count(b, x) <= |a|
  {
    if a != [] {
      RowAndColumn(a[..|a| - 1], b[..|a| - 1], x);
    }
  }

  lemma {:induction false} BothAgree(a: seq<ActionLabel>, b: seq<ActionLabel>, x: ActionLabel)
    requires |a| == |b|
    ensures Both(a, b, x) <= Agreements(a, b)
  {
    if a != [] {
      BothAgree(a[..|a| - 1], b[..|a| - 1], x);
    }
  }

  lemma {:induction false} FullAgreement(a: seq<ActionLabel>, b: seq<ActionLabel>)
    requires |a| == |b|
    ensures Agreements(a, b) == |a| <==> a == b
  {
    if a != [] {
      var a', b' := a[..|a| - 1], b[..|a| - 1];
      FullAgreement(a', b');
      BothAddUp(a', b');
      assert a == a' + [a[|a| - 1]] && b == b' + [b[|a| - 1]];
    }
  }

  // ---------------------------------------------------------------------------------------------
  // In whole numbers

  function Product(m: int, n: int): int {
    m * n
  }

  /** n squared times the expected agreement. */
  function ExpectedCount(a: seq<ActionLabel>, b: seq<ActionLabel>): int {
    Total(x => Product(Count(a, x), Count(b, x)))
  }

  lemma {:induction false} ProductMonotone(m: int, n: int, k: int)
    requires m <= n && 0 <= k
    ensures Product(k, m) <= Product(k, n)
  {
    assert Product(k, n) - Product(k, m) == Product(k, n - m);
    ProductNonNegative(k, n - m);
  }

  lemma {:induction false} ProductNonNegative(m: int, n: int)
    requires 0 <= m && 0 <= n
    ensures 0 <= Product(m, n)
  {
  }

  lemma {:induction false} SquareNonNegative(m: int)
    ensures 0 <= Product(m, m)
  {
  }

  /** Four times a product is at most the square of the sum. */
  lemma {:induction false} FourProducts(x: int, y: int)
    ensures 4 * Product(x, y) <= Product(x + y, x + y)
  {
    SquareNonNegative(x - y);
    assert Product(x - y, x - y) == Product(x, x) - 2 * Product(x, y) + Product(y, y);
    assert Product(x + y, x + y) == Product(x, x) + 2 * Product(x, y) + Product(y, y);
  }

  lemma {:induction false} OneLabel(x: int, y: int, bound: int)
    requires 0 <= x && 0 <= y && x + y <= bound
    ensures 4 * Product(x, y) <= Product(bound, x) + Product(bound, y)
  {
    FourProducts(x, y);
    ProductMonotone(x + y, bound, x + y);
    assert Product(x + y, bound) == Product(bound, x) + Product(bound, y);
  }

  lemma {:induction false} LabelBound(a: seq<ActionLabel>, b: seq<ActionLabel>, x: ActionLabel)
    requires |a| == |b|
    ensures var bound := |a| + Agreements(a, b);
      4 * Product(Count(a, x), Count(b, x)) <= Product(bound, Count(a, x)) + Product(bound, Count(b, x))
  {
    RowAndColumn(a, b, x);
    BothAgree(a, b, x);
    OneLabel(Count(a, x), Count(b, x), |a| + Agreements(a, b));
  }

  lemma {:induction false} Distribute(k: int, f: ActionLabel -> int)
    ensures Product(k, Total(f)) == Total(x => Product(k, f(x)))
  {
    var p, q, r, s, t := f(Actionable), f(Underspecified), f(Irrelevant), f(OutOfScope), f(PolicyBlocked);
    assert Product(k, p + q + r + s + t)
      == Product(k, p) + Product(k, q) + Product(k, r) + Product(k, s) + Product(k, t);
  }

  /** Chance agreement is at most half way between observed agreement and one. */
  lemma {:induction false} ExpectedAtMostHalfway(a: seq<ActionLabel>, b: seq<ActionLabel>)
    requires |a| == |b|
    ensures 2 * ExpectedCount(a, b) <= Product(|a| + Agreements(a, b), |a|)
    ensures 0 <= ExpectedCount(a, b)
  {
    var k := |a| + Agreements(a, b);
    forall x ensures 4 * Product(Count(a, x), Count(b, x)) <= Product(k, Count(a, x)) + Product(k, Count(b, x)) {
      LabelBound(a, b, x);
    }
    forall x ensures 0 <= Product(Count(a, x), Count(b, x)) { ProductNonNegative(Count(a, x), Count(b, x)); }
    CountsAddUp(a);
    CountsAddUp(b);
    Distribute(k, x => Count(a, x));
    Distribute(k, x => Count(b, x));
  }

  // ---------------------------------------------------------------------------------------------
  // From whole numbers to fractions

  lemma {:induction false} ChanceScaled(a: seq<ActionLabel>, b: seq<ActionLabel>, x: ActionLabel)
    requires |a| == |b| && a != []
    ensures Times(Chance(a, b, x), Times(|a| as real, |a| as real)) == Product(Count(a, x), Count(b, x)) as real
  {
    var n, p, q := |a| as real, Count(a, x) as real, Count(b, x) as real;
    ScaledBack(p, q, n);
    ProductInReals(Count(a, x), Count(b, x));
    hide Times;
    hide Over;
    hide Count;
  }

  lemma {:induction false} ProductInReals(p: nat, q: nat)
    ensures Times(p as real, q as real) == Product(p, q) as real
  {
  }

  lemma {:induction false} ScaledBack(p: real, q: real, n: real)
    requires n > 0.0
    ensures Times(Over(Times(Over(p, n), q), n), Times(n, n)) == Times(p, q)
  {
    var u := Times(Over(p, n), q);
    OverBack(u, n);
    OverBack(p, n);
    assert Times(Over(u, n), Times(n, n)) == Times(Times(Over(u, n), n), n);
    TimesCommute(Over(p, n), q, n);
  }

  lemma {:induction false} DistributeReal(p: real, q: real, r: real, s: real, t: real, k: real)
    ensures Times(p + q + r + s + t, k) == Times(p, k) + Times(q, k) + Times(r, k) + Times(s, k) + Times(t, k)
  {
  }

  /** Both agreements, scaled by n squared, are whole numbers. */
  lemma {:induction false} Scaled(a: seq<ActionLabel>, b: seq<ActionLabel>, nn: real)
    requires |a| == |b| && a != [] && nn == Times(|a| as real, |a| as real)
    ensures nn > 0.0 && nn == Product(|a|, |a|) as real
    ensures Times(Expected(a, b), nn) == ExpectedCount(a, b) as real
    ensures Times(Observed(a, b), nn) == Product(Agreements(a, b), |a|) as real
  {
    var n := |a| as real;
    PositiveTimes(n, n);
    forall x ensures Times(Chance(a, b, x), nn) == Product(Count(a, x), Count(b, x)) as real { ChanceScaled(a, b, x); }
    DistributeReal(Chance(a, b, Actionable), Chance(a, b, Underspecified), Chance(a, b, Irrelevant),
                   Chance(a, b, OutOfScope), Chance(a, b, PolicyBlocked), nn);
    ObservedScaled(Agreements(a, b), |a|);
  }

  lemma {:induction false} ObservedScaled(m: nat, n: nat)
    requires n > 0
    ensures Times(Over(m as real, n as real), Times(n as real, n as real)) == Product(m, n) as real
  {
    var x := Over(m as real, n as real);
    OverBack(m as real, n as real);
    assert Times(x, Times(n as real, n as real)) == Times(Times(x, n as real), n as real);
  }

  /** Comparing fractions of n squared is comparing what they are fractions of. */
  lemma {:induction false} Compare(x: real, y: real, nn: real)
    requires nn > 0.0
    ensures x <= y <==> Times(x, nn) <= Times(y, nn)
    ensures x == y <==> Times(x, nn) == Times(y, nn)
  {
    assert Times(y, nn) - Times(x, nn) == Times(y - x, nn);
    if x < y { PositiveTimes(y - x, nn); }
    if x > y { PositiveTimes(x - y, nn); assert Times(x - y, nn) == -Times(y - x, nn); }
  }

  lemma {:induction false} Fractions(a: seq<ActionLabel>, b: seq<ActionLabel>)
    requires |a| == |b| && a != []
    ensures 0.0 <= Expected(a, b) && 2.0 * Expected(a, b) <= 1.0 + Observed(a, b)
    ensures 0.0 <= Observed(a, b) <= 1.0
    ensures Observed(a, b) == 1.0 <==> a == b
  {
    var nn := Times(|a| as real, |a| as real);
    Scaled(a, b, nn);
    ExpectedAtMostHalfway(a, b);
    BothAddUp(a, b);
    FullAgreement(a, b);
    Halfway(Observed(a, b), Expected(a, b), nn, Agreements(a, b), ExpectedCount(a, b), |a|);
    ObservedRange(Agreements(a, b), |a|, Observed(a, b));
  }

  lemma {:induction false} Halfway(o: real, e: real, nn: real, agreements: nat, whole: int, n: nat)
    requires nn > 0.0 && nn == Product(n, n) as real
    requires Times(e, nn) == whole as real && Times(o, nn) == Product(agreements, n) as real
    requires 0 <= whole && 2 * whole <= Product(n + agreements, n)
    ensures 0.0 <= e && 2.0 * e <= 1.0 + o
  {
    Compare(0.0, e, nn);
    Compare(2.0 * e, 1.0 + o, nn);
    assert Times(2.0 * e, nn) == 2.0 * Times(e, nn) && Times(1.0 + o, nn) == nn + Times(o, nn) && Times(0.0, nn) == 0.0;
    assert Product(n + agreements, n) == Product(n, n) + Product(agreements, n);
  }

  lemma {:induction false} ObservedRange(m: nat, n: nat, o: real)
    requires 0 < n && m <= n && o == Over(m as real, n as real)
    ensures 0.0 <= o <= 1.0 && (o == 1.0 <==> m == n)
  {
    var k := n as real;
    OverBack(m as real, k);
    Compare(0.0, o, k);
    Compare(o, 1.0, k);
    assert Times(0.0, k) == 0.0 && Times(1.0, k) == k;
  }

  lemma {:induction false} KappaRange(o: real, e: real)
    requires 0.0 <= e && 2.0 * e <= 1.0 + o && 0.0 <= o <= 1.0
    ensures -1.0 <= KappaOf(o, e) <= o
    ensures KappaOf(o, e) == 1.0 <==> o == 1.0
    ensures e < 1.0 ==> (KappaOf(o, e) >= 0.0 <==> o >= e)
  {
    if e < 1.0 {
      var k, d := KappaOf(o, e), 1.0 - e;
      OverBack(o - e, d);
      Compare(-1.0, k, d);
      Compare(k, o, d);
      Compare(k, 1.0, d);
      Compare(0.0, k, d);
      assert Times(-1.0, d) == -d && Times(1.0, d) == d && Times(0.0, d) == 0.0;
    }
  }

  /**
   * Kappa lies between -1 and the observed agreement; it is 1 exactly when the judges agree on every item; and the
   * guard for `expected == 1` is reached only then.
   */
  lemma {:induction false} KappaBounds(a: seq<ActionLabel>, b: seq<ActionLabel>)
    requires |a| == |b| && a != []
    ensures CohenKappa(a, b).Ok?
    ensures -1.0 <= CohenKappa(a, b).value <= Observed(a, b)
    ensures CohenKappa(a, b).value == 1.0 <==> a == b
    ensures Expected(a, b) >= 1.0 ==> a == b
    ensures Expected(a, b) <= 1.0
    ensures Expected(a, b) < 1.0 ==> (CohenKappa(a, b).value >= 0.0 <==> Observed(a, b) >= Expected(a, b))
  {
    Fractions(a, b);
    KappaRange(Observed(a, b), Expected(a, b));
  }

  /** The lower bound is reached: two judges who swap two labels. */
  lemma {:induction false} MinusOneIsReached()
    ensures CohenKappa([Actionable, Irrelevant], [Irrelevant, Actionable]) == Ok(-1.0)
  {
    var a, b := [Actionable, Irrelevant], [Irrelevant, Actionable];
    assert a[..1] == [Actionable] && b[..1] == [Irrelevant];
    forall x ensures Count(a, x) == (if x == Actionable || x == Irrelevant then 1 else 0) == Count(b, x) {
      assert Count(a, x) == Count([Actionable], x) + if Irrelevant == x then 1 else 0;
      assert Count(b, x) == Count([Irrelevant], x) + if Actionable == x then 1 else 0;
    }
    assert Agreements(a, b) == Agreements(a[..1], b[..1]) == 0;
    Halves(a, b);
  }

  lemma {:induction false} Halves(a: seq<ActionLabel>, b: seq<ActionLabel>)
    requires |a| == |b| == 2 && Agreements(a, b) == 0
    requires forall x :: Count(a, x) == (if x == Actionable || x == Irrelevant then 1 else 0) == Count(b, x)
    ensures CohenKappa(a, b) == Ok(-1.0)
  {
    assert Chance(a, b, Actionable) == 0.25 == Chance(a, b, Irrelevant);
    assert Chance(a, b, Underspecified) == 0.0 == Chance(a, b, OutOfScope) == Chance(a, b, PolicyBlocked);
    assert Expected(a, b) == 0.5 && Observed(a, b) == 0.0;
  }

  lemma {:induction false} ChanceSymmetric(a: seq<ActionLabel>, b: seq<ActionLabel>, x: ActionLabel)
    requires |a| == |b| && a != []
    ensures Chance(a, b, x) == Chance(b, a, x)
  {
    QuotientsCommute(Count(a, x) as real, Count(b, x) as real, |a| as real);
  }

  lemma {:induction false} QuotientsCommute(p: real, q: real, n: real)
    requires n > 0.0
    ensures Times(Over(p, n), q) == Times(Over(q, n), p)
  {
  }

  /** The judges can be exchanged. */
  lemma {:induction false} KappaSymmetric(a: seq<ActionLabel>, b: seq<ActionLabel>)
    ensures CohenKappa(a, b) == CohenKappa(b, a)
  {
    if |a| == |b| && a != [] {
      AgreementsSymmetric(a, b);
      forall x ensures Chance(a, b, x) == Chance(b, a, x) { ChanceSymmetric(a, b, x); }
      hide Chance;
    }
  }

  lemma {:induction false} AgreementsSymmetric(a: seq<ActionLabel>, b: seq<ActionLabel>)
    requires |a| == |b|
    ensures Agreements(a, b) == Agreements(b, a)
  {
    if a != [] {
      AgreementsSymmetric(a[..|a| - 1], b[..|a| - 1]);
    }
  }
}

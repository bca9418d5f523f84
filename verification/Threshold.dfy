/** Choosing the abstention threshold: a finite search that is optimal over every real threshold. */
module Threshold {
  import opened Wrappers
  import opened Collecting
  import opened Orders
  import opened Reals

  /** A held-out prediction: its gold label, the probability of every label, and its weight. */
  datatype Example = Example(gold: string, probabilities: map<string, real>, weight: nat)

  // ---------------------------------------------------------------------------------------------
  // The predicted label and its confidence

  /** The sort key of `_ranked`: most probable first, then by name. */
  predicate RankedBefore(e: Example, x: string, y: string)
    requires x in e.probabilities && y in e.probabilities
  {
    e.probabilities[x] > e.probabilities[y] || (e.probabilities[x] == e.probabilities[y] && StringLeq(x, y))
  }

  /** The first of the labels in rank order. */
  function Predicted(e: Example, labels: seq<string>): (top: string)
    requires labels != [] && forall l :: l in labels ==> l in e.probabilities
    ensures top in labels && forall l :: l in labels ==> RankedBefore(e, top, l)
  {
    StringOrder();
    if |labels| == 1 then labels[0]
    else
      var rest := Predicted(e, labels[1..]);
      assert labels == [labels[0]] + labels[1..];
      if RankedBefore(e, labels[0], rest) then labels[0] else rest
  }

  function Confidence(e: Example, labels: seq<string>): real
    requires labels != [] && forall l :: l in labels ==> l in e.probabilities
  {
    e.probabilities[Predicted(e, labels)]
  }

  /** What the metrics function demands of its examples, once it has validated them. */
  ghost predicate Validated(examples: seq<Example>, labels: seq<string>) {
    && labels != [] && Distinct(labels)
    && forall i :: 0 <= i < |examples| ==> ValidExample(examples[i], labels)
  }

  ghost predicate ValidExample(e: Example, labels: seq<string>) {
    && e.weight >= 1 && e.gold in labels
    && e.probabilities.Keys == Elements(labels)
    && forall l :: l in e.probabilities ==> 0.0 <= e.probabilities[l] <= 1.0
  }

  /** The largest of some values: `max(example.probabilities.values())`. */
  ghost predicate IsLargest(m: real, e: Example) {
    m in e.probabilities.Values && forall l :: l in e.probabilities ==> e.probabilities[l] <= m
  }

  /** The label no other is ranked before. */
  ghost predicate RanksFirst(top: string, e: Example) {
    top in e.probabilities && forall l :: l in e.probabilities ==> RankedBefore(e, top, l)
  }

  lemma {:induction false} OneRanksFirst(e: Example, labels: seq<string>, l: string)
    requires labels != [] && e.probabilities.Keys == Elements(labels)
    ensures forall l :: l in labels ==> l in e.probabilities
    ensures RanksFirst(l, e) <==> l == Predicted(e, labels)
  {
    StringOrder();
    var top := Predicted(e, labels);
    if RanksFirst(l, e) {
      assert RankedBefore(e, l, top) && RankedBefore(e, top, l);
    }
  }

  /** The confidence of the predicted label is the largest probability, whichever way ties are broken. */
  lemma {:induction false} ConfidenceIsLargest(e: Example, labels: seq<string>)
    requires labels != [] && e.probabilities.Keys == Elements(labels)
    ensures forall l :: l in labels ==> l in e.probabilities
    ensures forall m :: IsLargest(m, e) <==> m == Confidence(e, labels)
  {
    var top := Predicted(e, labels);
    assert e.probabilities[top] in e.probabilities.Values;
    forall l | l in e.probabilities ensures e.probabilities[l] <= e.probabilities[top] {
      assert RankedBefore(e, top, l);
    }
    forall m | IsLargest(m, e) ensures m == e.probabilities[top] {
      var l :| l in e.probabilities && e.probabilities[l] == m;
    }
  }

  // ---------------------------------------------------------------------------------------------
  // Coverage and selective accuracy

  datatype Scored = Scored(confidence: real, correct: bool, weight: nat)

  function Score(e: Example, labels: seq<string>): Scored
    requires labels != [] && forall l :: l in labels ==> l in e.probabilities
  {
    Scored(Confidence(e, labels), Predicted(e, labels) == e.gold, e.weight)
  }

  function Retained(s: seq<Scored>, t: real): nat {
    if s == [] then 0 else Retained(s[1..], t) + if s[0].confidence >= t then s[0].weight else 0
  }

  function RetainedCorrect(s: seq<Scored>, t: real): nat {
    if s == [] then 0
    else RetainedCorrect(s[1..], t) + if s[0].confidence >= t && s[0].correct then s[0].weight else 0
  }

  function Weight(s: seq<Scored>): nat {
    if s == [] then 0 else Weight(s[1..]) + s[0].weight
  }

  function SafeRatio(numerator: nat, denominator: nat): real {
    if denominator == 0 then 0.0 else numerator as real / denominator as real
  }

  /** The two metrics the selection reads, and the threshold they belong to. */
  datatype Metrics = Metrics(threshold: real, coverage: real, accuracy: real)

  function MetricsAt(s: seq<Scored>, t: real): Metrics {
    Metrics(t, SafeRatio(Retained(s, t), Weight(s)), SafeRatio(RetainedCorrect(s, t), Retained(s, t)))
  }

  /** Both thresholds keep the same examples. */
  ghost predicate KeepSame(s: seq<Scored>, t: real, u: real) {
    forall i :: 0 <= i < |s| ==> (s[i].confidence >= t <==> s[i].confidence >= u)
  }

  lemma {:induction false} SameMetrics(s: seq<Scored>, t: real, u: real)
    requires KeepSame(s, t, u)
    ensures Retained(s, t) == Retained(s, u) && RetainedCorrect(s, t) == RetainedCorrect(s, u)
  {
    if s != [] {
      assert forall i :: 0 <= i < |s[1..]| ==> s[1..][i] == s[i + 1];
      SameMetrics(s[1..], t, u);
    }
  }

  // ---------------------------------------------------------------------------------------------
  // Every real threshold has a candidate that keeps the same examples

  ghost predicate UnitScores(s: seq<Scored>) {
    forall i :: 0 <= i < |s| ==> 0.0 <= s[i].confidence <= 1.0
  }

  /** The thresholds tried: both ends, and every confidence. */
  function Confidences(s: seq<Scored>): set<real> {
    set i | 0 <= i < |s| :: s[i].confidence
  }

  function Tried(s: seq<Scored>): set<real> {
    {0.0, 1.0} + Confidences(s)
  }

  /** The least value of a set that `t` does not exceed. */
  lemma {:induction false} LeastFrom(c: set<real>, t: real) returns (m: real)
    requires exists x :: x in c && t <= x
    ensures m in c && t <= m && forall x :: x in c && t <= x ==> m <= x
    decreases |c|
  {
    m :| m in c && t <= m;
    var rest, first := c - {m}, m;
    assert forall x :: x in c ==> x == first || x in rest;
    if exists x :: x in rest && t <= x {
      var least := LeastFrom(rest, t);
      m := if least < m then least else m;
    }
  }

  /** The greatest value of a set that does not exceed `t`. */
  lemma {:induction false} GreatestTo(c: set<real>, t: real) returns (m: real)
    requires exists x :: x in c && x <= t
    ensures m in c && m <= t && forall x :: x in c && x <= t ==> x <= m
    decreases |c|
  {
    m :| m in c && m <= t;
    var rest, first := c - {m}, m;
    assert forall x :: x in c ==> x == first || x in rest;
    if exists x :: x in rest && x <= t {
      var greatest := GreatestTo(rest, t);
      m := if greatest > m then greatest else m;
    }
  }

  /** The least candidate not below `t` keeps exactly what `t` keeps. */
  lemma {:induction false} CandidateFor(s: seq<Scored>, t: real) returns (c: real)
    requires UnitScores(s) && 0.0 <= t <= 1.0
    ensures c in Tried(s) && t <= c <= 1.0 && KeepSame(s, t, c)
  {
    assert 1.0 in Tried(s);
    c := LeastFrom(Tried(s), t);
    forall i | 0 <= i < |s| ensures s[i].confidence >= t <==> s[i].confidence >= c {
      assert s[i].confidence in Confidences(s);
    }
  }

  /** Were retention strict, the greatest candidate not above `t` would keep exactly what `t` keeps. */
  lemma {:induction false} StrictCandidateFor(s: seq<Scored>, t: real) returns (c: real)
    requires UnitScores(s) && 0.0 <= t <= 1.0
    ensures c in Tried(s) && 0.0 <= c <= t
    ensures forall i :: 0 <= i < |s| ==> (s[i].confidence > t <==> s[i].confidence > c)
  {
    assert 0.0 in Tried(s);
    c := GreatestTo(Tried(s), t);
    forall i | 0 <= i < |s| ensures s[i].confidence > t <==> s[i].confidence > c {
      assert s[i].confidence in Confidences(s);
    }
  }

  // ---------------------------------------------------------------------------------------------
  // The selection

  /** Comparison by coverage, then accuracy, then threshold. */
  predicate ByCoverage(x: Metrics, y: Metrics) {
    || x.coverage < y.coverage
    || (x.coverage == y.coverage && x.accuracy < y.accuracy)
    || (x.coverage == y.coverage && x.accuracy == y.accuracy && x.threshold <= y.threshold)
  }

  /** Comparison by accuracy, then coverage, then threshold. */
  predicate ByAccuracy(x: Metrics, y: Metrics) {
    || x.accuracy < y.accuracy
    || (x.accuracy == y.accuracy && x.coverage < y.coverage)
    || (x.accuracy == y.accuracy && x.coverage == y.coverage && x.threshold <= y.threshold)
  }

  /** `max` with a key: the first of the greatest. */
  function MaxBy(s: seq<Metrics>, leq: (Metrics, Metrics) -> bool): (m: Metrics)
    requires s != [] && TotalPreorder(leq)
    ensures m in s && forall x :: x in s ==> leq(x, m)
  {
    FirstLeast(s, (x: Metrics, y: Metrics) => leq(y, x))
  }

  predicate Covers(m: Metrics, minCoverage: real) {
    m.coverage >= minCoverage
  }

  predicate Eligible(m: Metrics, minAccuracy: real, minCoverage: real) {
    m.accuracy >= minAccuracy && Covers(m, minCoverage)
  }

  function AllMetrics(s: seq<Scored>, thresholds: seq<real>): (r: seq<Metrics>)
    ensures |r| == |thresholds|
    ensures forall i :: 0 <= i < |r| ==> r[i] == MetricsAt(s, thresholds[i])
  {
    seq(|thresholds|, i requires 0 <= i < |thresholds| => MetricsAt(s, thresholds[i]))
  }

  function Choose(candidates: seq<Metrics>, minAccuracy: real, minCoverage: real): Metrics
    requires candidates != []
  {
    var eligible := Where(candidates, (m: Metrics) => Eligible(m, minAccuracy, minCoverage));
    var covering := Where(candidates, (m: Metrics) => Covers(m, minCoverage));
    if eligible != [] then MaxBy(eligible, ByCoverage)
    else if covering != [] then MaxBy(covering, ByAccuracy)
    else MaxBy(candidates, ByAccuracy)
  }

  function Scores(examples: seq<Example>, labels: seq<string>): (r: seq<Scored>)
    requires labels != [] && forall i, l :: 0 <= i < |examples| && l in labels ==> l in examples[i].probabilities
    ensures |r| == |examples| && forall i :: 0 <= i < |r| ==> r[i] == Score(examples[i], labels)
  {
    seq(|examples|, i requires 0 <= i < |examples| => Score(examples[i], labels))
  }

  method SelectAbstentionThreshold(examples: seq<Example>, labels: seq<string>, minAccuracy: real, minCoverage: real)
    returns (r: Result<Metrics, string>, ghost s: seq<Scored>)
    requires Validated(examples, labels)
    ensures r.Ok? <==> 0.0 <= minAccuracy <= 1.0 && 0.0 <= minCoverage <= 1.0 && examples != []
    ensures r.Ok? ==> |s| == |examples|
    ensures r.Ok? ==> Optimal(r.value, s, minAccuracy, minCoverage)
    ensures r.Ok? ==> UnitScores(s) && ScoresOf(s, examples, labels)
  {
    s := [];
    if !(0.0 <= minAccuracy <= 1.0) {
      return Err("min_selective_accuracy must be in [0, 1]"), s;
    }
    if !(0.0 <= minCoverage <= 1.0) {
      return Err("min_coverage must be in [0, 1]"), s;
    }
    if examples == [] {
      return Err("IndexError"), s;
    }
    var scored := Scores(examples, labels);
    s := scored;
    ScoresLargest(examples, labels);
    var chosen := ChooseFrom(scored, minAccuracy, minCoverage);
    return Ok(chosen), s;
  }

  /** Candidate metrics over the sorted thresholds, and the keyed maximum of those that qualify. */
  method ChooseFrom(s: seq<Scored>, minAccuracy: real, minCoverage: real) returns (m: Metrics)
    requires UnitScores(s)
    ensures Optimal(m, s, minAccuracy, minCoverage)
  {
    var order := SortedSet(Tried(s), AtMost);
    var candidates := AllMetrics(s, order);
    CandidatesComplete(s, order, candidates);
    ChooseIsOptimal(s, candidates, minAccuracy, minCoverage);
    m := Choose(candidates, minAccuracy, minCoverage);
  }

  lemma {:induction false} ScoresLargest(examples: seq<Example>, labels: seq<string>)
    requires Validated(examples, labels)
    requires forall i, l :: 0 <= i < |examples| && l in labels ==> l in examples[i].probabilities
    ensures ScoresOf(Scores(examples, labels), examples, labels)
  {
    forall i | 0 <= i < |examples|
      ensures IsLargest(Score(examples[i], labels).confidence, examples[i])
      ensures Score(examples[i], labels).correct <==> RanksFirst(examples[i].gold, examples[i])
    {
      ConfidenceIsLargest(examples[i], labels);
      OneRanksFirst(examples[i], labels, examples[i].gold);
    }
  }

  ghost predicate ScoresOf(s: seq<Scored>, examples: seq<Example>, labels: seq<string>) {
    |s| == |examples| && forall i :: 0 <= i < |s| ==>
      (&& IsLargest(s[i].confidence, examples[i]) && s[i].weight == examples[i].weight
       && (s[i].correct <==> RanksFirst(examples[i].gold, examples[i])))
  }

  /** The candidates are metrics of thresholds in range, and hold the metrics of every threshold tried. */
  ghost predicate Complete(s: seq<Scored>, candidates: seq<Metrics>) {
    && (forall m :: m in candidates ==> 0.0 <= m.threshold <= 1.0 && m == MetricsAt(s, m.threshold))
    && (forall t :: t in Tried(s) ==> MetricsAt(s, t) in candidates)
  }

  lemma {:induction false} CandidatesComplete(s: seq<Scored>, order: seq<real>, candidates: seq<Metrics>)
    requires UnitScores(s) && Elements(order) == Tried(s) && candidates == AllMetrics(s, order)
    ensures Complete(s, candidates) && candidates != []
  {
    forall m | m in candidates ensures 0.0 <= m.threshold <= 1.0 && m == MetricsAt(s, m.threshold) {
      var i :| 0 <= i < |candidates| && candidates[i] == m;
      assert order[i] in Elements(order);
    }
    forall t | t in Tried(s) ensures MetricsAt(s, t) in candidates {
      assert t in Elements(order);
      var i :| 0 <= i < |order| && order[i] == t;
      assert candidates[i] == MetricsAt(s, t);
    }
    assert 0.0 in Tried(s);
  }

  /** `m` is at least as good as what the real threshold `t` achieves. */
  ghost predicate Beats(m: Metrics, s: seq<Scored>, t: real, leq: (Metrics, Metrics) -> bool) {
    leq(MetricsAt(s, t), m)
  }

  ghost predicate InUnit(t: real) {
    0.0 <= t <= 1.0
  }

  /** Some real threshold meets both constraints. */
  ghost predicate Feasible(s: seq<Scored>, minAccuracy: real, minCoverage: real) {
    exists t :: InUnit(t) && Eligible(MetricsAt(s, t), minAccuracy, minCoverage)
  }

  /** Some real threshold meets the coverage constraint. */
  ghost predicate Coverable(s: seq<Scored>, minCoverage: real) {
    exists t :: InUnit(t) && Covers(MetricsAt(s, t), minCoverage)
  }

  /**
   * The choice, against every real threshold in [0, 1]. If any meets both constraints, the choice does and has the
   * highest coverage of all that do, then the highest accuracy, and is the largest threshold with both. If none does
   * but some meets the coverage constraint, it has the highest accuracy of those; if none does even that, of all.
   */
  ghost predicate Optimal(m: Metrics, s: seq<Scored>, minAccuracy: real, minCoverage: real) {
    && InUnit(m.threshold) && m == MetricsAt(s, m.threshold)
    && (Feasible(s, minAccuracy, minCoverage) ==> BestEligible(m, s, minAccuracy, minCoverage))
    && (!Feasible(s, minAccuracy, minCoverage) && Coverable(s, minCoverage) ==> BestCovering(m, s, minCoverage))
    && (!Coverable(s, minCoverage) ==> forall t :: InUnit(t) ==> Beats(m, s, t, ByAccuracy))
  }

  ghost predicate BestEligible(m: Metrics, s: seq<Scored>, minAccuracy: real, minCoverage: real) {
    && Eligible(m, minAccuracy, minCoverage)
    && forall t :: InUnit(t) && Eligible(MetricsAt(s, t), minAccuracy, minCoverage) ==> Beats(m, s, t, ByCoverage)
  }

  ghost predicate BestCovering(m: Metrics, s: seq<Scored>, minCoverage: real) {
    && Covers(m, minCoverage)
    && forall t :: InUnit(t) && Covers(MetricsAt(s, t), minCoverage) ==> Beats(m, s, t, ByAccuracy)
  }

  /** What `t` achieves, some candidate achieves at a threshold at least as large. */
  lemma {:induction false} Matched(s: seq<Scored>, candidates: seq<Metrics>, t: real) returns (m: Metrics)
    requires UnitScores(s) && Complete(s, candidates) && InUnit(t)
    ensures m in candidates && m.threshold >= t
    ensures m.coverage == MetricsAt(s, t).coverage && m.accuracy == MetricsAt(s, t).accuracy
  {
    var c := CandidateFor(s, t);
    SameMetrics(s, t, c);
    m := MetricsAt(s, c);
  }

  lemma {:induction false} ChooseIsOptimal(
    s: seq<Scored>, candidates: seq<Metrics>, minAccuracy: real, minCoverage: real)
    requires UnitScores(s) && Complete(s, candidates) && candidates != []
    ensures Optimal(Choose(candidates, minAccuracy, minCoverage), s, minAccuracy, minCoverage)
  {
    WhereMembers(candidates, (m: Metrics) => Eligible(m, minAccuracy, minCoverage));
    WhereMembers(candidates, (m: Metrics) => Covers(m, minCoverage));
    var m := Choose(candidates, minAccuracy, minCoverage);
    var eligible := Where(candidates, (m: Metrics) => Eligible(m, minAccuracy, minCoverage));
    var covering := Where(candidates, (m: Metrics) => Covers(m, minCoverage));
    forall t | InUnit(t) && Eligible(MetricsAt(s, t), minAccuracy, minCoverage)
      ensures eligible != [] && Beats(m, s, t, ByCoverage)
    {
      var c := Matched(s, candidates, t);
      assert c in eligible;
    }
    forall t | InUnit(t) && Covers(MetricsAt(s, t), minCoverage)
      ensures covering != [] && (eligible == [] ==> Beats(m, s, t, ByAccuracy))
    {
      var c := Matched(s, candidates, t);
      assert c in covering;
    }
    forall t | InUnit(t) ensures eligible == [] && covering == [] ==> Beats(m, s, t, ByAccuracy) {
      var c := Matched(s, candidates, t);
    }
    if eligible != [] {
      assert eligible[0] in eligible && Eligible(MetricsAt(s, eligible[0].threshold), minAccuracy, minCoverage);
      assert Feasible(s, minAccuracy, minCoverage);
      assert Coverable(s, minCoverage);
    }
    if covering != [] {
      assert covering[0] in covering && Covers(MetricsAt(s, covering[0].threshold), minCoverage);
      assert Coverable(s, minCoverage);
    }
  }
}

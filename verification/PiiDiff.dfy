/** What the human pass changed: the span diff of one record, matched up greedily. */
module PiiDiff {
  import opened Orders
  import opened PiiGold

  /** The natural order of the key tuples. */
  predicate KeyLeq(a: Span, b: Span) {
    a.start < b.start || (a.start == b.start &&
      (a.end < b.end || (a.end == b.end && StringLeq(a.entity, b.entity))))
  }

  lemma {:induction false} KeyOrder()
    ensures TotalOrder(KeyLeq)
  {
    StringOrder();
  }

  /** `r` lists exactly `s`, each element once, in some order. */
  ghost predicate Lists(r: seq<Span>, s: set<Span>) {
    Distinct(r) && Elements(r) == s
  }

  predicate SameBounds(a: Span, b: Span) {
    a.start == b.start && a.end == b.end
  }

  /** A removed span that a new one can count as a re-bounding of. */
  predicate Matches(c: Span, k: Span) {
    c.entity == k.entity && c.start < k.end && k.start < c.end
  }

  // ---------------------------------------------------------------------------------------------
  // Re-bounding

  /** The index of the first candidate matching `k`, or the length when there is none. */
  function NextMatch(cands: seq<Span>, k: Span): (i: nat)
    ensures i <= |cands|
    ensures i < |cands| ==> Matches(cands[i], k)
    ensures forall j :: 0 <= j < i ==> !Matches(cands[j], k)
  {
    if cands == [] then 0
    else if Matches(cands[0], k) then 0
    else 1 + NextMatch(cands[1..], k)
  }

  /** After the first keys: how many were matched, which were not, and the candidates still unmatched. */
  datatype Matching = Matching(count: nat, left: seq<Span>, cands: seq<Span>)

  function Drop(s: seq<Span>, i: nat): (r: seq<Span>)
    requires i < |s|
    ensures |r| == |s| - 1
  {
    s[..i] + s[i + 1..]
  }

  /** The first loop of `diff`, over `todo`, with the removed spans met in the order `cands`. */
  function Rebound(todo: seq<Span>, cands: seq<Span>, n: nat): Matching
    requires n <= |todo|
  {
    if n == 0 then Matching(0, [], cands)
    else
      var m := Rebound(todo, cands, n - 1);
      var i := NextMatch(m.cands, todo[n - 1]);
      if i < |m.cands| then Matching(m.count + 1, m.left, Drop(m.cands, i))
      else m.(left := m.left + [todo[n - 1]])
  }

  // ---------------------------------------------------------------------------------------------
  // Relabelling

  type Bounds = map<(int, int), string>

  /** `{(s.start, s.end): s.entity for s in spans}`: a later span overwrites an earlier one. */
  function BoundsOf(spans: seq<Span>, n: nat): Bounds
    requires n <= |spans|
  {
    if n == 0 then map[]
    else BoundsOf(spans, n - 1)[(spans[n - 1].start, spans[n - 1].end) := spans[n - 1].entity]
  }

  predicate IsRelabel(bounds: Bounds, k: Span) {
    (k.start, k.end) in bounds && bounds[(k.start, k.end)] != k.entity
  }

  /** The removed span a relabelled one stands for. */
  function Target(bounds: Bounds, k: Span): Span
    requires IsRelabel(bounds, k)
  {
    Span(k.start, k.end, bounds[(k.start, k.end)])
  }

  datatype Relabelling = Relabelling(count: nat, left: seq<Span>, gone: set<Span>)

  /** The second loop of `diff`. */
  function Relabel(todo: seq<Span>, bounds: Bounds, gone: set<Span>, n: nat): Relabelling
    requires n <= |todo|
  {
    if n == 0 then Relabelling(0, [], gone)
    else
      var r := Relabel(todo, bounds, gone, n - 1);
      var k := todo[n - 1];
      if IsRelabel(bounds, k) then Relabelling(r.count + 1, r.left, r.gone - {Target(bounds, k)})
      else r.(left := r.left + [k])
  }

  // ---------------------------------------------------------------------------------------------
  // One record

  datatype RecordDiff = RecordDiff(kept: nat, rebounded: nat, relabelled: nat, added: set<Span>, removed: set<Span>) {
    predicate Touched() {
      added != {} || removed != {} || rebounded > 0 || relabelled > 0
    }
  }

  /** The diff of one record when `todo` lists the new spans and `order` the removed ones. */
  function DiffOf(draft: seq<Span>, gold: seq<Span>, todo: seq<Span>, order: seq<Span>): RecordDiff {
    var m := Rebound(todo, order, |todo|);
    var r := Relabel(m.left, BoundsOf(draft, |draft|), Elements(m.cands), |m.left|);
    RecordDiff(|Elements(gold) * Elements(draft)|, m.count, r.count, Elements(r.left), r.gone)
  }

  /** `todo` is `sorted(new)` and `order` is whatever order the set of removed spans iterates in. */
  ghost predicate Runs(draft: seq<Span>, gold: seq<Span>, todo: seq<Span>, order: seq<Span>) {
    && Lists(todo, Elements(gold) - Elements(draft)) && Sorted(todo, KeyLeq)
    && Lists(order, Elements(draft) - Elements(gold))
  }

  lemma {:induction false} DropFacts(s: seq<Span>, i: nat)
    requires i < |s| && Distinct(s)
    ensures Distinct(Drop(s, i)) && Elements(Drop(s, i)) == Elements(s) - {s[i]}
  {
    var r := Drop(s, i);
    forall x ensures x in r <==> x in s && x != s[i] {
      if x in s && x != s[i] {
        var j :| 0 <= j < |s| && s[j] == x;
        assert x == if j < i then r[j] else r[j - 1];
      }
      if x in r {
        var j :| 0 <= j < |r| && r[j] == x;
        assert x == if j < i then s[j] else s[j + 1];
      }
    }
  }

  lemma {:induction false} PrefixElements(s: seq<Span>, n: nat)
    requires 0 < n <= |s| && Distinct(s)
    ensures Elements(s[..n]) == Elements(s[..n - 1]) + {s[n - 1]}
    ensures s[n - 1] !in Elements(s[..n - 1])
  {
    assert s[..n] == s[..n - 1] + [s[n - 1]];
    ElementsConcat(s[..n - 1], [s[n - 1]]);
  }

  lemma {:induction false} AppendNew(left: seq<Span>, k: Span, prefix: seq<Span>)
    requires Distinct(left) && Elements(left) <= Elements(prefix) && k !in Elements(prefix)
    ensures Distinct(left + [k]) && Elements(left + [k]) == Elements(left) + {k}
  {
    ElementsConcat(left, [k]);
    assert forall i :: 0 <= i < |left| ==> left[i] in Elements(left);
  }

  /** What the first loop keeps: each new key is matched or left, each candidate is used at most once. */
  lemma {:induction false} ReboundInvariant(todo: seq<Span>, cands: seq<Span>, n: nat)
    requires n <= |todo| && Distinct(todo) && Distinct(cands)
    ensures var m := Rebound(todo, cands, n);
      && m.count + |m.left| == n && m.count + |m.cands| == |cands|
      && Distinct(m.left) && Distinct(m.cands)
      && Elements(m.left) <= Elements(todo[..n]) && Elements(m.cands) <= Elements(cands)
  {
    if n > 0 {
      ReboundInvariant(todo, cands, n - 1);
      var m, k := Rebound(todo, cands, n - 1), todo[n - 1];
      PrefixElements(todo, n);
      var i := NextMatch(m.cands, k);
      if i < |m.cands| {
        DropFacts(m.cands, i);
      } else {
        AppendNew(m.left, k, todo[..n - 1]);
      }
    }
  }

  /** A key left over keeps its label: some new key with the label of a used candidate overlaps it. */
  lemma {:induction false} UsedCandidate(todo: seq<Span>, cands: seq<Span>, n: nat, c: Span) returns (j: nat)
    requires n <= |todo| && c in cands && c !in Rebound(todo, cands, n).cands
    ensures j < n && Matches(c, todo[j])
  {
    var m, k := Rebound(todo, cands, n - 1), todo[n - 1];
    if c in m.cands {
      var i := NextMatch(m.cands, k);
      if i < |m.cands| {
      }
      j := n - 1;
    } else {
      j := UsedCandidate(todo, cands, n - 1, c);
    }
  }

  /** Keys are left over in the order they were met. */
  lemma {:induction false} ReboundOrder(todo: seq<Span>, cands: seq<Span>, n: nat)
    requires n <= |todo| && Sorted(todo, KeyLeq)
    ensures var l := Rebound(todo, cands, n).left;
      && Sorted(l, KeyLeq)
      && (n < |todo| ==> forall i :: 0 <= i < |l| ==> KeyLeq(l[i], todo[n]))
  {
    if n > 0 {
      ReboundOrder(todo, cands, n - 1);
      var l := Rebound(todo, cands, n - 1).left;
      if n < |todo| {
        KeyOrder();
        forall i | 0 <= i < |l| ensures KeyLeq(l[i], todo[n]) {
          assert KeyLeq(l[i], todo[n - 1]) && KeyLeq(todo[n - 1], todo[n]);
        }
      }
    }
  }

  /** What the second loop keeps. */
  lemma {:induction false} RelabelInvariant(todo: seq<Span>, bounds: Bounds, gone: set<Span>, n: nat)
    requires n <= |todo| && Distinct(todo)
    ensures var r := Relabel(todo, bounds, gone, n);
      && r.count + |r.left| == n && r.gone <= gone && |r.gone| + r.count >= |gone|
      && Distinct(r.left) && Elements(r.left) <= Elements(todo[..n])
  {
    if n > 0 {
      RelabelInvariant(todo, bounds, gone, n - 1);
      var r, k := Relabel(todo, bounds, gone, n - 1), todo[n - 1];
      PrefixElements(todo, n);
      if !IsRelabel(bounds, k) {
        AppendNew(r.left, k, todo[..n - 1]);
      } else {
        var t := Target(bounds, k);
        assert r.gone - {t} == if t in r.gone then r.gone - {t} else r.gone;
      }
    }
  }

  lemma {:induction false} ListingLength(r: seq<Span>, s: set<Span>)
    requires Lists(r, s)
    ensures |r| == |s|
  {
    DistinctLength(r);
  }

  /**
   * Gold side, for every order: each gold span is counted once, as unchanged, re-bounded, relabelled
   * or added.
   */
  lemma {:induction false} GoldSpansAccountedFor(draft: seq<Span>, gold: seq<Span>, todo: seq<Span>, order: seq<Span>)
    requires Runs(draft, gold, todo, order)
    ensures var d := DiffOf(draft, gold, todo, order);
      |Elements(gold)| == d.kept + d.rebounded + d.relabelled + |d.added|
  {
    var m := Rebound(todo, order, |todo|);
    ReboundInvariant(todo, order, |todo|);
    RelabelInvariant(m.left, BoundsOf(draft, |draft|), Elements(m.cands), |m.left|);
    DistinctLength(Relabel(m.left, BoundsOf(draft, |draft|), Elements(m.cands), |m.left|).left);
    ListingLength(todo, Elements(gold) - Elements(draft));
  }

  /** Draft side, for every order: the counts never fall short of the draft's spans. */
  lemma {:induction false} DraftSpansCovered(draft: seq<Span>, gold: seq<Span>, todo: seq<Span>, order: seq<Span>)
    requires Runs(draft, gold, todo, order)
    ensures var d := DiffOf(draft, gold, todo, order);
      |Elements(draft)| <= d.kept + d.rebounded + d.relabelled + |d.removed|
  {
    var m := Rebound(todo, order, |todo|);
    ReboundInvariant(todo, order, |todo|);
    RelabelInvariant(m.left, BoundsOf(draft, |draft|), Elements(m.cands), |m.left|);
    ListingLength(order, Elements(draft) - Elements(gold));
    DistinctLength(m.cands);
    assert Elements(draft) * Elements(gold) == Elements(gold) * Elements(draft);
  }

  // ---------------------------------------------------------------------------------------------
  // The draft side, exactly

  /** Two gold spans that could both lay claim to one draft span. */
  predicate Clash(a: Span, b: Span) {
    a.entity != b.entity && (SameBounds(a, b) || a.Overlaps(b))
  }

  ghost predicate NoClash(gold: seq<Span>) {
    forall i, j :: 0 <= i < |gold| && 0 <= j < |gold| ==> !Clash(gold[i], gold[j])
  }

  /** A record that passes the checker has no clash. */
  lemma {:induction false} ValidRecordHasNoClash(r: Record)
    requires ValidRecord(r)
    ensures NoClash(r.spans)
  {
    forall i, j | 0 <= i < |r.spans| && 0 <= j < |r.spans| ensures !Clash(r.spans[i], r.spans[j]) {
      assert ValidSpan(r, r.spans[i]) && ValidSpan(r, r.spans[j]);
      if i < j {
        assert !r.spans[i].Overlaps(r.spans[j]);
      } else if j < i {
        assert !r.spans[j].Overlaps(r.spans[i]);
      }
    }
  }

  lemma {:induction false} BoundsFromDraft(spans: seq<Span>, n: nat, k: Span)
    requires n <= |spans| && (k.start, k.end) in BoundsOf(spans, n)
    ensures Span(k.start, k.end, BoundsOf(spans, n)[(k.start, k.end)]) in spans
  {
    if n > 0 && !SameBounds(spans[n - 1], k) {
      BoundsFromDraft(spans, n - 1, k);
    }
  }

  /** When every relabel finds its target and no target is shared, each one removes exactly one span. */
  lemma {:induction false} RelabelConserves(todo: seq<Span>, bounds: Bounds, gone: set<Span>, n: nat)
    requires n <= |todo|
    requires forall i :: 0 <= i < |todo| && IsRelabel(bounds, todo[i]) ==> Target(bounds, todo[i]) in gone
    requires forall i, j :: 0 <= i < j < |todo| ==> !SameBounds(todo[i], todo[j])
    ensures var r := Relabel(todo, bounds, gone, n);
      && |r.gone| + r.count == |gone|
      && forall x :: x in gone && x !in r.gone ==> exists i :: 0 <= i < n && SameBounds(todo[i], x)
  {
    if n > 0 {
      RelabelConserves(todo, bounds, gone, n - 1);
      var r, k := Relabel(todo, bounds, gone, n - 1), todo[n - 1];
      if IsRelabel(bounds, k) {
        var t := Target(bounds, k);
        assert t in gone;
        assert |r.gone - {t}| == |r.gone| - 1;
      }
    }
  }

  lemma {:induction false} UsedBy(todo: seq<Span>, order: seq<Span>, t: Span) returns (u: Span)
    requires t in order && t !in Rebound(todo, order, |todo|).cands
    ensures u in Elements(todo) && Matches(t, u)
  {
    var j := UsedCandidate(todo, order, |todo|, t);
    u := todo[j];
  }

  /** Without a clash, the draft span a relabel stands for is still unclaimed. */
  lemma {:induction false} TargetUnclaimed(
    draft: seq<Span>, gold: seq<Span>, todo: seq<Span>, order: seq<Span>, k: Span)
    requires Runs(draft, gold, todo, order) && NoClash(gold)
    requires k in Rebound(todo, order, |todo|).left && IsRelabel(BoundsOf(draft, |draft|), k)
    ensures Target(BoundsOf(draft, |draft|), k) in Rebound(todo, order, |todo|).cands
  {
    ReboundInvariant(todo, order, |todo|);
    assert todo[..|todo|] == todo;
    assert k in Elements(todo);
    var t := Target(BoundsOf(draft, |draft|), k);
    BoundsFromDraft(draft, |draft|, k);
    if t in Elements(gold) {
      assert false;
    }
    assert t in Elements(order);
    if t !in Rebound(todo, order, |todo|).cands {
      var u := UsedBy(todo, order, t);
      assert false;
    }
  }

  /** Draft side, for every order, when no two gold spans clash: each draft span is counted once. */
  lemma {:induction false} DraftSpansAccountedFor(draft: seq<Span>, gold: seq<Span>, todo: seq<Span>, order: seq<Span>)
    requires Runs(draft, gold, todo, order) && NoClash(gold)
    ensures var d := DiffOf(draft, gold, todo, order);
      |Elements(draft)| == d.kept + d.rebounded + d.relabelled + |d.removed|
  {
    var m, bounds := Rebound(todo, order, |todo|), BoundsOf(draft, |draft|);
    ReboundInvariant(todo, order, |todo|);
    assert todo[..|todo|] == todo;
    forall i | 0 <= i < |m.left| && IsRelabel(bounds, m.left[i])
      ensures Target(bounds, m.left[i]) in Elements(m.cands)
    {
      TargetUnclaimed(draft, gold, todo, order, m.left[i]);
    }
    forall i, j | 0 <= i < j < |m.left| ensures !SameBounds(m.left[i], m.left[j]) {
      assert m.left[i] in Elements(todo) && m.left[j] in Elements(todo);
    }
    RelabelConserves(m.left, bounds, Elements(m.cands), |m.left|);
    ListingLength(order, Elements(draft) - Elements(gold));
    DistinctLength(m.cands);
    assert Elements(draft) * Elements(gold) == Elements(gold) * Elements(draft);
  }

  // ---------------------------------------------------------------------------------------------
  // A clash always has a draft that exposes it

  /** With one candidate, the first key that matches it takes it, and no key of another label is lost. */
  lemma {:induction false} LoneCandidate(todo: seq<Span>, c: Span, n: nat, j: nat, k: Span)
    requires n <= |todo|
    ensures var m := Rebound(todo, [c], n);
      && (m.cands == [c] || (m.cands == [] && m.count == 1))
      && (j < n && Matches(c, todo[j]) ==> m.count == 1)
      && (k.entity != c.entity && (exists i :: 0 <= i < n && todo[i] == k) ==> k in m.left)
      && (m.cands == [c] ==> m.count == 0)
  {
    if n > 0 {
      LoneCandidate(todo, c, n - 1, j, k);
    }
  }

  lemma {:induction false} RelabelCounts(todo: seq<Span>, bounds: Bounds, gone: set<Span>, n: nat, k: Span)
    requires n <= |todo| && IsRelabel(bounds, k) && exists i :: 0 <= i < n && todo[i] == k
    ensures Relabel(todo, bounds, gone, n).count >= 1
  {
    if todo[n - 1] != k {
      RelabelCounts(todo, bounds, gone, n - 1, k);
    }
  }

  /** No candidates: every key is left over. */
  lemma {:induction false} NoCandidates(todo: seq<Span>, n: nat)
    requires n <= |todo|
    ensures Rebound(todo, [], n) == Matching(0, todo[..n], [])
  {
    if n > 0 {
      NoCandidates(todo, n - 1);
      assert todo[..n] == todo[..n - 1] + [todo[n - 1]];
    }
  }

  /**
   * If two gold spans clash there is a one-span draft on which, whatever the order, the draft side
   * does not add up.
   */
  lemma {:induction false} ClashBreaksTheDraftSide(gold: seq<Span>, a: Span, b: Span)
      returns (draft: seq<Span>)
    requires a in Elements(gold) && b in Elements(gold) && Clash(a, b)
    ensures |Elements(draft)| == 1
    ensures forall todo, order :: Runs(draft, gold, todo, order) ==>
      var d := DiffOf(draft, gold, todo, order);
      |Elements(draft)| < d.kept + d.rebounded + d.relabelled + |d.removed|
  {
    var t := Span(a.start, a.end, b.entity);
    draft := [t];
    assert Elements(draft) == {t};
    assert BoundsOf(draft, 1) == map[(t.start, t.end) := t.entity];
    forall todo, order | Runs(draft, gold, todo, order)
      ensures var d := DiffOf(draft, gold, todo, order); d.kept + d.rebounded >= 1 && d.relabelled >= 1
    {
      assert a !in Elements(draft);
      assert a in Elements(todo);
      if t in Elements(gold) {
        assert Elements(gold) * Elements(draft) == {t};
        NoElements(order);
        assert Elements(order) == {};
        NoCandidates(todo, |todo|);
        assert todo[..|todo|] == todo;
      } else {
        OneElement(order, t);
        assert b in Elements(todo);
        var j :| 0 <= j < |todo| && todo[j] == b;
        LoneCandidate(todo, t, |todo|, j, a);
      }
      var m := Rebound(todo, order, |todo|);
      assert a in m.left;
      RelabelCounts(m.left, BoundsOf(draft, 1), Elements(m.cands), |m.left|, a);
    }
  }

  lemma {:induction false} OneElement(order: seq<Span>, t: Span)
    requires Lists(order, {t})
    ensures order == [t]
  {
    DistinctLength(order);
    assert order[0] in Elements(order);
  }

  /** The draft side adds up, whatever the draft and the order of iteration. */
  ghost predicate DraftSideHolds(gold: seq<Span>) {
    forall draft, todo, order :: Runs(draft, gold, todo, order) ==>
      var d := DiffOf(draft, gold, todo, order);
      |Elements(draft)| == d.kept + d.rebounded + d.relabelled + |d.removed|
  }

  /** Exactly the gold spans without a clash keep the draft side; the checker's disjointness is enough. */
  lemma {:induction false} DraftSideHoldsExactlyWithoutClash(gold: seq<Span>)
    ensures DraftSideHolds(gold) <==> NoClash(gold)
  {
    if NoClash(gold) {
      forall draft, todo, order | Runs(draft, gold, todo, order)
        ensures var d := DiffOf(draft, gold, todo, order);
          |Elements(draft)| == d.kept + d.rebounded + d.relabelled + |d.removed|
      {
        DraftSpansAccountedFor(draft, gold, todo, order);
      }
    } else {
      var i, j :| 0 <= i < |gold| && 0 <= j < |gold| && Clash(gold[i], gold[j]);
      var draft := ClashBreaksTheDraftSide(gold, gold[i], gold[j]);
      var todo, order := SomeRun(draft, gold);
      var d := DiffOf(draft, gold, todo, order);
    }
  }

  lemma {:induction false} SomeListing(s: set<Span>) returns (r: seq<Span>)
    ensures Lists(r, s)
  {
    if s == {} {
      r := [];
    } else {
      var x :| x in s;
      var rest := SomeListing(s - {x});
      r := rest + [x];
      AppendNew(rest, x, rest);
    }
  }

  lemma {:induction false} SomeRun(draft: seq<Span>, gold: seq<Span>) returns (todo: seq<Span>, order: seq<Span>)
    ensures Runs(draft, gold, todo, order)
  {
    order := SomeListing(Elements(draft) - Elements(gold));
    var l := SomeListing(Elements(gold) - Elements(draft));
    todo := Sort(l, KeyLeq);
    KeyOrder();
    SortCorrect(l, KeyLeq);
    DistinctPermutation(l, todo);
    forall x ensures x in Elements(todo) <==> x in Elements(l) { MultisetElement(todo, l, x); }
  }

  /** Nothing counts as changed, and the record as untouched, exactly when the span sets are equal. */
  lemma {:induction false} UnchangedIffEqual(draft: seq<Span>, gold: seq<Span>, todo: seq<Span>, order: seq<Span>)
    requires Runs(draft, gold, todo, order)
    ensures var d := DiffOf(draft, gold, todo, order);
      && (d.rebounded + d.relabelled + |d.added| + |d.removed| == 0 <==> Elements(draft) == Elements(gold))
      && (d.Touched() <==> Elements(draft) != Elements(gold))
  {
    var d := DiffOf(draft, gold, todo, order);
    GoldSpansAccountedFor(draft, gold, todo, order);
    DraftSpansCovered(draft, gold, todo, order);
    var both := Elements(gold) * Elements(draft);
    assert Elements(draft) * Elements(gold) == both;
    if d.rebounded + d.relabelled + |d.added| + |d.removed| == 0 {
      assert Elements(gold) - Elements(draft) == {} && Elements(draft) - Elements(gold) == {};
    }
    if Elements(draft) == Elements(gold) {
      assert both == Elements(gold);
      var m := Rebound(todo, order, |todo|);
      assert Elements(order) == {};
      ReboundInvariant(todo, order, |todo|);
      RelabelInvariant(m.left, BoundsOf(draft, |draft|), Elements(m.cands), |m.left|);
    }
  }
}

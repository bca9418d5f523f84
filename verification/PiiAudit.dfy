/** `diff` over whole files, and the gate `main` makes of `check` and `diff`. */
module PiiAudit {
  import opened Wrappers
  import opened Orders
  import opened PiiGold
  import opened PiiDiff

  // ---------------------------------------------------------------------------------------------
  // The by-label candidate lists

  /** The candidates with one label, in order. */
  function OfLabel(cands: seq<Span>, tag: string): seq<Span> {
    if cands == [] then []
    else if cands[0].entity == tag then [cands[0]] + OfLabel(cands[1..], tag)
    else OfLabel(cands[1..], tag)
  }

  /** `next(c for c in candidates if c[0] < key[1] and key[0] < c[1])`, as an index. */
  function NextOverlap(cands: seq<Span>, k: Span): nat {
    if cands == [] then 0
    else if cands[0].start < k.end && k.start < cands[0].end then 0
    else 1 + NextOverlap(cands[1..], k)
  }

  function Lookup(byLabel: map<string, seq<Span>>, tag: string): seq<Span> {
    if tag in byLabel then byLabel[tag] else []
  }

  /** The dict of lists represents one list of candidates. */
  ghost predicate Represents(byLabel: map<string, seq<Span>>, cands: seq<Span>) {
    forall tag :: Lookup(byLabel, tag) == OfLabel(cands, tag)
  }

  lemma {:induction false} OfLabelAppend(cands: seq<Span>, k: Span, tag: string)
    ensures OfLabel(cands + [k], tag) == OfLabel(cands, tag) + (if k.entity == tag then [k] else [])
  {
    if cands == [] {
      assert cands + [k] == [k];
    } else {
      OfLabelAppend(cands[1..], k, tag);
      assert (cands + [k])[1..] == cands[1..] + [k];
    }
  }

  lemma {:induction false} DropTail(s: seq<Span>, i: nat)
    requires 0 < i < |s|
    ensures Drop(s, i) == [s[0]] + Drop(s[1..], i - 1)
    ensures Drop(s, i)[1..] == Drop(s[1..], i - 1)
  {
  }

  /** Searching and shrinking the list of one label is searching and shrinking the whole list. */
  lemma {:induction false} SearchOneLabel(cands: seq<Span>, k: Span)
    ensures var f, i := OfLabel(cands, k.entity), NextMatch(cands, k);
      var p := NextOverlap(f, k);
      && p <= |f| && (i < |cands| <==> p < |f|)
      && (i < |cands| ==>
           f[p] == cands[i] && OfLabel(Drop(cands, i), k.entity) == Drop(f, p))
  {
    if cands != [] && !Matches(cands[0], k) {
      SearchOneLabel(cands[1..], k);
      var i := NextMatch(cands, k);
      if i < |cands| {
        DropTail(cands, i);
        var f := OfLabel(cands, k.entity);
        if cands[0].entity == k.entity {
          assert f[1..] == OfLabel(cands[1..], k.entity);
          DropTail(f, NextOverlap(f, k));
        }
      }
    } else if cands != [] {
      assert Drop(cands, 0) == cands[1..];
      var f := OfLabel(cands, k.entity);
      assert Drop(f, 0) == f[1..];
    }
  }

  lemma {:induction false} OtherLabels(cands: seq<Span>, i: nat, tag: string)
    requires i < |cands| && cands[i].entity != tag
    ensures OfLabel(Drop(cands, i), tag) == OfLabel(cands, tag)
  {
    if i == 0 {
      assert Drop(cands, 0) == cands[1..];
    } else {
      DropTail(cands, i);
      OtherLabels(cands[1..], i - 1, tag);
    }
  }

  lemma {:induction false} RepresentsAfterMatch(byLabel: map<string, seq<Span>>, cands: seq<Span>, k: Span)
    requires Represents(byLabel, cands)
    requires NextMatch(cands, k) < |cands|
    ensures var f := Lookup(byLabel, k.entity);
      var p := NextOverlap(f, k);
      && p < |f|
      && Represents(byLabel[k.entity := Drop(f, p)], Drop(cands, NextMatch(cands, k)))
  {
    SearchOneLabel(cands, k);
    var i := NextMatch(cands, k);
    var f := Lookup(byLabel, k.entity);
    var after := byLabel[k.entity := Drop(f, NextOverlap(f, k))];
    forall tag ensures Lookup(after, tag) == OfLabel(Drop(cands, i), tag) {
      if tag != k.entity {
        OtherLabels(cands, i, tag);
        assert Lookup(after, tag) == Lookup(byLabel, tag);
      }
    }
  }

  /** `by_label`, filled in the order the set of removed spans happens to iterate. */
  method GroupByLabel(gone: set<Span>) returns (byLabel: map<string, seq<Span>>, ghost order: seq<Span>)
    ensures Lists(order, gone) && Represents(byLabel, order)
  {
    var listing := Listing(gone);
    byLabel := map[];
    for n := 0 to |listing|
      invariant Represents(byLabel, listing[..n])
    {
      var key := listing[n];
      ghost var before := byLabel;
      byLabel := byLabel[key.entity := Lookup(byLabel, key.entity) + [key]];
      assert listing[..n + 1] == listing[..n] + [key];
      forall tag ensures Lookup(byLabel, tag) == OfLabel(listing[..n + 1], tag) {
        OfLabelAppend(listing[..n], key, tag);
        assert Lookup(before, tag) == OfLabel(listing[..n], tag);
      }
    }
    order := listing;
    assert listing[..|listing|] == listing;
  }

  /** One key decided: either it leaves the set of new spans, or it stays among the leftovers. */
  lemma {:induction false} KeyDecided(left: seq<Span>, todo: seq<Span>, n: nat, newSpans: set<Span>)
    requires n < |todo| && Distinct(todo) && Elements(left) <= Elements(todo[..n])
    requires newSpans == Elements(left) + Elements(todo[n..])
    ensures newSpans - {todo[n]} == Elements(left) + Elements(todo[n + 1..])
    ensures newSpans == Elements(left + [todo[n]]) + Elements(todo[n + 1..])
  {
    PrefixElements(todo, n + 1);
    ElementsConcat(left, [todo[n]]);
  }

  /** Searching one label's candidates finds what searching all of them finds, and taking it out keeps them in step. */
  lemma {:induction false} LabelSearch(byLabel: map<string, seq<Span>>, cands: seq<Span>, k: Span)
    requires Represents(byLabel, cands) && Distinct(cands)
    ensures var f, i := Lookup(byLabel, k.entity), NextMatch(cands, k);
      var p := NextOverlap(f, k);
      && (p < |f| <==> i < |cands|)
      && (p < |f| ==> (i < |cands| && f[p] == cands[i]
                       && Represents(byLabel[k.entity := Drop(f, p)], Drop(cands, i))
                       && Elements(Drop(cands, i)) == Elements(cands) - {f[p]}))
  {
    SearchOneLabel(cands, k);
    if NextMatch(cands, k) < |cands| {
      RepresentsAfterMatch(byLabel, cands, k);
      DropFacts(cands, NextMatch(cands, k));
    }
  }

  /** The first loop: spans whose bounds moved but whose label stayed. */
  method MatchRebounded(todo: seq<Span>, byLabel0: map<string, seq<Span>>, ghost order: seq<Span>,
                        new0: set<Span>, gone0: set<Span>)
      returns (rebounded: nat, newSpans: set<Span>, gone: set<Span>)
    requires Lists(todo, new0) && Lists(order, gone0) && Represents(byLabel0, order)
    ensures var m := Rebound(todo, order, |todo|);
      rebounded == m.count && newSpans == Elements(m.left) && gone == Elements(m.cands)
  {
    var byLabel := byLabel0;
    rebounded, newSpans, gone := 0, new0, gone0;
    assert todo[0..] == todo;
    assert newSpans == Elements([]) + Elements(todo[0..]);
    hide Represents;
    hide NextMatch;
    hide NextOverlap;
    hide Lookup;
    hide Elements;
    for n := 0 to |todo|
      invariant var m := Rebound(todo, order, n);
        && rebounded == m.count && gone == Elements(m.cands) && Represents(byLabel, m.cands)
        && newSpans == Elements(m.left) + Elements(todo[n..])
    {
      var key := todo[n];
      ghost var m := Rebound(todo, order, n);
      ReboundInvariant(todo, order, n);
      KeyDecided(m.left, todo, n, newSpans);
      var candidates := Lookup(byLabel, key.entity);
      var p := NextOverlap(candidates, key);
      LabelSearch(byLabel, m.cands, key);
      if p < |candidates| {
        var overlap := candidates[p];
        byLabel := byLabel[key.entity := Drop(candidates, p)];
        rebounded := rebounded + 1;
        newSpans := newSpans - {key};
        gone := gone - {overlap};
      }
    }
  }

  /** The second loop: spans whose label moved but whose bounds stayed. */
  method MatchRelabelled(todo: seq<Span>, bounds: Bounds, new0: set<Span>, gone0: set<Span>)
      returns (relabelled: nat, newSpans: set<Span>, gone: set<Span>)
    requires Lists(todo, new0)
    ensures var r := Relabel(todo, bounds, gone0, |todo|);
      relabelled == r.count && newSpans == Elements(r.left) && gone == r.gone
  {
    relabelled, newSpans, gone := 0, new0, gone0;
    assert todo[0..] == todo;
    for n := 0 to |todo|
      invariant var r := Relabel(todo, bounds, gone0, n);
        && relabelled == r.count && gone == r.gone
        && newSpans == Elements(r.left) + Elements(todo[n..])
    {
      var key := todo[n];
      ghost var r := Relabel(todo, bounds, gone0, n);
      RelabelInvariant(todo, bounds, gone0, n);
      KeyDecided(r.left, todo, n, newSpans);
      if (key.start, key.end) in bounds && bounds[(key.start, key.end)] != key.entity {
        relabelled := relabelled + 1;
        newSpans := newSpans - {key};
        gone := gone - {Span(key.start, key.end, bounds[(key.start, key.end)])};
      }
    }
  }

  /** A record's diff, for some order of iteration. */
  ghost predicate IsDiff(draft: seq<Span>, gold: seq<Span>, d: RecordDiff) {
    exists todo, order :: Runs(draft, gold, todo, order) && d == DiffOf(draft, gold, todo, order)
  }

  /** The body of `diff`'s loop over shared records. */
  method DiffRecord(draft: seq<Span>, gold: seq<Span>) returns (d: RecordDiff)
    ensures IsDiff(draft, gold, d)
  {
    var before, after := Elements(draft), Elements(gold);
    KeyOrder();
    var byLabel, order := GroupByLabel(before - after);
    var todo := SortedSet(after - before, KeyLeq);
    var rebounded, newSpans, gone := MatchRebounded(todo, byLabel, order, after - before, before - after);
    ghost var m := Rebound(todo, order, |todo|);
    ReboundInvariant(todo, order, |todo|);
    ReboundOrder(todo, order, |todo|);
    var left := SortedSet(newSpans, KeyLeq);
    SortedSetUnique(left, m.left, KeyLeq);
    var relabelled;
    relabelled, newSpans, gone := MatchRelabelled(left, BoundsOf(draft, |draft|), newSpans, gone);
    d := RecordDiff(|after * before|, rebounded, relabelled, newSpans, gone);
    assert Runs(draft, gold, todo, order) && d == DiffOf(draft, gold, todo, order);
  }

  // ---------------------------------------------------------------------------------------------
  // Whole files

  /** `{r.id: r for r in records}`. */
  function ById(records: seq<Record>, n: nat): (m: map<string, Record>)
    requires n <= |records|
    ensures m.Keys == Ids(records[..n])
    ensures forall id :: id in m ==> m[id].id == id && m[id] in records[..n]
  {
    if n == 0 then map[]
    else
      assert records[..n] == records[..n - 1] + [records[n - 1]];
      ById(records, n - 1)[records[n - 1].id := records[n - 1]]
  }

  datatype HumanPass = HumanPass(
    compared: nat, onlyInDraft: seq<string>, onlyInGold: seq<string>, mismatches: seq<string>,
    tally: Tally, addedByEntity: multiset<string>, removedByEntity: multiset<string>)

  datatype Tally = Tally(kept: nat, rebounded: nat, relabelled: nat, added: nat, removed: nat, touched: nat) {
    /** `_changed_spans`. */
    function Changed(): nat {
      added + removed + rebounded + relabelled
    }

    function Plus(d: RecordDiff): Tally {
      Tally(kept + d.kept, rebounded + d.rebounded, relabelled + d.relabelled,
            added + |d.added|, removed + |d.removed|, touched + (if d.Touched() then 1 else 0))
    }
  }

  datatype AuditError = DuplicateDraftIds

  /** The counters after the first `n` shared records. */
  function Sum(parts: seq<RecordDiff>, n: nat): Tally
    requires n <= |parts|
  {
    if n == 0 then Tally(0, 0, 0, 0, 0, 0)
    else Sum(parts, n - 1).Plus(parts[n - 1])
  }

  /** How many spans of a set carry an entity label. */
  ghost function Labelled(s: set<Span>, entity: string): nat {
    |set x | x in s && x.entity == entity|
  }

  ghost function AddedAs(parts: seq<RecordDiff>, n: nat, entity: string): nat
    requires n <= |parts|
  {
    if n == 0 then 0 else AddedAs(parts, n - 1, entity) + Labelled(parts[n - 1].added, entity)
  }

  ghost function RemovedAs(parts: seq<RecordDiff>, n: nat, entity: string): nat
    requires n <= |parts|
  {
    if n == 0 then 0 else RemovedAs(parts, n - 1, entity) + Labelled(parts[n - 1].removed, entity)
  }

  /** The two counters hold, for each label, the spans added and removed with it so far. */
  ghost predicate CountsMatch(parts: seq<RecordDiff>, n: nat, added: multiset<string>, removed: multiset<string>)
    requires n <= |parts|
  {
    forall e :: added[e] == AddedAs(parts, n, e) && removed[e] == RemovedAs(parts, n, e)
  }

  ghost predicate Pairs(ds: map<string, Record>, gs: map<string, Record>, shared: seq<string>) {
    forall i :: 0 <= i < |shared| ==> shared[i] in ds && shared[i] in gs
  }

  ghost predicate Explains(ds: map<string, Record>, gs: map<string, Record>, shared: seq<string>,
                           parts: seq<RecordDiff>, n: nat)
    requires Pairs(ds, gs, shared) && n <= |shared| && n <= |parts|
  {
    n == 0
    || (Explains(ds, gs, shared, parts, n - 1)
        && IsDiff(ds[shared[n - 1]].spans, gs[shared[n - 1]].spans, parts[n - 1]))
  }

  ghost function SpanTotal(m: map<string, Record>, ids: seq<string>, n: nat): nat
    requires n <= |ids| && forall i :: 0 <= i < |ids| ==> ids[i] in m
  {
    if n == 0 then 0 else SpanTotal(m, ids, n - 1) + |Elements(m[ids[n - 1]].spans)|
  }

  ghost predicate SameSpans(ds: map<string, Record>, gs: map<string, Record>, id: string)
    requires id in ds && id in gs
  {
    Elements(ds[id].spans) == Elements(gs[id].spans)
  }

  ghost function TouchedCount(ds: map<string, Record>, gs: map<string, Record>, ids: seq<string>, n: nat): nat
    requires n <= |ids| && Pairs(ds, gs, ids)
  {
    if n == 0 then 0
    else TouchedCount(ds, gs, ids, n - 1) + (if SameSpans(ds, gs, ids[n - 1]) then 0 else 1)
  }

  /** What the diff of one record always satisfies. */
  ghost predicate Lawful(draft: Record, gold: Record, d: RecordDiff) {
    && |Elements(gold.spans)| == d.kept + d.rebounded + d.relabelled + |d.added|
    && |Elements(draft.spans)| <= d.kept + d.rebounded + d.relabelled + |d.removed|
    && (NoClash(gold.spans) ==>
         |Elements(draft.spans)| == d.kept + d.rebounded + d.relabelled + |d.removed|)
    && (d.rebounded + d.relabelled + |d.added| + |d.removed| == 0 <==> Elements(draft.spans) == Elements(gold.spans))
    && (d.Touched() <==> Elements(draft.spans) != Elements(gold.spans))
  }

  lemma {:induction false} RecordLaws(draft: Record, gold: Record, d: RecordDiff)
    requires IsDiff(draft.spans, gold.spans, d)
    ensures Lawful(draft, gold, d)
  {
    var todo, order :| Runs(draft.spans, gold.spans, todo, order) && d == DiffOf(draft.spans, gold.spans, todo, order);
    GoldSpansAccountedFor(draft.spans, gold.spans, todo, order);
    DraftSpansCovered(draft.spans, gold.spans, todo, order);
    UnchangedIffEqual(draft.spans, gold.spans, todo, order);
    if NoClash(gold.spans) {
      DraftSpansAccountedFor(draft.spans, gold.spans, todo, order);
    }
  }

  ghost predicate AllSame(ds: map<string, Record>, gs: map<string, Record>, ids: seq<string>, n: nat)
    requires n <= |ids| && Pairs(ds, gs, ids)
  {
    forall i :: 0 <= i < n ==> SameSpans(ds, gs, ids[i])
  }

  ghost predicate NoneClash(gs: map<string, Record>, ids: seq<string>, n: nat)
    requires n <= |ids| && forall i :: 0 <= i < |ids| ==> ids[i] in gs
  {
    forall i :: 0 <= i < n ==> NoClash(gs[ids[i]].spans)
  }

  /** The laws of one record, summed over a file. */
  ghost predicate FileLawful(ds: map<string, Record>, gs: map<string, Record>, shared: seq<string>, n: nat, t: Tally)
    requires n <= |shared| && Pairs(ds, gs, shared)
  {
    && SpanTotal(gs, shared, n) == t.kept + t.rebounded + t.relabelled + t.added
    && SpanTotal(ds, shared, n) <= t.kept + t.rebounded + t.relabelled + t.removed
    && (NoneClash(gs, shared, n) ==> SpanTotal(ds, shared, n) == t.kept + t.rebounded + t.relabelled + t.removed)
    && (t.Changed() == 0 <==> AllSame(ds, gs, shared, n))
    && t.touched == TouchedCount(ds, gs, shared, n)
  }

  lemma {:induction false} FileLawsStep(ds: map<string, Record>, gs: map<string, Record>, shared: seq<string>,
                                        n: nat, t: Tally, d: RecordDiff)
    requires n < |shared| && Pairs(ds, gs, shared) && FileLawful(ds, gs, shared, n, t)
    requires Lawful(ds[shared[n]], gs[shared[n]], d)
    ensures FileLawful(ds, gs, shared, n + 1, t.Plus(d))
  {
    assert AllSame(ds, gs, shared, n + 1) <==> AllSame(ds, gs, shared, n) && SameSpans(ds, gs, shared[n]);
    assert NoneClash(gs, shared, n + 1) <==> NoneClash(gs, shared, n) && NoClash(gs[shared[n]].spans);
  }

  lemma {:induction false} FileLaws(ds: map<string, Record>, gs: map<string, Record>, shared: seq<string>,
                                    parts: seq<RecordDiff>, n: nat)
    requires Pairs(ds, gs, shared) && n <= |shared| && n <= |parts| && Explains(ds, gs, shared, parts, n)
    ensures FileLawful(ds, gs, shared, n, Sum(parts, n))
  {
    if n > 0 {
      FileLaws(ds, gs, shared, parts, n - 1);
      RecordLaws(ds[shared[n - 1]], gs[shared[n - 1]], parts[n - 1]);
      FileLawsStep(ds, gs, shared, n - 1, Sum(parts, n - 1), parts[n - 1]);
    }
  }

  lemma {:induction false} LabelledGrows(s: set<Span>, x: Span, entity: string)
    requires x !in s
    ensures Labelled(s + {x}, entity) == Labelled(s, entity) + (if x.entity == entity then 1 else 0)
  {
    var before, after := set y | y in s && y.entity == entity, set y | y in s + {x} && y.entity == entity;
    assert after == before + (if x.entity == entity then {x} else {});
  }

  /** `for key in keys: counter[key[2]] += 1`. */
  method CountEntities(counter: multiset<string>, keys: set<Span>) returns (r: multiset<string>)
    ensures forall e :: r[e] == counter[e] + Labelled(keys, e)
    ensures |r| == |counter| + |keys|
  {
    r := counter;
    var rest := keys;
    ghost var counted := {};
    while rest != {}
      invariant counted !! rest && counted + rest == keys
      invariant forall e :: r[e] == counter[e] + Labelled(counted, e)
      invariant |r| == |counter| + |counted|
      decreases rest
    {
      var key :| key in rest;
      forall e ensures Labelled(counted + {key}, e) == Labelled(counted, e) + (if key.entity == e then 1 else 0) {
        LabelledGrows(counted, key, e);
      }
      r := r[key.entity := r[key.entity] + 1];
      rest := rest - {key};
      counted := counted + {key};
    }
    assert counted == keys;
  }

  /** A repeated draft id, which `diff` refuses. */
  method HasDuplicateIds(records: seq<Record>) returns (found: bool)
    ensures found <==> !DistinctIds(records, |records|)
  {
    var seen: set<string> := {};
    for n := 0 to |records|
      invariant seen == Ids(records[..n]) && DistinctIds(records, n)
    {
      IdsOfPrefix(records, n);
      IdsGrow(records, n);
      if records[n].id in seen {
        return true;
      }
      seen := seen + {records[n].id};
    }
    return false;
  }

  ghost predicate SharedIds(ds: map<string, Record>, gs: map<string, Record>, shared: seq<string>) {
    Sorted(shared, StringLeq) && Distinct(shared) && Elements(shared) == ds.Keys * gs.Keys
  }

  /** The shared ids whose text was edited, in order. */
  function TextMismatches(ds: map<string, Record>, gs: map<string, Record>, shared: seq<string>, n: nat): seq<string>
    requires n <= |shared| && forall i :: 0 <= i < |shared| ==> shared[i] in ds && shared[i] in gs
  {
    if n == 0 then []
    else
      var before := TextMismatches(ds, gs, shared, n - 1);
      if ds[shared[n - 1]].text != gs[shared[n - 1]].text then before + [shared[n - 1]] else before
  }

  /** The tally and the counters of the records diffed so far. */
  ghost predicate Summed(ds: map<string, Record>, gs: map<string, Record>, ids: seq<string>, parts: seq<RecordDiff>,
                         tally: Tally, addedBy: multiset<string>, removedBy: multiset<string>)
    requires Pairs(ds, gs, ids) && |parts| <= |ids|
  {
    && Explains(ds, gs, ids, parts, |parts|) && tally == Sum(parts, |parts|)
    && CountsMatch(parts, |parts|, addedBy, removedBy)
    && |addedBy| == tally.added && |removedBy| == tally.removed
  }

  /** The loop of `diff` over the shared records. */
  method SumShared(ds: map<string, Record>, gs: map<string, Record>, ids: seq<string>)
      returns (tally: Tally, addedBy: multiset<string>, removedBy: multiset<string>, mismatches: seq<string>,
               ghost parts: seq<RecordDiff>)
    requires Pairs(ds, gs, ids)
    ensures |parts| == |ids| && Summed(ds, gs, ids, parts, tally, addedBy, removedBy)
    ensures mismatches == TextMismatches(ds, gs, ids, |ids|)
  {
    tally, addedBy, removedBy := Tally(0, 0, 0, 0, 0, 0), multiset{}, multiset{};
    mismatches, parts := [], [];
    NothingSummed(ds, gs, ids);
    hide Summed;
    hide IsDiff;
    hide Sum;
    hide Explains;
    hide CountsMatch;
    assert mismatches == TextMismatches(ds, gs, ids, 0);
    hide TextMismatches;
    for n := 0 to |ids|
      invariant |parts| == n && Summed(ds, gs, ids, parts, tally, addedBy, removedBy)
      invariant mismatches == TextMismatches(ds, gs, ids, n)
    {
      mismatches := NoteMismatch(ds, gs, ids, n, mismatches);
      tally, addedBy, removedBy, parts := AddRecord(ds, gs, ids, n, parts, tally, addedBy, removedBy);
    }
  }

  lemma {:induction false} NothingSummed(ds: map<string, Record>, gs: map<string, Record>, ids: seq<string>)
    requires Pairs(ds, gs, ids)
    ensures Summed(ds, gs, ids, [], Tally(0, 0, 0, 0, 0, 0), multiset{}, multiset{})
  {
  }

  method NoteMismatch(ds: map<string, Record>, gs: map<string, Record>, ids: seq<string>, n: nat, before: seq<string>)
      returns (mismatches: seq<string>)
    requires Pairs(ds, gs, ids) && n < |ids| && before == TextMismatches(ds, gs, ids, n)
    ensures mismatches == TextMismatches(ds, gs, ids, n + 1)
  {
    mismatches := before;
    if ds[ids[n]].text != gs[ids[n]].text {
      mismatches := mismatches + [ids[n]];
    }
  }

  /** One record diffed, and its changes added in. */
  method AddRecord(
    ds: map<string, Record>, gs: map<string, Record>, ids: seq<string>, n: nat, ghost parts0: seq<RecordDiff>,
    tally0: Tally, addedBy0: multiset<string>, removedBy0: multiset<string>)
      returns (tally: Tally, addedBy: multiset<string>, removedBy: multiset<string>, ghost parts: seq<RecordDiff>)
    requires Pairs(ds, gs, ids) && n == |parts0| < |ids| && Summed(ds, gs, ids, parts0, tally0, addedBy0, removedBy0)
    ensures |parts| == n + 1 && Summed(ds, gs, ids, parts, tally, addedBy, removedBy)
  {
    hide IsDiff;
    hide Explains;
    hide CountsMatch;
    hide Sum;
    var d := DiffRecord(ds[ids[n]].spans, gs[ids[n]].spans);
    tally := tally0.Plus(d);
    addedBy, removedBy := CountChanges(addedBy0, removedBy0, d, parts0);
    ExplainsGrow(ds, gs, ids, parts0, d);
    parts := parts0 + [d];
  }

  /** The two counters, raised by one record's changes. */
  method CountChanges(
    addedBy0: multiset<string>, removedBy0: multiset<string>, d: RecordDiff, ghost parts: seq<RecordDiff>)
      returns (addedBy: multiset<string>, removedBy: multiset<string>)
    requires CountsMatch(parts, |parts|, addedBy0, removedBy0)
    ensures Sum(parts + [d], |parts| + 1) == Sum(parts, |parts|).Plus(d)
    ensures CountsMatch(parts + [d], |parts| + 1, addedBy, removedBy)
    ensures |addedBy| == |addedBy0| + |d.added| && |removedBy| == |removedBy0| + |d.removed|
  {
    addedBy := CountEntities(addedBy0, d.added);
    removedBy := CountEntities(removedBy0, d.removed);
    CountsGrow(parts, d, addedBy0, removedBy0, addedBy, removedBy);
  }

  lemma {:induction false} ExplainsPrefix(ds: map<string, Record>, gs: map<string, Record>, ids: seq<string>,
                                          a: seq<RecordDiff>, b: seq<RecordDiff>, n: nat)
    requires Pairs(ds, gs, ids) && n <= |ids| && n <= |a| && n <= |b|
    requires (forall i :: 0 <= i < n ==> a[i] == b[i]) && Explains(ds, gs, ids, a, n)
    ensures Explains(ds, gs, ids, b, n)
  {
    if n > 0 {
      ExplainsPrefix(ds, gs, ids, a, b, n - 1);
    }
  }

  lemma {:induction false} SharedArePairs(ds: map<string, Record>, gs: map<string, Record>, ids: seq<string>)
    requires Elements(ids) == ds.Keys * gs.Keys
    ensures Pairs(ds, gs, ids)
  {
    forall i | 0 <= i < |ids| ensures ids[i] in ds && ids[i] in gs {
      assert ids[i] in Elements(ids);
    }
  }

  /** `diff`: the human pass between a draft and the gold made from it. */
  method Diff(draft: seq<Record>, gold: seq<Record>)
      returns (r: Result<HumanPass, AuditError>, ghost shared: seq<string>, ghost parts: seq<RecordDiff>)
    ensures r.Err? <==> !DistinctIds(draft, |draft|)
    ensures r.Ok? ==>
      var ds, gs := ById(draft, |draft|), ById(gold, |gold|);
      && SharedIds(ds, gs, shared) && Pairs(ds, gs, shared)
      && |parts| == |shared| && Explains(ds, gs, shared, parts, |shared|)
      && r.value.tally == Sum(parts, |parts|) && r.value.compared == |shared|
      && r.value.mismatches == TextMismatches(ds, gs, shared, |shared|)
      && Elements(r.value.onlyInDraft) == ds.Keys - gs.Keys && Elements(r.value.onlyInGold) == gs.Keys - ds.Keys
      && CountsMatch(parts, |parts|, r.value.addedByEntity, r.value.removedByEntity)
      && |r.value.addedByEntity| == r.value.tally.added && |r.value.removedByEntity| == r.value.tally.removed
      && FileLawful(ds, gs, shared, |shared|, r.value.tally)
  {
    shared, parts := [], [];
    var duplicated := HasDuplicateIds(draft);
    if duplicated {
      return Err(DuplicateDraftIds), shared, parts;
    }
    var ds, gs := ById(draft, |draft|), ById(gold, |gold|);
    assert TotalPreorder(StringLeq) by { StringOrder(); }
    var ids := SortedSet(ds.Keys * gs.Keys, StringLeq);
    SharedArePairs(ds, gs, ids);
    shared := ids;
    var tally, addedBy, removedBy, mismatches;
    tally, addedBy, removedBy, mismatches, parts := SumShared(ds, gs, ids);
    FileLaws(ds, gs, ids, parts, |ids|);
    var onlyDraft := SortedSet(ds.Keys - gs.Keys, StringLeq);
    var onlyGold := SortedSet(gs.Keys - ds.Keys, StringLeq);
    r := Ok(HumanPass(|ids|, onlyDraft, onlyGold, mismatches, tally, addedBy, removedBy));
  }

  lemma {:induction false} SumOfPrefix(a: seq<RecordDiff>, b: seq<RecordDiff>, n: nat)
    requires n <= |a| && n <= |b| && forall i :: 0 <= i < n ==> a[i] == b[i]
    ensures Sum(a, n) == Sum(b, n)
    ensures forall e :: AddedAs(a, n, e) == AddedAs(b, n, e)
    ensures forall e :: RemovedAs(a, n, e) == RemovedAs(b, n, e)
  {
    if n > 0 {
      SumOfPrefix(a, b, n - 1);
    }
  }

  lemma {:induction false} CountsGrow(parts: seq<RecordDiff>, d: RecordDiff, added0: multiset<string>,
                                      removed0: multiset<string>, added: multiset<string>, removed: multiset<string>)
    requires CountsMatch(parts, |parts|, added0, removed0)
    requires forall e :: added[e] == added0[e] + Labelled(d.added, e)
    requires forall e :: removed[e] == removed0[e] + Labelled(d.removed, e)
    ensures Sum(parts + [d], |parts| + 1) == Sum(parts, |parts|).Plus(d)
    ensures CountsMatch(parts + [d], |parts| + 1, added, removed)
  {
    SumOfPrefix(parts, parts + [d], |parts|);
    forall e
      ensures added[e] == AddedAs(parts + [d], |parts| + 1, e) && removed[e] == RemovedAs(parts + [d], |parts| + 1, e)
    {
      assert AddedAs(parts + [d], |parts|, e) == AddedAs(parts, |parts|, e);
      assert RemovedAs(parts + [d], |parts|, e) == RemovedAs(parts, |parts|, e);
    }
  }

  lemma {:induction false} ExplainsGrow(ds: map<string, Record>, gs: map<string, Record>, ids: seq<string>,
                                        parts: seq<RecordDiff>, d: RecordDiff)
    requires Pairs(ds, gs, ids) && |parts| < |ids| && Explains(ds, gs, ids, parts, |parts|)
    requires IsDiff(ds[ids[|parts|]].spans, gs[ids[|parts|]].spans, d)
    ensures Explains(ds, gs, ids, parts + [d], |parts| + 1)
  {
    ExplainsPrefix(ds, gs, ids, parts, parts + [d], |parts|);
  }

  // ---------------------------------------------------------------------------------------------
  // The gate

  datatype GateError =
    | Structural(finding: Finding)
    | DraftRecordsAbsent(count: nat)
    | GoldRecordsExtra(count: nat)
    | TextsDiffer(count: nat)
    | NothingChanged

  /** What a corrected gold must be to a draft for the pair to be worth measuring against. */
  ghost predicate WorthMeasuring(draft: seq<Record>, gold: seq<Record>) {
    ValidGold(gold) && DistinctIds(draft, |draft|) && WorthComparing(draft, gold)
  }

  lemma {:induction false} ByIdIsRecord(records: seq<Record>, r: Record)
    requires DistinctIds(records, |records|)
    ensures r in records <==> r.id in ById(records, |records|) && ById(records, |records|)[r.id] == r
  {
    assert records[..|records|] == records;
    if r in records {
      var i :| 0 <= i < |records| && records[i] == r;
    }
  }

  lemma {:induction false} MismatchesDecide(
    ds: map<string, Record>, gs: map<string, Record>, shared: seq<string>, n: nat)
    requires n <= |shared| && Pairs(ds, gs, shared)
    ensures TextMismatches(ds, gs, shared, n) == [] <==>
      forall i :: 0 <= i < n ==> ds[shared[i]].text == gs[shared[i]].text
  {
    if n > 0 {
      MismatchesDecide(ds, gs, shared, n - 1);
    }
  }

  /** Two records with one id are found at one place of the shared listing, and only such pairs are. */
  lemma {:induction false} SharedIndex(draft: seq<Record>, gold: seq<Record>, shared: seq<string>, d: Record, g: Record)
      returns (i: nat)
    requires DistinctIds(draft, |draft|) && DistinctIds(gold, |gold|)
    requires SharedIds(ById(draft, |draft|), ById(gold, |gold|), shared)
    requires d in draft && g in gold && d.id == g.id
    ensures i < |shared| && shared[i] == d.id && d.id in ById(draft, |draft|) && d.id in ById(gold, |gold|)
    ensures ById(draft, |draft|)[shared[i]] == d && ById(gold, |gold|)[shared[i]] == g
  {
    ByIdIsRecord(draft, d);
    ByIdIsRecord(gold, g);
    assert d.id in Elements(shared);
    i :| 0 <= i < |shared| && shared[i] == d.id;
  }

  ghost predicate TextsAgree(draft: seq<Record>, gold: seq<Record>) {
    forall d, g :: d in draft && g in gold && d.id == g.id ==> d.text == g.text
  }

  ghost predicate SomeSpansDiffer(draft: seq<Record>, gold: seq<Record>) {
    exists d, g :: d in draft && g in gold && d.id == g.id && Elements(d.spans) != Elements(g.spans)
  }

  lemma {:induction false} TextCheckDecides(draft: seq<Record>, gold: seq<Record>, shared: seq<string>)
    requires DistinctIds(draft, |draft|) && DistinctIds(gold, |gold|)
    requires var ds, gs := ById(draft, |draft|), ById(gold, |gold|); SharedIds(ds, gs, shared) && Pairs(ds, gs, shared)
    ensures TextMismatches(ById(draft, |draft|), ById(gold, |gold|), shared, |shared|) == []
      <==> TextsAgree(draft, gold)
  {
    var ds, gs := ById(draft, |draft|), ById(gold, |gold|);
    MismatchesDecide(ds, gs, shared, |shared|);
    if TextMismatches(ds, gs, shared, |shared|) == [] {
      forall d, g | d in draft && g in gold && d.id == g.id ensures d.text == g.text {
        var i := SharedIndex(draft, gold, shared, d, g);
      }
    }
    if TextsAgree(draft, gold) {
      forall i | 0 <= i < |shared| ensures ds[shared[i]].text == gs[shared[i]].text {
      }
    }
  }

  lemma {:induction false} ChangeCheckDecides(draft: seq<Record>, gold: seq<Record>, shared: seq<string>)
    requires DistinctIds(draft, |draft|) && DistinctIds(gold, |gold|)
    requires var ds, gs := ById(draft, |draft|), ById(gold, |gold|); SharedIds(ds, gs, shared) && Pairs(ds, gs, shared)
    ensures !AllSame(ById(draft, |draft|), ById(gold, |gold|), shared, |shared|) <==> SomeSpansDiffer(draft, gold)
  {
    var ds, gs := ById(draft, |draft|), ById(gold, |gold|);
    if !AllSame(ds, gs, shared, |shared|) {
      var i :| 0 <= i < |shared| && !SameSpans(ds, gs, shared[i]);
    }
    if SomeSpansDiffer(draft, gold) {
      var d, g :| d in draft && g in gold && d.id == g.id && Elements(d.spans) != Elements(g.spans);
      var i := SharedIndex(draft, gold, shared, d, g);
      assert !SameSpans(ds, gs, shared[i]);
    }
  }

  predicate PairPasses(h: HumanPass) {
    h.onlyInDraft == [] && h.onlyInGold == [] && h.mismatches == [] && h.tally.Changed() != 0
  }

  /** The failures `main` adds for the pair, in order. */
  function PairErrors(h: HumanPass): (r: seq<GateError>)
    ensures r == [] <==> PairPasses(h)
  {
    (if h.onlyInDraft != [] then [DraftRecordsAbsent(|h.onlyInDraft|)] else [])
    + (if h.onlyInGold != [] then [GoldRecordsExtra(|h.onlyInGold|)] else [])
    + (if h.mismatches != [] then [TextsDiffer(|h.mismatches|)] else [])
    + (if h.tally.Changed() == 0 then [NothingChanged] else [])
  }

  /** The part of `WorthMeasuring` that the pair decides, once the gold is valid. */
  ghost predicate WorthComparing(draft: seq<Record>, gold: seq<Record>) {
    Ids(draft) == Ids(gold) && TextsAgree(draft, gold) && SomeSpansDiffer(draft, gold)
  }

  lemma {:induction false} PairDecides(draft: seq<Record>, gold: seq<Record>, shared: seq<string>, h: HumanPass)
    requires DistinctIds(draft, |draft|) && DistinctIds(gold, |gold|)
    requires GateFacts(draft, gold, shared, h)
    ensures PairPasses(h) <==> WorthComparing(draft, gold)
  {
    TextCheckDecides(draft, gold, shared);
    ChangeCheckDecides(draft, gold, shared);
    IdsAgree(draft, gold, h);
  }

  /** The structural findings of the gold, as failures. */
  method GoldErrors(gold: seq<Record>) returns (errors: seq<GateError>)
    ensures errors == [] <==> ValidGold(gold)
  {
    var report := Check(gold);
    CheckPassesExactlyValidGold(gold);
    var found := report.errors;
    errors := seq(|found|, i requires 0 <= i < |found| => Structural(found[i]));
  }

  /** The pair's comparison; what it decides about a gold without repeated ids. */
  method ComparePair(draft: seq<Record>, gold: seq<Record>) returns (r: Result<HumanPass, AuditError>)
    ensures r.Err? <==> !DistinctIds(draft, |draft|)
    ensures r.Ok? && DistinctIds(gold, |gold|) ==> (PairPasses(r.value) <==> WorthComparing(draft, gold))
  {
    ghost var shared;
    r, shared := DiffFacts(draft, gold);
    if r.Ok? && DistinctIds(gold, |gold|) {
      PairDecides(draft, gold, shared, r.value);
    }
  }

  /** What the gate reads off `diff`. */
  method DiffFacts(draft: seq<Record>, gold: seq<Record>)
      returns (r: Result<HumanPass, AuditError>, ghost shared: seq<string>)
    ensures r.Err? <==> !DistinctIds(draft, |draft|)
    ensures r.Ok? ==> GateFacts(draft, gold, shared, r.value)
  {
    ghost var parts;
    r, shared, parts := Diff(draft, gold);
  }

  ghost predicate GateFacts(draft: seq<Record>, gold: seq<Record>, shared: seq<string>, h: HumanPass) {
    var ds, gs := ById(draft, |draft|), ById(gold, |gold|);
    && SharedIds(ds, gs, shared) && Pairs(ds, gs, shared)
    && Elements(h.onlyInDraft) == ds.Keys - gs.Keys && Elements(h.onlyInGold) == gs.Keys - ds.Keys
    && h.mismatches == TextMismatches(ds, gs, shared, |shared|)
    && (h.tally.Changed() == 0 <==> AllSame(ds, gs, shared, |shared|))
  }

  /** `main` with a draft: the errors that decide the exit status, or the exception `diff` raises. */
  method Gate(draft: seq<Record>, gold: seq<Record>) returns (r: Result<seq<GateError>, AuditError>)
    ensures r == Ok([]) <==> WorthMeasuring(draft, gold)
    ensures r.Err? <==> !DistinctIds(draft, |draft|)
  {
    var errors := GoldErrors(gold);
    var human := ComparePair(draft, gold);
    if human.Err? {
      return Err(human.error);
    }
    var pairErrors := PairErrors(human.value);
    Verdicts(draft, gold, errors, pairErrors, human.value);
    r := Ok(errors + pairErrors);
  }

  lemma {:induction false} Verdicts(
    draft: seq<Record>, gold: seq<Record>, errors: seq<GateError>, pairErrors: seq<GateError>, h: HumanPass)
    requires DistinctIds(draft, |draft|) && (errors == [] <==> ValidGold(gold)) && (pairErrors == [] <==> PairPasses(h))
    requires DistinctIds(gold, |gold|) ==> (PairPasses(h) <==> WorthComparing(draft, gold))
    ensures errors + pairErrors == [] <==> WorthMeasuring(draft, gold)
  {
    assert errors + pairErrors == [] <==> errors == [] && pairErrors == [];
  }

  lemma {:induction false} IdsAgree(draft: seq<Record>, gold: seq<Record>, h: HumanPass)
    requires var ds, gs := ById(draft, |draft|), ById(gold, |gold|);
      Elements(h.onlyInDraft) == ds.Keys - gs.Keys && Elements(h.onlyInGold) == gs.Keys - ds.Keys
    ensures h.onlyInDraft == [] && h.onlyInGold == [] <==> Ids(draft) == Ids(gold)
  {
    var ds, gs := ById(draft, |draft|), ById(gold, |gold|);
    assert draft[..|draft|] == draft && gold[..|gold|] == gold;
    NoElements(h.onlyInDraft);
    NoElements(h.onlyInGold);
    assert ds.Keys - gs.Keys == {} && gs.Keys - ds.Keys == {} <==> ds.Keys == gs.Keys;
  }
}

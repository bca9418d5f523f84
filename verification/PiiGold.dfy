/** The structural checker for a corrected PII gold file. */
module PiiGold {
  import opened Orders
  import opened Text

  datatype Span = Span(start: int, end: int, entity: string) {
    predicate Overlaps(other: Span) {
      start < other.end && other.start < end
    }
  }

  datatype Record = Record(id: string, text: string, spans: seq<Span>)

  const KNOWN_ENTITIES: set<string> := {"NAME", "PHONE", "EMAIL", "AADHAAR", "PAN"}

  /** The bucket labels outside the known ones are counted under. */
  const UNRECOGNISED_ENTITY := "<unrecognised>"

  /** What a report may say. No finding has room for a label or for a record's text. */
  datatype Finding =
    | DuplicateId(id: string)
    | EmptyText(id: string)
    | UnknownLabel(id: string, start: int, end: int)
    | OutsideText(id: string, start: int, end: int, length: nat)
    | EmptySpan(id: string, start: int, end: int)
    | WhitespaceOnly(id: string, start: int, end: int)
    | LooseBoundaries(id: string, start: int, end: int)
    | Overlapping(id: string, start: int, end: int, start': int, end': int)

  class Report {
    var records: nat
    var spans: nat
    var byEntity: multiset<string>
    var errors: seq<Finding>
    var warnings: seq<Finding>
    var emptyRecords: nat
    var unlabelledRecords: nat

    constructor ()
      ensures records == spans == emptyRecords == unlabelledRecords == 0
      ensures byEntity == multiset{} && errors == [] && warnings == []
    {
      records, spans, emptyRecords, unlabelledRecords := 0, 0, 0, 0;
      byEntity, errors, warnings := multiset{}, [], [];
    }

    method Fail(f: Finding)
      modifies `errors
      ensures errors == old(errors) + [f]
    {
      errors := errors + [f];
    }

    method Warn(f: Finding)
      modifies `warnings
      ensures warnings == old(warnings) + [f]
    {
      warnings := warnings + [f];
    }
  }

  // ---------------------------------------------------------------------------------------------
  // What a report should say

  predicate InText(r: Record, s: Span) {
    0 <= s.start && s.end <= |r.text|
  }

  function Surface(r: Record, s: Span): string
    requires InText(r, s) && s.start < s.end
  {
    r.text[s.start..s.end]
  }

  function BoundsErrors(r: Record, s: Span): seq<Finding> {
    if !InText(r, s) then [OutsideText(r.id, s.start, s.end, |r.text|)]
    else if s.start >= s.end then [EmptySpan(r.id, s.start, s.end)]
    else if Strip(Surface(r, s)) == "" then [WhitespaceOnly(r.id, s.start, s.end)]
    else []
  }

  // The functions below extend a list `acc` of findings, in the order the checker appends them.

  function SpanErrors(acc: seq<Finding>, r: Record, s: Span): seq<Finding> {
    acc + (if s.entity in KNOWN_ENTITIES then [] else [UnknownLabel(r.id, s.start, s.end)]) + BoundsErrors(r, s)
  }

  function SpanWarnings(acc: seq<Finding>, r: Record, s: Span): seq<Finding> {
    if BoundsErrors(r, s) == [] && Surface(r, s) != Strip(Surface(r, s))
    then acc + [LooseBoundaries(r.id, s.start, s.end)] else acc
  }

  function Bucket(s: Span): string {
    if s.entity in KNOWN_ENTITIES then s.entity else UNRECOGNISED_ENTITY
  }

  function SpansErrors(acc: seq<Finding>, r: Record, n: nat): seq<Finding>
    requires n <= |r.spans|
  {
    if n == 0 then acc else SpanErrors(SpansErrors(acc, r, n - 1), r, r.spans[n - 1])
  }

  function SpansWarnings(acc: seq<Finding>, r: Record, n: nat): seq<Finding>
    requires n <= |r.spans|
  {
    if n == 0 then acc else SpanWarnings(SpansWarnings(acc, r, n - 1), r, r.spans[n - 1])
  }

  function Buckets(acc: multiset<string>, r: Record, n: nat): multiset<string>
    requires n <= |r.spans|
  {
    if n == 0 then acc else Buckets(acc, r, n - 1) + multiset{Bucket(r.spans[n - 1])}
  }

  /** key=lambda s: (s.start, s.end). */
  predicate SpanLeq(a: Span, b: Span) {
    a.start < b.start || (a.start == b.start && a.end <= b.end)
  }

  function OverlapErrors(acc: seq<Finding>, id: string, ordered: seq<Span>, n: nat): seq<Finding>
    requires n <= |ordered|
  {
    if n <= 1 then acc
    else
      var l, r := ordered[n - 2], ordered[n - 1];
      var before := OverlapErrors(acc, id, ordered, n - 1);
      if l.Overlaps(r) then before + [Overlapping(id, l.start, l.end, r.start, r.end)] else before
  }

  function Ids(records: seq<Record>): set<string> {
    set r | r in records :: r.id
  }

  lemma {:induction false} IdsGrow(records: seq<Record>, n: nat)
    requires n < |records|
    ensures Ids(records[..n + 1]) == Ids(records[..n]) + {records[n].id}
  {
    assert records[..n + 1] == records[..n] + [records[n]];
  }

  function RecordErrors(acc: seq<Finding>, seen: set<string>, r: Record): seq<Finding> {
    var ordered := Sort(r.spans, SpanLeq);
    var start := if r.id in seen then acc + [DuplicateId(r.id)] else acc;
    OverlapErrors(SpansErrors(start, r, |r.spans|), r.id, ordered, |ordered|)
  }

  function RecordWarnings(acc: seq<Finding>, r: Record): seq<Finding> {
    SpansWarnings(if Strip(r.text) == "" then acc + [EmptyText(r.id)] else acc, r, |r.spans|)
  }

  function Errors(records: seq<Record>, n: nat): seq<Finding>
    requires n <= |records|
  {
    if n == 0 then []
    else RecordErrors(Errors(records, n - 1), Ids(records[..n - 1]), records[n - 1])
  }

  function Warnings(records: seq<Record>, n: nat): seq<Finding>
    requires n <= |records|
  {
    if n == 0 then [] else RecordWarnings(Warnings(records, n - 1), records[n - 1])
  }

  /** How many of the first `n` records have no visible text. */
  function EmptyCount(records: seq<Record>, n: nat): nat
    requires n <= |records|
  {
    if n == 0 then 0 else EmptyCount(records, n - 1) + (if Strip(records[n - 1].text) == "" then 1 else 0)
  }

  function UnlabelledCount(records: seq<Record>, n: nat): nat
    requires n <= |records|
  {
    if n == 0 then 0 else UnlabelledCount(records, n - 1) + (if records[n - 1].spans == [] then 1 else 0)
  }

  function SpanCount(records: seq<Record>, n: nat): nat
    requires n <= |records|
  {
    if n == 0 then 0 else SpanCount(records, n - 1) + |records[n - 1].spans|
  }

  function EntityCount(records: seq<Record>, n: nat): multiset<string>
    requires n <= |records|
  {
    if n == 0 then multiset{}
    else Buckets(EntityCount(records, n - 1), records[n - 1], |records[n - 1].spans|)
  }

  /** The checks on one span, in order, each reported where it fails. */
  method CheckSpan(report: Report, r: Record, s: Span)
    modifies report
    ensures report.errors == SpanErrors(old(report.errors), r, s)
    ensures report.warnings == SpanWarnings(old(report.warnings), r, s)
    ensures report.spans == old(report.spans) + 1
    ensures report.byEntity == old(report.byEntity) + multiset{Bucket(s)}
    ensures unchanged(report`records, report`emptyRecords, report`unlabelledRecords)
  {
    report.spans := report.spans + 1;
    var known := s.entity in KNOWN_ENTITIES;
    var bucket := if known then s.entity else UNRECOGNISED_ENTITY;
    report.byEntity := report.byEntity[bucket := report.byEntity[bucket] + 1];
    if !known {
      report.Fail(UnknownLabel(r.id, s.start, s.end));
    }
    if s.start < 0 || s.end > |r.text| {
      report.Fail(OutsideText(r.id, s.start, s.end, |r.text|));
      return;
    }
    if s.start >= s.end {
      report.Fail(EmptySpan(r.id, s.start, s.end));
      return;
    }
    var surface := r.text[s.start..s.end];
    if Strip(surface) == "" {
      report.Fail(WhitespaceOnly(r.id, s.start, s.end));
    } else if surface != Strip(surface) {
      report.Warn(LooseBoundaries(r.id, s.start, s.end));
    }
  }

  /** The loop over `zip(ordered, ordered[1:])`. */
  method CheckOverlaps(report: Report, r: Record)
    modifies report`errors
    ensures var ordered := Sort(r.spans, SpanLeq);
      report.errors == OverlapErrors(old(report.errors), r.id, ordered, |ordered|)
  {
    var ordered := Sort(r.spans, SpanLeq);
    var i := 1;
    while i < |ordered|
      invariant 1 <= i && (i <= |ordered| || |ordered| == 0)
      invariant report.errors == OverlapErrors(old(report.errors), r.id, ordered, if ordered == [] then 0 else i)
    {
      var left, right := ordered[i - 1], ordered[i];
      if left.Overlaps(right) {
        report.Fail(Overlapping(r.id, left.start, left.end, right.start, right.end));
      }
      i := i + 1;
    }
  }

  method CheckSpans(report: Report, r: Record)
    modifies report
    ensures report.errors == SpansErrors(old(report.errors), r, |r.spans|)
    ensures report.warnings == SpansWarnings(old(report.warnings), r, |r.spans|)
    ensures report.spans == old(report.spans) + |r.spans|
    ensures report.byEntity == Buckets(old(report.byEntity), r, |r.spans|)
    ensures unchanged(report`records, report`emptyRecords, report`unlabelledRecords)
  {
    for i := 0 to |r.spans|
      invariant report.errors == SpansErrors(old(report.errors), r, i)
      invariant report.warnings == SpansWarnings(old(report.warnings), r, i)
      invariant report.spans == old(report.spans) + i
      invariant report.byEntity == Buckets(old(report.byEntity), r, i)
      invariant unchanged(report`records, report`emptyRecords, report`unlabelledRecords)
    {
      CheckSpan(report, r, r.spans[i]);
    }
  }

  method CheckRecord(report: Report, seen: set<string>, r: Record)
    modifies report
    ensures report.errors == RecordErrors(old(report.errors), seen, r)
    ensures report.warnings == RecordWarnings(old(report.warnings), r)
    ensures report.records == old(report.records) + 1
    ensures report.spans == old(report.spans) + |r.spans|
    ensures report.byEntity == Buckets(old(report.byEntity), r, |r.spans|)
    ensures report.emptyRecords == old(report.emptyRecords) + (if Strip(r.text) == "" then 1 else 0)
    ensures report.unlabelledRecords == old(report.unlabelledRecords) + (if r.spans == [] then 1 else 0)
  {
    CheckHead(report, seen, r);
    CheckSpans(report, r);
    CheckOverlaps(report, r);
  }

  /** What is counted and reported of a record before its spans. */
  method CheckHead(report: Report, seen: set<string>, r: Record)
    modifies report
    ensures report.errors == if r.id in seen then old(report.errors) + [DuplicateId(r.id)] else old(report.errors)
    ensures report.warnings
      == if Strip(r.text) == "" then old(report.warnings) + [EmptyText(r.id)] else old(report.warnings)
    ensures report.records == old(report.records) + 1
    ensures report.emptyRecords == old(report.emptyRecords) + (if Strip(r.text) == "" then 1 else 0)
    ensures report.unlabelledRecords == old(report.unlabelledRecords) + (if r.spans == [] then 1 else 0)
    ensures unchanged(report`spans, report`byEntity)
  {
    report.records := report.records + 1;
    if r.id in seen {
      report.Fail(DuplicateId(r.id));
    }
    if Strip(r.text) == "" {
      report.emptyRecords := report.emptyRecords + 1;
      report.Warn(EmptyText(r.id));
    }
    if r.spans == [] {
      report.unlabelledRecords := report.unlabelledRecords + 1;
    }
  }

  /** `check`: one report over all the records. */
  method Check(records: seq<Record>) returns (report: Report)
    ensures fresh(report)
    ensures report.errors == Errors(records, |records|)
    ensures report.warnings == Warnings(records, |records|)
    ensures report.records == |records|
    ensures report.spans == SpanCount(records, |records|)
    ensures report.byEntity == EntityCount(records, |records|)
    ensures report.emptyRecords == EmptyCount(records, |records|)
    ensures report.unlabelledRecords == UnlabelledCount(records, |records|)
  {
    report := new Report();
    var seen: set<string> := {};
    for n := 0 to |records|
      invariant fresh(report)
      invariant seen == Ids(records[..n])
      invariant report.errors == Errors(records, n)
      invariant report.warnings == Warnings(records, n)
      invariant report.records == n
      invariant report.spans == SpanCount(records, n)
      invariant report.byEntity == EntityCount(records, n)
      invariant report.emptyRecords == EmptyCount(records, n)
      invariant report.unlabelledRecords == UnlabelledCount(records, n)
    {
      CheckRecord(report, seen, records[n]);
      IdsGrow(records, n);
      seen := seen + {records[n].id};
    }
  }

  // ---------------------------------------------------------------------------------------------
  // What passing means

  ghost predicate ValidSpan(r: Record, s: Span) {
    && s.entity in KNOWN_ENTITIES
    && 0 <= s.start < s.end <= |r.text|
    && !Blank(r.text[s.start..s.end])
  }

  ghost predicate Disjoint(spans: seq<Span>) {
    forall i, j :: 0 <= i < j < |spans| ==> !spans[i].Overlaps(spans[j])
  }

  /** A record the scorecard can trust. */
  ghost predicate ValidRecord(r: Record) {
    && (forall i :: 0 <= i < |r.spans| ==> ValidSpan(r, r.spans[i]))
    && Disjoint(r.spans)
  }

  ghost predicate AllValid(records: seq<Record>, n: nat)
    requires n <= |records|
  {
    forall i :: 0 <= i < n ==> ValidRecord(records[i])
  }

  ghost predicate DistinctIds(records: seq<Record>, n: nat)
    requires n <= |records|
  {
    forall i, j :: 0 <= i < j < n ==> records[i].id != records[j].id
  }

  ghost predicate ValidGold(records: seq<Record>) {
    AllValid(records, |records|) && DistinctIds(records, |records|)
  }

  lemma {:induction false} SpanErrorsDecide(acc: seq<Finding>, r: Record, s: Span)
    ensures SpanErrors(acc, r, s) == [] <==> acc == [] && ValidSpan(r, s)
  {
    if InText(r, s) && s.start < s.end {
      StripDecides(Surface(r, s));
    }
  }

  lemma {:induction false} SpansErrorsDecide(acc: seq<Finding>, r: Record, n: nat)
    requires n <= |r.spans|
    ensures SpansErrors(acc, r, n) == [] <==> acc == [] && ValidTo(r, n)
  {
    hide SpanErrors;
    hide ValidSpan;
    if n > 0 {
      SpansErrorsDecide(acc, r, n - 1);
      SpanErrorsDecide(SpansErrors(acc, r, n - 1), r, r.spans[n - 1]);
    }
  }

  /** The first `n` spans are valid. */
  ghost predicate ValidTo(r: Record, n: nat)
    requires n <= |r.spans|
  {
    n == 0 || (ValidTo(r, n - 1) && ValidSpan(r, r.spans[n - 1]))
  }

  lemma {:induction false} ValidToAll(r: Record, n: nat)
    requires n <= |r.spans|
    ensures ValidTo(r, n) <==> forall i :: 0 <= i < n ==> ValidSpan(r, r.spans[i])
  {
    if n > 0 {
      ValidToAll(r, n - 1);
    }
  }

  lemma {:induction false} OverlapErrorsDecide(acc: seq<Finding>, id: string, ordered: seq<Span>, n: nat)
    requires n <= |ordered|
    ensures OverlapErrors(acc, id, ordered, n) == [] <==>
      acc == [] && forall i :: 0 < i < n ==> !ordered[i - 1].Overlaps(ordered[i])
  {
    if n > 1 {
      OverlapErrorsDecide(acc, id, ordered, n - 1);
    }
  }

  /** If neighbours in start order are disjoint, each span ends before any later one starts. */
  lemma {:induction false} NeighboursBound(ordered: seq<Span>, i: nat, j: nat)
    requires Sorted(ordered, SpanLeq) && i < j < |ordered|
    requires forall k :: 0 <= k < |ordered| ==> ordered[k].start < ordered[k].end
    requires forall k :: 0 < k < |ordered| ==> !ordered[k - 1].Overlaps(ordered[k])
    ensures ordered[i].end <= ordered[j].start
    decreases j - i
  {
    assert SpanLeq(ordered[j - 1], ordered[j]);
    assert !ordered[j - 1].Overlaps(ordered[j]);
    if i < j - 1 {
      NeighboursBound(ordered, i, j - 1);
    }
  }

  /** After sorting nonempty spans, disjoint neighbours are the same as disjoint pairs. */
  lemma {:induction false} NeighboursDecide(ordered: seq<Span>)
    requires Sorted(ordered, SpanLeq)
    requires forall k :: 0 <= k < |ordered| ==> ordered[k].start < ordered[k].end
    ensures Disjoint(ordered) <==> forall k :: 0 < k < |ordered| ==> !ordered[k - 1].Overlaps(ordered[k])
  {
    if forall k :: 0 < k < |ordered| ==> !ordered[k - 1].Overlaps(ordered[k]) {
      forall i, j | 0 <= i < j < |ordered| ensures !ordered[i].Overlaps(ordered[j]) {
        NeighboursBound(ordered, i, j);
      }
    }
  }

  /** The list without its k-th element. */
  function Without<T>(s: seq<T>, k: nat): (r: seq<T>)
    requires k < |s|
    ensures |r| == |s| - 1
    ensures multiset(r) == multiset(s) - multiset{s[k]}
    ensures forall m :: 0 <= m < |r| ==> r[m] == if m < k then s[m] else s[m + 1]
  {
    assert s == s[..k] + [s[k]] + s[k + 1..];
    s[..k] + s[k + 1..]
  }

  lemma {:induction false} OutOfWithout<T>(a: seq<T>, k: nat, x: T) returns (m: nat)
    requires k < |a| && x in Without(a, k)
    ensures m < |a| && m != k && a[m] == x
  {
    var n :| 0 <= n < |a| - 1 && Without(a, k)[n] == x;
    m := if n < k then n else n + 1;
  }

  /** Any two entries of a rearrangement of `a` are two entries of `a`. */
  lemma {:induction false} PairInPermutation<T>(a: seq<T>, b: seq<T>, i: nat, j: nat) returns (k: nat, m: nat)
    requires multiset(a) == multiset(b) && i < j < |b|
    ensures k < |a| && m < |a| && k != m && a[k] == b[i] && a[m] == b[j]
  {
    MultisetElement(a, b, b[i]);
    k :| 0 <= k < |a| && a[k] == b[i];
    MultisetElement(Without(a, k), Without(b, i), b[j]);
    m := OutOfWithout(a, k, b[j]);
  }

  lemma {:induction false} DisjointPermutes(a: seq<Span>, b: seq<Span>)
    requires multiset(a) == multiset(b) && Disjoint(a)
    ensures Disjoint(b)
  {
    forall i, j | 0 <= i < j < |b| ensures !b[i].Overlaps(b[j]) {
      var k, m := PairInPermutation(a, b, i, j);
      assert k < m || m < k;
    }
  }

  lemma {:induction false} OrderedOverlapsDecide(spans: seq<Span>)
    requires forall k :: 0 <= k < |spans| ==> spans[k].start < spans[k].end
    ensures var ordered := Sort(spans, SpanLeq);
      Disjoint(spans) <==> forall k :: 0 < k < |ordered| ==> !ordered[k - 1].Overlaps(ordered[k])
  {
    var ordered := Sort(spans, SpanLeq);
    SortCorrect(spans, SpanLeq);
    forall k | 0 <= k < |ordered| ensures ordered[k].start < ordered[k].end {
      MultisetElement(ordered, spans, ordered[k]);
    }
    NeighboursDecide(ordered);
    if Disjoint(ordered) {
      DisjointPermutes(ordered, spans);
    }
    if Disjoint(spans) {
      DisjointPermutes(spans, ordered);
    }
  }

  ghost predicate SpansValid(r: Record) {
    forall i :: 0 <= i < |r.spans| ==> ValidSpan(r, r.spans[i])
  }

  ghost predicate NeighboursApart(ordered: seq<Span>) {
    forall k :: 0 < k < |ordered| ==> !ordered[k - 1].Overlaps(ordered[k])
  }

  lemma {:induction false} StagesDecide(start: seq<Finding>, r: Record, ordered: seq<Span>)
    ensures OverlapErrors(SpansErrors(start, r, |r.spans|), r.id, ordered, |ordered|) == []
      <==> start == [] && SpansValid(r) && NeighboursApart(ordered)
  {
    SpansErrorsDecide(start, r, |r.spans|);
    ValidToAll(r, |r.spans|);
    OverlapErrorsDecide(SpansErrors(start, r, |r.spans|), r.id, ordered, |ordered|);
  }

  lemma {:induction false} ValidSpansApart(r: Record)
    requires SpansValid(r)
    ensures Disjoint(r.spans) <==> NeighboursApart(Sort(r.spans, SpanLeq))
  {
    OrderedOverlapsDecide(r.spans);
  }

  lemma {:induction false} RecordErrorsDecide(acc: seq<Finding>, seen: set<string>, r: Record)
    ensures RecordErrors(acc, seen, r) == [] <==> acc == [] && r.id !in seen && ValidRecord(r)
  {
    StagesDecide(if r.id in seen then acc + [DuplicateId(r.id)] else acc, r, Sort(r.spans, SpanLeq));
    if SpansValid(r) {
      ValidSpansApart(r);
    }
  }

  lemma {:induction false} IdsOfPrefix(records: seq<Record>, n: nat)
    requires n < |records|
    ensures records[n].id in Ids(records[..n]) <==> exists i :: 0 <= i < n && records[i].id == records[n].id
    ensures DistinctIds(records, n + 1) <==> DistinctIds(records, n) && records[n].id !in Ids(records[..n])
  {
    var init := records[..n];
    forall i | 0 <= i < n && records[i].id == records[n].id ensures records[n].id in Ids(init) {
      assert init[i] in init;
    }
  }

  lemma {:induction false} AllValidNext(records: seq<Record>, n: nat)
    requires 0 < n <= |records|
    ensures AllValid(records, n) <==> AllValid(records, n - 1) && ValidRecord(records[n - 1])
  {
    hide ValidRecord;
  }

  lemma {:induction false} ErrorsDecide(records: seq<Record>, n: nat)
    requires n <= |records|
    ensures Errors(records, n) == [] <==> AllValid(records, n) && DistinctIds(records, n)
  {
    if n > 0 {
      hide AllValid;
      hide DistinctIds;
      hide RecordErrors;
      hide ValidRecord;
      hide Ids;
      ErrorsDecide(records, n - 1);
      RecordErrorsDecide(Errors(records, n - 1), Ids(records[..n - 1]), records[n - 1]);
      IdsOfPrefix(records, n - 1);
      AllValidNext(records, n);
    }
  }

  /**
   * The checker reports no error exactly when ids are distinct and, in every record, each span is
   * labelled, inside the text, not blank, and no two spans overlap.
   */
  lemma {:induction false} CheckPassesExactlyValidGold(records: seq<Record>)
    ensures Errors(records, |records|) == [] <==> ValidGold(records)
  {
    ErrorsDecide(records, |records|);
  }

  ghost predicate SafeBuckets(m: multiset<string>) {
    forall b :: b in m ==> b in KNOWN_ENTITIES || b == UNRECOGNISED_ENTITY
  }

  lemma {:induction false} BucketsCount(acc: multiset<string>, r: Record, n: nat)
    requires n <= |r.spans|
    ensures |Buckets(acc, r, n)| == |acc| + n
    ensures SafeBuckets(acc) ==> SafeBuckets(Buckets(acc, r, n))
  {
    if n > 0 {
      BucketsCount(acc, r, n - 1);
    }
  }

  /** Every span is counted once, and only known labels or the bucket ever appear in the count. */
  lemma {:induction false} EntityCountIsSafe(records: seq<Record>, n: nat)
    requires n <= |records|
    ensures |EntityCount(records, n)| == SpanCount(records, n)
    ensures SafeBuckets(EntityCount(records, n))
  {
    if n > 0 {
      EntityCountIsSafe(records, n - 1);
      BucketsCount(EntityCount(records, n - 1), records[n - 1], |records[n - 1].spans|);
    }
  }
}

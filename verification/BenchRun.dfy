/** The measurement loop of the latency benchmark, over a file system that may change under it. */
module BenchRun {
  import opened Wrappers
  import opened Orders
  import opened Collecting
  import opened BenchDigest

  const STAGES := ["format", "ocr", "pii", "spam", "page_type", "summarize", "categorize", "route"]
  const E2E := "e2e"

  datatype Path = Path(directory: string, name: string)

  /** A document: bytes held in memory, or a path to read them from, or neither. */
  datatype Doc = Doc(ticket: string, kind: string, bytes: Option<string>, path: Option<Path>)

  /** What one call of the processor does: raise, or return after its timing sink was called. */
  datatype Outcome = Raised(error: string) | Returned(captured: map<string, real>, elapsed: real)

  /**
   * A run: what is measured, the processor or none for synthetic timings, what each path holds at each moment, the
   * moment of the run's first read, and the fingerprint taken before the run, if any. Every read has a moment of its
   * own, and nothing ties what a path holds at one moment to what it holds at another.
   */
  datatype Setup = Setup(
    docs: seq<Doc>, repeats: int, discardWarm: bool,
    processor: Option<(nat, nat, Option<string>) -> Outcome>, synthetic: (nat, nat, string) -> real,
    disk: (nat, Path) -> Option<string>, start: nat, expected: Option<map<string, string>>, hash: string -> string)

  datatype RunError = FileNotFound(name: string) | StaleDocumentBytes(name: string)

  // ---------------------------------------------------------------------------------------------
  // Resolving a document's bytes

  /** The bytes of document `i`, read and checked once before its repeats. */
  function Resolve(s: Setup, i: nat): Result<Option<string>, RunError>
    requires i < |s.docs|
  {
    var doc := s.docs[i];
    if doc.bytes.Some? || doc.path.None? || s.processor.None? then Ok(doc.bytes)
    else
      var name := doc.path.value.name;
      match s.disk(s.start + i, doc.path.value)
      case None => Err(FileNotFound(name))
      case Some(read) =>
        if s.expected.None? then Ok(Some(read))
        else if name !in s.expected.value || s.hash(read) != s.expected.value[name] then Err(StaleDocumentBytes(name))
        else Ok(Some(read))
  }

  // ---------------------------------------------------------------------------------------------
  // Attempts, and what each contributes

  /** One call: its document, the bytes handed to the processor, and what came of it. */
  datatype Attempt = Attempt(doc: Doc, processed: Option<string>, warmUp: bool, outcome: Outcome)

  /** The samples a synthetic call yields: every stage and the total. */
  function SyntheticSamples(s: Setup, i: nat, r: nat): map<string, real> {
    (map stage | stage in STAGES :: s.synthetic(i, r, stage))[E2E := s.synthetic(i, r, E2E)]
  }

  function AttemptAt(s: Setup, i: nat, r: nat): Attempt
    requires i < |s.docs| && Resolve(s, i).Ok?
  {
    var doc, warmUp := s.docs[i], s.discardWarm && r == 0;
    match s.processor
    case Some(process) =>
      var bytes := Resolve(s, i).value;
      Attempt(doc, bytes, warmUp, process(i, r, bytes))
    case None => Attempt(doc, None, warmUp, Returned(SyntheticSamples(s, i, r), s.synthetic(i, r, E2E)))
  }

  /** The attempts of document `i`, up to repeat `n`. */
  function Repeats(s: Setup, i: nat, n: nat): (t: seq<Attempt>)
    requires i < |s.docs| && Resolve(s, i).Ok?
    ensures |t| == n
  {
    if n == 0 then [] else Repeats(s, i, n - 1) + [AttemptAt(s, i, n - 1)]
  }

  function Times(s: Setup): nat {
    if s.repeats > 0 then s.repeats else 0
  }

  ghost predicate AllResolve(s: Setup, n: nat)
    requires n <= |s.docs|
  {
    forall i :: 0 <= i < n ==> Resolve(s, i).Ok?
  }

  /** Every attempt of the first `n` documents, in order. */
  function Trace(s: Setup, n: nat): seq<Attempt>
    requires n <= |s.docs| && AllResolve(s, n)
  {
    if n == 0 then [] else Trace(s, n - 1) + Repeats(s, n - 1, Times(s))
  }

  /** Why an attempt failed, if it did: an exception, or a timing record that says it is incomplete. */
  function FailureOf(a: Attempt): Option<string> {
    match a.outcome
    case Raised(error) => Some(error)
    case Returned(captured, _) =>
      if "ok" in captured && captured["ok"] != 1.0 then Some("IncompleteTimingRecord") else None
  }

  /** The samples of a completed attempt: what the sink captured, with the wall clock where it gave no total. */
  function SamplesOf(a: Attempt): map<string, real>
    requires FailureOf(a).None?
  {
    var stages := a.outcome.captured - {"ok"};
    if E2E in stages then stages else stages[E2E := a.outcome.elapsed]
  }

  function Completed(a: Attempt): Option<Attempt> {
    if FailureOf(a).None? then Some(a) else None
  }

  /** Completed, and not the discarded first repeat. */
  predicate Measured(a: Attempt) {
    FailureOf(a).None? && !a.warmUp
  }

  function Seconds(stage: string): Attempt -> Option<real> {
    (a: Attempt) => if Measured(a) && stage in SamplesOf(a) then Some(SamplesOf(a)[stage]) else None
  }

  function Tickets(stage: string): Attempt -> Option<string> {
    (a: Attempt) => if Measured(a) && stage in SamplesOf(a) then Some(a.doc.ticket) else None
  }

  function Kinds(stage: string): Attempt -> Option<string> {
    (a: Attempt) => if Measured(a) && stage in SamplesOf(a) then Some(a.doc.kind) else None
  }

  function Total(a: Attempt): Option<real> {
    if FailureOf(a).None? then Some(SamplesOf(a)[E2E]) else None
  }

  function CompletedTicket(a: Attempt): Option<string> {
    if FailureOf(a).None? then Some(a.doc.ticket) else None
  }

  function Failing(error: string): Attempt -> Option<Attempt> {
    (a: Attempt) => if FailureOf(a) == Some(error) then Some(a) else None
  }

  // ---------------------------------------------------------------------------------------------
  // The record the loop keeps

  datatype Log = Log(
    times: map<string, seq<real>>, tickets: map<string, seq<string>>, kinds: map<string, seq<string>>,
    cold: seq<real>, warm: seq<real>, coldTickets: seq<string>, warmTickets: seq<string>,
    attempts: nat, completed: nat, failures: map<string, nat>)

  /** One of the three parallel dictionaries holds, for every stage, what `f` collects from the attempts. */
  ghost predicate Holds<V>(m: map<string, seq<V>>, trace: seq<Attempt>, f: string -> Attempt -> Option<V>) {
    && (forall k :: k in m <==> k in STAGES + [E2E] || Collect(trace, f(k)) != [])
    && (forall k :: k in m ==> m[k] == Collect(trace, f(k)))
  }

  ghost predicate HoldsFailures(m: map<string, nat>, trace: seq<Attempt>) {
    && (forall e :: e in m ==> m[e] == |Collect(trace, Failing(e))| && m[e] > 0)
    && (forall e :: e !in m ==> Collect(trace, Failing(e)) == [])
  }

  /** The first completed attempt is cold, the others are warm. */
  ghost predicate HoldsTemperatures(l: Log, trace: seq<Attempt>) {
    && |l.cold| <= 1 && (l.cold == [] ==> l.warm == [])
    && l.cold + l.warm == Collect(trace, Total)
    && |l.coldTickets| == |l.cold| && l.coldTickets + l.warmTickets == Collect(trace, CompletedTicket)
  }

  ghost predicate Records(l: Log, trace: seq<Attempt>) {
    && Holds(l.times, trace, Seconds)
    && Holds(l.tickets, trace, Tickets)
    && Holds(l.kinds, trace, Kinds)
    && HoldsTemperatures(l, trace)
    && HoldsFailures(l.failures, trace)
    && l.attempts == |trace| && l.completed == |Collect(trace, Completed)|
  }

  /** Appends one value under every key of `samples`, creating keys on demand. */
  function AppendAll<V, W>(m: map<string, seq<V>>, samples: map<string, W>, value: string -> V): map<string, seq<V>> {
    map k | k in m.Keys + samples.Keys ::
      (if k in m then m[k] else []) + (if k in samples then [value(k)] else [])
  }

  lemma {:induction false} AppendHolds<V>(
    m: map<string, seq<V>>, trace: seq<Attempt>, a: Attempt, samples: map<string, real>, value: string -> V,
    f: string -> Attempt -> Option<V>)
    requires Holds(m, trace, f)
    requires forall k :: f(k)(a) == if k in samples then Some(value(k)) else None
    ensures Holds(AppendAll(m, samples, value), trace + [a], f)
  {
    var next := AppendAll(m, samples, value);
    forall k ensures Collect(trace + [a], f(k)) == Collect(trace, f(k)) + if k in samples then [value(k)] else [] {
      CollectSnoc(trace, a, f(k));
    }
  }

  lemma {:induction false} SkipHolds<V>(
    m: map<string, seq<V>>, trace: seq<Attempt>, a: Attempt, f: string -> Attempt -> Option<V>)
    requires Holds(m, trace, f) && forall k :: f(k)(a) == None
    ensures Holds(m, trace + [a], f)
  {
    forall k ensures Collect(trace + [a], f(k)) == Collect(trace, f(k)) {
      CollectSnoc(trace, a, f(k));
    }
  }

  function Value(samples: map<string, real>): string -> real {
    (k: string) => if k in samples then samples[k] else 0.0
  }

  function Always(v: string): string -> string {
    (k: string) => v
  }

  /** A failed attempt: only its count and its exception's name are kept. */
  method RecordFailure(l: Log, error: string, ghost trace: seq<Attempt>, ghost a: Attempt) returns (next: Log)
    requires Records(l, trace) && FailureOf(a) == Some(error)
    ensures Records(next, trace + [a])
  {
    var count := if error in l.failures then l.failures[error] else 0;
    next := l.(attempts := l.attempts + 1, failures := l.failures[error := count + 1]);
    OneMoreFailure(l.failures, error, trace, a);
    SkipHolds(l.times, trace, a, Seconds);
    SkipHolds(l.tickets, trace, a, Tickets);
    SkipHolds(l.kinds, trace, a, Kinds);
    CollectSnoc(trace, a, Total);
    CollectSnoc(trace, a, CompletedTicket);
    CollectSnoc(trace, a, Completed);
    hide Holds;
    hide HoldsFailures;
    hide Collect;
  }

  lemma {:induction false} OneMoreFailure(m: map<string, nat>, error: string, trace: seq<Attempt>, a: Attempt)
    requires HoldsFailures(m, trace) && FailureOf(a) == Some(error)
    ensures HoldsFailures(m[error := (if error in m then m[error] else 0) + 1], trace + [a])
  {
    forall e ensures |Collect(trace + [a], Failing(e))|
      == |Collect(trace, Failing(e))| + if e == error then 1 else 0
    {
      CollectSnoc(trace, a, Failing(e));
    }
    hide Collect;
    hide Failing;
  }

  lemma {:induction false} NoFailure(m: map<string, nat>, trace: seq<Attempt>, a: Attempt)
    requires HoldsFailures(m, trace) && FailureOf(a).None?
    ensures HoldsFailures(m, trace + [a])
  {
    forall e ensures Collect(trace + [a], Failing(e)) == Collect(trace, Failing(e)) {
      CollectSnoc(trace, a, Failing(e));
    }
  }

  /** A completed attempt: always a temperature sample, and stage samples unless it warms up. */
  method RecordSuccess(l: Log, ticket: string, kind: string, warmUp: bool, samples: map<string, real>,
                       ghost trace: seq<Attempt>, ghost a: Attempt)
    returns (next: Log)
    requires Records(l, trace) && FailureOf(a).None? && samples == SamplesOf(a)
    requires ticket == a.doc.ticket && kind == a.doc.kind && warmUp == a.warmUp
    ensures Records(next, trace + [a])
  {
    next := l.(attempts := l.attempts + 1, completed := l.completed + 1);
    if l.completed > 0 {
      next := next.(warm := l.warm + [samples[E2E]], warmTickets := l.warmTickets + [ticket]);
    } else {
      next := next.(cold := l.cold + [samples[E2E]], coldTickets := l.coldTickets + [ticket]);
    }
    Temperatures(l, trace, a, next);
    NoFailure(l.failures, trace, a);
    CollectSnoc(trace, a, Completed);
    if warmUp {
      SkipHolds(l.times, trace, a, Seconds);
      SkipHolds(l.tickets, trace, a, Tickets);
      SkipHolds(l.kinds, trace, a, Kinds);
      return;
    }
    AppendHolds(l.times, trace, a, samples, Value(samples), Seconds);
    AppendHolds(l.tickets, trace, a, samples, Always(ticket), Tickets);
    AppendHolds(l.kinds, trace, a, samples, Always(kind), Kinds);
    next := next.(
      times := AppendAll(l.times, samples, Value(samples)),
      tickets := AppendAll(l.tickets, samples, Always(ticket)),
      kinds := AppendAll(l.kinds, samples, Always(kind)));
  }

  lemma {:induction false} Temperatures(l: Log, trace: seq<Attempt>, a: Attempt, next: Log)
    requires HoldsTemperatures(l, trace) && FailureOf(a).None? && l.completed == |Collect(trace, Completed)|
    requires if l.completed > 0 then
               next.cold == l.cold && next.coldTickets == l.coldTickets
               && next.warm == l.warm + [SamplesOf(a)[E2E]] && next.warmTickets == l.warmTickets + [a.doc.ticket]
             else
               next.warm == l.warm && next.warmTickets == l.warmTickets
               && next.cold == l.cold + [SamplesOf(a)[E2E]] && next.coldTickets == l.coldTickets + [a.doc.ticket]
    ensures HoldsTemperatures(next, trace + [a])
  {
    hide Collect;
    CollectAlike(trace, Completed, Total);
    CollectAlike(trace, Completed, CompletedTicket);
    CollectSnoc(trace, a, Total);
    CollectSnoc(trace, a, CompletedTicket);
  }

  // ---------------------------------------------------------------------------------------------
  // The loop

  /** The dictionaries before the first attempt: an empty list for every known stage. */
  function EmptyLists<V>(): map<string, seq<V>> {
    map k | k in STAGES + [E2E] :: []
  }

  method StartLog() returns (l: Log)
    ensures Records(l, [])
  {
    l := Log(EmptyLists(), EmptyLists(), EmptyLists(), [], [], [], [], 0, 0, map[]);
    EmptyHolds(Seconds);
    EmptyHolds(Tickets);
    EmptyHolds(Kinds);
    hide Holds;
    hide EmptyLists;
  }

  lemma {:induction false} EmptyHolds<V>(f: string -> Attempt -> Option<V>)
    ensures Holds(EmptyLists<V>(), [], f)
  {
  }

  /** The bytes of document `i`, and of no document before it, are refused. */
  ghost predicate FirstRefused(s: Setup, i: nat, e: RunError)
    requires i < |s.docs|
  {
    AllResolve(s, i) && Resolve(s, i) == Err(e)
  }

  /**
   * `_measure_with_processor`. A run either stops at the first document whose bytes it refuses, or records its trace.
   */
  method Measure(s: Setup) returns (r: Result<Log, RunError>)
    ensures r.Ok? <==> AllResolve(s, |s.docs|)
    ensures r.Ok? ==> Records(r.value, Trace(s, |s.docs|))
    ensures r.Err? ==> exists i :: 0 <= i < |s.docs| && FirstRefused(s, i, r.error)
  {
    hide Records;
    hide Resolve;
    var log := StartLog();
    for i := 0 to |s.docs|
      invariant AllResolve(s, i) && Records(log, Trace(s, i))
    {
      var bytes := ReadDocument(s, i);
      if bytes.Err? {
        assert FirstRefused(s, i, bytes.error);
        return Err(bytes.error);
      }
      assert Trace(s, i + 1) == Trace(s, i) + Repeats(s, i, Times(s));
      log := MeasureDocument(s, i, bytes.value, log, Trace(s, i), Trace(s, i + 1));
    }
    return Ok(log);
  }

  /** The repeats of one document, over the bytes read once. */
  method MeasureDocument(
    s: Setup, i: nat, bytes: Option<string>, log: Log, ghost trace: seq<Attempt>, ghost after: seq<Attempt>)
    returns (next: Log)
    requires i < |s.docs| && Resolve(s, i) == Ok(bytes) && Records(log, trace)
    requires after == trace + Repeats(s, i, Times(s))
    ensures Records(next, after)
  {
    hide Records;
    hide AttemptAt;
    next := log;
    assert trace + Repeats(s, i, 0) == trace;
    for n := 0 to Times(s)
      invariant Records(next, trace + Repeats(s, i, n))
    {
      next := Step(s, i, n, bytes, next, trace + Repeats(s, i, n));
      Extend(trace, Repeats(s, i, n), AttemptAt(s, i, n));
    }
  }

  lemma {:induction false} Extend(a: seq<Attempt>, b: seq<Attempt>, x: Attempt)
    ensures a + b + [x] == a + (b + [x])
  {
  }

  /** The read before a document's repeats, and its check against the fingerprint. */
  method ReadDocument(s: Setup, i: nat) returns (r: Result<Option<string>, RunError>)
    requires i < |s.docs|
    ensures r == Resolve(s, i)
  {
    var doc := s.docs[i];
    var bytes := doc.bytes;
    if bytes.None? && doc.path.Some? && s.processor.Some? {
      var name := doc.path.value.name;
      bytes := s.disk(s.start + i, doc.path.value);
      if bytes.None? {
        return Err(FileNotFound(name));
      }
      if s.expected.Some? {
        var actual := s.hash(bytes.value);
        if name !in s.expected.value || actual != s.expected.value[name] {
          return Err(StaleDocumentBytes(name));
        }
      }
    }
    return Ok(bytes);
  }

  /** One attempt: the call, the checks on what it captured, and the record. */
  method Step(s: Setup, i: nat, n: nat, bytes: Option<string>, log: Log, ghost trace: seq<Attempt>) returns (next: Log)
    requires i < |s.docs| && Resolve(s, i) == Ok(bytes) && Records(log, trace)
    ensures Records(next, trace + [AttemptAt(s, i, n)])
  {
    var doc := s.docs[i];
    var warmUp := s.discardWarm && n == 0;
    ghost var attempt := AttemptAt(s, i, n);
    if s.processor.Some? {
      var outcome := s.processor.value(i, n, bytes);
      if outcome.Raised? {
        next := RecordFailure(log, outcome.error, trace, attempt);
        return;
      }
      if "ok" in outcome.captured && outcome.captured["ok"] != 1.0 {
        next := RecordFailure(log, "IncompleteTimingRecord", trace, attempt);
        return;
      }
      var stages := outcome.captured - {"ok"};
      var samples := if E2E in stages then stages else stages[E2E := outcome.elapsed];
      next := RecordSuccess(log, doc.ticket, doc.kind, warmUp, samples, trace, attempt);
    } else {
      var samples := SyntheticSamples(s, i, n);
      NoOkStage(s, i, n);
      next := RecordSuccess(log, doc.ticket, doc.kind, warmUp, samples, trace, attempt);
    }
  }

  lemma {:induction false} NoOkStage(s: Setup, i: nat, n: nat)
    ensures "ok" !in SyntheticSamples(s, i, n) && E2E in SyntheticSamples(s, i, n)
    ensures SyntheticSamples(s, i, n) - {"ok"} == SyntheticSamples(s, i, n)
  {
    assert "ok" !in STAGES;
  }

  // ---------------------------------------------------------------------------------------------
  // What every record satisfies

  lemma {:induction false} TraceLength(s: Setup, n: nat)
    requires n <= |s.docs| && AllResolve(s, n)
    ensures |Trace(s, n)| == n * Times(s)
  {
    if n > 0 {
      TraceLength(s, n - 1);
      assert n * Times(s) == (n - 1) * Times(s) + Times(s);
    }
  }

  lemma {:induction false} EitherWay(trace: seq<Attempt>)
    ensures |Collect(trace, Completed)| + |Collect(trace, FailureOf)| == |trace|
  {
    if trace != [] {
      EitherWay(trace[..|trace| - 1]);
    }
  }

  /** The sum of the failure counts over a listing of error names. */
  ghost function FailureTotal(trace: seq<Attempt>, errors: seq<string>): nat {
    if errors == [] then 0 else FailureTotal(trace, errors[1..]) + |Collect(trace, Failing(errors[0]))|
  }

  lemma {:induction false} FailureTotalSnoc(trace: seq<Attempt>, a: Attempt, errors: seq<string>)
    requires Distinct(errors)
    ensures FailureTotal(trace + [a], errors)
      == FailureTotal(trace, errors) + if FailureOf(a).Some? && FailureOf(a).value in errors then 1 else 0
  {
    if errors != [] {
      FailureTotalSnoc(trace, a, errors[1..]);
      CollectSnoc(trace, a, Failing(errors[0]));
      assert errors == [errors[0]] + errors[1..] && errors[0] !in errors[1..];
    }
  }

  lemma {:induction false} NoFailures(errors: seq<string>)
    ensures FailureTotal([], errors) == 0
  {
    if errors != [] {
      NoFailures(errors[1..]);
    }
  }

  lemma {:induction false} FailuresAddUp(trace: seq<Attempt>, errors: seq<string>)
    requires Distinct(errors)
    requires forall e :: e in Collect(trace, FailureOf) ==> e in errors
    ensures FailureTotal(trace, errors) == |Collect(trace, FailureOf)|
  {
    if trace == [] {
      NoFailures(errors);
    } else {
      var front, last := trace[..|trace| - 1], trace[|trace| - 1];
      assert trace == front + [last];
      CollectSnoc(front, last, FailureOf);
      FailuresAddUp(front, errors);
      FailureTotalSnoc(front, last, errors);
      if FailureOf(last).Some? {
        assert Collect(trace, FailureOf)[|Collect(front, FailureOf)|] == FailureOf(last).value;
      }
    }
  }

  /** The sum of a counter's values over a listing of its keys. */
  function SumOfCounts(counts: map<string, nat>, keys: seq<string>): nat
    requires forall e :: e in keys ==> e in counts
  {
    if keys == [] then 0 else SumOfCounts(counts, keys[1..]) + counts[keys[0]]
  }

  lemma {:induction false} CountsAreTotals(counts: map<string, nat>, trace: seq<Attempt>, errors: seq<string>)
    requires HoldsFailures(counts, trace) && forall e :: e in errors ==> e in counts
    ensures SumOfCounts(counts, errors) == FailureTotal(trace, errors)
  {
    if errors != [] {
      CountsAreTotals(counts, trace, errors[1..]);
    }
  }

  lemma {:induction false} ListsKeys(errors: seq<string>, counts: map<string, nat>)
    requires Elements(errors) == counts.Keys
    ensures forall e :: e in errors <==> e in counts
  {
    assert forall e :: e in errors <==> e in Elements(errors);
  }

  /** The error names of the dictionary, listed once each, account for every attempt that did not complete. */
  lemma {:induction false} CountsConserved(s: Setup, l: Log, errors: seq<string>)
    requires AllResolve(s, |s.docs|) && Records(l, Trace(s, |s.docs|))
    requires Distinct(errors) && Elements(errors) == l.failures.Keys
    ensures l.attempts == |s.docs| * Times(s)
    ensures (forall e :: e in errors ==> e in l.failures) && l.completed + SumOfCounts(l.failures, errors) == l.attempts
    ensures |l.cold| <= 1 && |l.cold| + |l.warm| == l.completed
    ensures |l.coldTickets| + |l.warmTickets| == l.completed
  {
    var trace := Trace(s, |s.docs|);
    TraceLength(s, |s.docs|);
    EitherWay(trace);
    forall e | e in Collect(trace, FailureOf) ensures e in errors {
      CollectMember(trace, FailureOf, e);
      var a :| a in trace && FailureOf(a) == Some(e);
      CollectMember(trace, Failing(e), a);
      assert e in l.failures;
      assert e in Elements(errors);
    }
    FailuresAddUp(trace, errors);
    ListsKeys(errors, l.failures);
    CountsAreTotals(l.failures, trace, errors);
    CollectAlike(trace, Completed, Total);
    CollectAlike(trace, Completed, CompletedTicket);
    assert |l.cold + l.warm| == |l.cold| + |l.warm|;
    assert |l.coldTickets + l.warmTickets| == |l.coldTickets| + |l.warmTickets|;
  }

  /** Times, tickets and kinds stay parallel: the same stages, and lists of the same length for each. */
  lemma {:induction false} StagesAligned(l: Log, trace: seq<Attempt>)
    requires Records(l, trace)
    ensures l.times.Keys == l.tickets.Keys == l.kinds.Keys
    ensures forall k :: k in l.times ==> |l.times[k]| == |l.tickets[k]| == |l.kinds[k]|
  {
    forall k ensures |Collect(trace, Seconds(k))| == |Collect(trace, Tickets(k))| == |Collect(trace, Kinds(k))| {
      CollectAlike(trace, Seconds(k), Tickets(k));
      CollectAlike(trace, Seconds(k), Kinds(k));
    }
    forall k ensures (k in l.times <==> k in l.tickets) && (k in l.times <==> k in l.kinds) {
      assert Collect(trace, Seconds(k)) == [] <==> Collect(trace, Tickets(k)) == [];
      assert Collect(trace, Seconds(k)) == [] <==> Collect(trace, Kinds(k)) == [];
    }
  }

  function MeasuredAttempt(a: Attempt): Option<Attempt> {
    if Measured(a) then Some(a) else None
  }

  /** There is one end-to-end sample for every completed attempt that was not a discarded first repeat. */
  lemma {:induction false} OneTotalEach(l: Log, trace: seq<Attempt>)
    requires Records(l, trace)
    ensures E2E in l.times && |l.times[E2E]| == |Collect(trace, MeasuredAttempt)| <= l.completed
  {
    assert E2E in STAGES + [E2E];
    CollectAlike(trace, Seconds(E2E), MeasuredAttempt);
    MeasuredCompleted(trace);
  }

  lemma {:induction false} MeasuredCompleted(trace: seq<Attempt>)
    ensures |Collect(trace, MeasuredAttempt)| <= |Collect(trace, Completed)|
  {
    if trace != [] {
      MeasuredCompleted(trace[..|trace| - 1]);
    }
  }

  // ---------------------------------------------------------------------------------------------
  // What was processed

  /** The bytes come from the document's path, and so are checked. */
  predicate FromPath(d: Doc) {
    d.bytes.None? && d.path.Some?
  }

  lemma {:induction false} InRepeats(s: Setup, i: nat, n: nat, a: Attempt)
    requires i < |s.docs| && Resolve(s, i).Ok?
    ensures a in Repeats(s, i, n) <==> exists r: nat :: r < n && a == AttemptAt(s, i, r)
  {
    if n > 0 {
      InRepeats(s, i, n - 1, a);
    }
  }

  /** An attempt of the trace is some repeat of some document, and every repeat is there. */
  lemma {:induction false} InTrace(s: Setup, n: nat, a: Attempt)
    requires n <= |s.docs| && AllResolve(s, n)
    ensures a in Trace(s, n) <==> exists i: nat, r: nat :: i < n && r < Times(s) && a == AttemptAt(s, i, r)
  {
    if n > 0 {
      InTrace(s, n - 1, a);
      InRepeats(s, n - 1, Times(s), a);
    }
  }

  /** The processed bytes, if any, hash to what the fingerprint has under the document's name. */
  predicate Vouched(d: Doc, bytes: Option<string>, hashes: map<string, string>, hash: string -> string) {
    bytes.Some? ==>
      d.path.Some? && d.path.value.name in hashes && hash(bytes.value) == hashes[d.path.value.name]
  }

  /** Everything a completed run processed is in the fingerprint. */
  ghost predicate AllVouched(s: Setup, hashes: map<string, string>)
    requires AllResolve(s, |s.docs|)
  {
    forall a :: a in Trace(s, |s.docs|) ==> Vouched(a.doc, a.processed, hashes, s.hash)
  }

  lemma {:induction false} ReadsAreVouched(s: Setup, hashes: map<string, string>, i: nat)
    requires i < |s.docs| && s.processor.Some? && s.expected == Some(hashes) && Resolve(s, i).Ok?
    ensures Vouched(s.docs[i], Resolve(s, i).value, hashes, s.hash)
      <==> Vouched(s.docs[i], s.docs[i].bytes, hashes, s.hash)
  {
  }

  /**
   * However the files change between fingerprint and read, a run with a real processor that completes has processed
   * fingerprinted bytes alone if and only if the bytes it was given in memory, if any, were fingerprinted ones: what is
   * read from a path is checked, what is already in memory is not.
   */
  lemma {:induction false} ProcessedIffVouched(s: Setup, hashes: map<string, string>)
    requires AllResolve(s, |s.docs|) && s.processor.Some? && s.expected == Some(hashes)
    ensures AllVouched(s, hashes)
      <==> s.repeats <= 0 || forall d :: d in s.docs ==> Vouched(d, d.bytes, hashes, s.hash)
  {
    hide Vouched;
    if s.repeats > 0 && AllVouched(s, hashes) {
      forall d | d in s.docs ensures Vouched(d, d.bytes, hashes, s.hash) {
        var i: nat :| i < |s.docs| && s.docs[i] == d;
        InTrace(s, |s.docs|, AttemptAt(s, i, 0));
        ReadsAreVouched(s, hashes, i);
      }
    }
    if s.repeats <= 0 || forall d :: d in s.docs ==> Vouched(d, d.bytes, hashes, s.hash) {
      forall a | a in Trace(s, |s.docs|) ensures Vouched(a.doc, a.processed, hashes, s.hash) {
        InTrace(s, |s.docs|, a);
        var i: nat, r: nat :| i < |s.docs| && r < Times(s) && a == AttemptAt(s, i, r);
        ReadsAreVouched(s, hashes, i);
      }
    }
  }

  /** Bytes in memory that no fingerprint knows are processed all the same. */
  lemma {:induction false} MemoryIsUnchecked() returns (s: Setup, a: Attempt)
    ensures s.processor.Some? && s.expected.Some? && AllResolve(s, |s.docs|) && a in Trace(s, |s.docs|)
    ensures a.processed.Some? && s.hash(a.processed.value) !in s.expected.value.Values
  {
    var doc := Doc("T1", "image", Some("now"), Some(Path("staged", "a.pdf")));
    var process: (nat, nat, Option<string>) -> Outcome := (i, r, bytes) => Returned(map[], 0.0);
    s := Setup([doc], 1, false, Some(process), (i, r, stage) => 0.0, (t, p) => Some("then"), 0,
               Some(map["a.pdf" := "then"]), x => x);
    a := AttemptAt(s, 0, 0);
    InTrace(s, 1, a);
    assert s.hash("now") != "then";
  }

  // ---------------------------------------------------------------------------------------------
  // The fingerprint over time

  /** What each name held while the fingerprint was taken, file `j` being read at moment `j`; none if one is missing. */
  function Snapshot(paths: seq<Path>, disk: (nat, Path) -> Option<string>): Option<map<string, string>> {
    if paths == [] then Some(map[])
    else
      var n := |paths| - 1;
      var before, read := Snapshot(paths[..n], disk), disk(n, paths[n]);
      if before.None? || read.None? then None else Some(before.value[paths[n].name := read.value])
  }

  function Hashed(contents: map<string, string>, hash: string -> string): map<string, string> {
    map name | name in contents :: hash(contents[name])
  }

  /** `_document_sample_file_hashes`: reads, hashes and forgets one file at a time. */
  method FileHashes(paths: seq<Path>, disk: (nat, Path) -> Option<string>, hash: string -> string)
    returns (r: Result<map<string, string>, RunError>)
    ensures r.Ok? ==> Snapshot(paths, disk).Some? && r.value == Hashed(Snapshot(paths, disk).value, hash)
    ensures r.Err? ==> Snapshot(paths, disk).None?
  {
    var hashes: map<string, string> := map[];
    for j := 0 to |paths|
      invariant Snapshot(paths[..j], disk).Some?
      invariant hashes == Hashed(Snapshot(paths[..j], disk).value, hash)
    {
      assert paths[..j + 1][..j] == paths[..j];
      var read := disk(j, paths[j]);
      if read.None? {
        MissingFile(paths, disk, j + 1);
        return Err(FileNotFound(paths[j].name));
      }
      hashes := hashes[paths[j].name := hash(read.value)];
    }
    assert paths[..|paths|] == paths;
    return Ok(hashes);
  }

  lemma {:induction false} MissingFile(paths: seq<Path>, disk: (nat, Path) -> Option<string>, n: nat)
    requires n <= |paths| && Snapshot(paths[..n], disk).None?
    ensures Snapshot(paths, disk).None?
    decreases |paths|
  {
    if n < |paths| {
      assert paths[..|paths| - 1][..n] == paths[..n];
      MissingFile(paths[..|paths| - 1], disk, n);
    } else {
      assert paths[..n] == paths;
    }
  }

  /** A document to be read still holds, at its read, what its name held while the fingerprint was taken. */
  predicate Unchanged(s: Setup, held: map<string, string>, i: nat)
    requires i < |s.docs|
  {
    FromPath(s.docs[i]) ==>
      var path := s.docs[i].path.value;
      path.name in held && s.disk(s.start + i, path) == Some(held[path.name])
  }

  /** What an attempt on the document should have processed. */
  function Due(d: Doc, held: map<string, string>): Option<string> {
    if !FromPath(d) then d.bytes
    else if d.path.value.name in held then Some(held[d.path.value.name])
    else None
  }

  /** The hash tells the bytes read for document `i` from those fingerprinted under its name. */
  predicate NoCollision(s: Setup, held: map<string, string>, i: nat)
    requires i < |s.docs|
  {
    FromPath(s.docs[i]) ==>
      var path := s.docs[i].path.value;
      var read := s.disk(s.start + i, path);
      read.Some? && path.name in held && s.hash(read.value) == s.hash(held[path.name]) ==> read.value == held[path.name]
  }

  /**
   * Where no two byte strings compared collide, a real run against a fingerprint taken over any list of paths completes
   * if and only if every file it reads holds at that moment what its name held at the fingerprint; and what it then
   * processes, in every attempt, are those very bytes.
   */
  lemma {:induction false} CompletesIffUnchanged(s: Setup, paths: seq<Path>, held: map<string, string>)
    requires s.processor.Some? && Snapshot(paths, s.disk) == Some(held) && s.expected == Some(Hashed(held, s.hash))
    requires forall i :: 0 <= i < |s.docs| ==> NoCollision(s, held, i)
    ensures AllResolve(s, |s.docs|) <==> forall i :: 0 <= i < |s.docs| ==> Unchanged(s, held, i)
    ensures AllResolve(s, |s.docs|) ==> forall a :: a in Trace(s, |s.docs|) ==> a.processed == Due(a.doc, held)
  {
    forall i | 0 <= i < |s.docs| ensures Resolve(s, i).Ok? <==> Unchanged(s, held, i) {
      ResolvesIffUnchanged(s, held, i);
    }
    if AllResolve(s, |s.docs|) {
      forall a | a in Trace(s, |s.docs|) ensures a.processed == Due(a.doc, held) {
        InTrace(s, |s.docs|, a);
        var i: nat, r: nat :| i < |s.docs| && r < Times(s) && a == AttemptAt(s, i, r);
        ResolvesIffUnchanged(s, held, i);
      }
    }
  }

  lemma {:induction false} ResolvesIffUnchanged(s: Setup, held: map<string, string>, i: nat)
    requires i < |s.docs| && s.processor.Some? && s.expected == Some(Hashed(held, s.hash))
    requires NoCollision(s, held, i)
    ensures Resolve(s, i).Ok? <==> Unchanged(s, held, i)
    ensures Resolve(s, i).Ok? ==> Resolve(s, i).value == Due(s.docs[i], held)
  {
  }

  /** What is vouched for went into the digest, next to the document's name. */
  lemma {:induction false} VouchedEntersDigest(
    manifest: Option<string>, names: seq<string>, hashes: map<string, string>, d: Doc, bytes: string,
    hash: string -> string)
    returns (before: string, after: string)
    requires Elements(names) == hashes.Keys && forall n :: n in names ==> n in hashes
    requires Vouched(d, Some(bytes), hashes, hash)
    ensures Stream(manifest, names, hashes) == before + (d.path.value.name + hash(bytes)) + after
  {
    assert d.path.value.name in Elements(names);
    before, after := EntryOf(manifest, names, hashes, d.path.value.name);
  }
}

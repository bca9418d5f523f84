/** Request tracking: failure counts, and the two decisions taken from them. Times are instants, counted in seconds. */
module Breaker {
  import opened Wrappers

  datatype Tracking = Tracking(lastSuccess: Option<int>, failures: nat)

  datatype Event = Success(at: int) | Failure

  /** `filter_complaints_api_request`: skip the request. */
  function Skip(row: Option<Tracking>, cutoff: int, threshold: int): bool {
    match row
    case None => false
    case Some(t) => (t.lastSuccess.Some? && t.lastSuccess.value >= cutoff) || t.failures >= threshold
  }

  /** The branches of `get_tickets_needing_action_history`. */
  function Needs(row: Option<Tracking>, cutoff: int, threshold: int): bool {
    match row
    case None => true
    case Some(t) =>
      if t.lastSuccess.None? && t.failures < threshold then true
      else if t.lastSuccess.None? && t.failures >= threshold then false
      else t.lastSuccess.value < cutoff && t.failures < threshold
  }

  /** The two decisions, written apart, are complements. */
  lemma {:induction false} DecisionsAreComplements(row: Option<Tracking>, cutoff: int, threshold: int)
    ensures Needs(row, cutoff, threshold) == !Skip(row, cutoff, threshold)
  {
    match row
    case None =>
    case Some(t) =>
      match t.lastSuccess
      case None =>
      case Some(at) =>
  }

  // ---------------------------------------------------------------------------------------------
  // A row against the events recorded under its key

  /** The failures since the last success. */
  function FailuresSince(history: seq<Event>): nat {
    if history == [] || history[|history| - 1].Success? then 0 else 1 + FailuresSince(history[..|history| - 1])
  }

  function LastSuccess(history: seq<Event>): Option<int> {
    if history == [] then None
    else if history[|history| - 1].Success? then Some(history[|history| - 1].at)
    else LastSuccess(history[..|history| - 1])
  }

  /** The tail of failures, as a property: the last n events failed and the one before, if any, did not. */
  lemma {:induction false} FailuresSinceIsTheTail(history: seq<Event>)
    ensures FailuresSince(history) <= |history|
    ensures forall i :: |history| - FailuresSince(history) <= i < |history| ==> history[i].Failure?
    ensures FailuresSince(history) < |history| ==> history[|history| - FailuresSince(history) - 1].Success?
  {
    if history != [] && history[|history| - 1].Failure? {
      FailuresSinceIsTheTail(history[..|history| - 1]);
    }
  }

  const DAY := 86_400

  /** A request the driver considers at an instant, and what fetching it would bring. */
  datatype Request = Request(key: string, now: int, succeeds: bool)

  class Tracker {
    var rows: map<string, Tracking>
    /** The events recorded under each key. */
    ghost var history: map<string, seq<Event>>

    /** Every row says what its history says, and there is a row for exactly the keys with a history. */
    ghost predicate Valid()
      reads this
    {
      && rows.Keys == history.Keys
      && forall k :: k in rows ==>
        rows[k] == Tracking(LastSuccess(history[k]), FailuresSince(history[k])) && history[k] != []
    }

    constructor ()
      ensures Valid() && rows == map[]
    {
      rows, history := map[], map[];
    }

    function Row(key: string): Option<Tracking>
      reads this
    {
      if key in rows then Some(rows[key]) else None
    }

    ghost function Events(key: string): seq<Event>
      reads this
    {
      if key in history then history[key] else []
    }

    /** `record_complaint_api_request_success`. */
    method RecordSuccess(key: string, now: int)
      requires Valid()
      modifies this
      ensures Valid()
      ensures history == old(history)[key := old(Events(key)) + [Success(now)]]
      ensures rows == old(rows)[key := Tracking(Some(now), 0)]
    {
      if key in rows {
        rows := rows[key := rows[key].(lastSuccess := Some(now), failures := 0)];
      } else {
        rows := rows[key := Tracking(Some(now), 0)];
      }
      history := history[key := Events(key) + [Success(now)]];
    }

    /** `mark_complaints_api_request_failed`. */
    method MarkFailed(key: string)
      requires Valid()
      modifies this
      ensures Valid()
      ensures history == old(history)[key := old(Events(key)) + [Failure]]
      ensures rows.Keys == old(rows).Keys + {key}
      ensures forall k :: k in old(rows) && k != key ==> rows[k] == old(rows)[k]
      ensures rows[key].failures == 1 + if key in old(rows) then old(rows)[key].failures else 0
    {
      ghost var before := Events(key);
      if key in rows {
        rows := rows[key := rows[key].(failures := rows[key].failures + 1)];
      } else {
        rows := rows[key := Tracking(None, 1)];
      }
      history := history[key := before + [Failure]];
      assert (before + [Failure])[..|before|] == before;
    }

    method ShouldSkip(key: string, now: int, days: int, threshold: int) returns (skip: bool)
      requires Valid()
      ensures skip == Skip(Row(key), now - days * DAY, threshold)
      ensures skip <==> (key in history
        && ((LastSuccess(history[key]).Some? && LastSuccess(history[key]).value >= now - days * DAY)
            || FailuresSince(history[key]) >= threshold))
    {
      var cutoff := now - days * DAY;
      skip := Skip(Row(key), cutoff, threshold);
    }

    /** The complaint loop of `get_tickets_needing_action_history`: in order, the tickets a driver would not skip. */
    method NeedingFetch(tickets: seq<string>, now: int, days: int, threshold: int) returns (needing: seq<string>)
      requires Valid()
      ensures needing == NotSkipped(tickets, |tickets|, now - days * DAY, threshold)
    {
      needing := [];
      for i := 0 to |tickets|
        invariant needing == NotSkipped(tickets, i, now - days * DAY, threshold)
      {
        DecisionsAreComplements(Row(tickets[i]), now - days * DAY, threshold);
        if Needs(Row(tickets[i]), now - days * DAY, threshold) {
          needing := needing + [tickets[i]];
        }
      }
    }

    /** Those of the first `n` tickets that are not skipped. */
    function NotSkipped(tickets: seq<string>, n: nat, cutoff: int, threshold: int): seq<string>
      reads this
      requires n <= |tickets|
    {
      if n == 0 then []
      else
        var before := NotSkipped(tickets, n - 1, cutoff, threshold);
        if Skip(Row(tickets[n - 1]), cutoff, threshold) then before else before + [tickets[n - 1]]
    }

    ghost predicate Within(bound: int)
      reads this
    {
      forall k :: k in rows ==> rows[k].failures <= bound
    }

    /**
     * A driver that fetches only what is not skipped. With a threshold of at least one, no run takes a failure count
     * beyond the threshold, and a key that reached it is never fetched again: its row and its history stay as they
     * were.
     */
    method Drive(requests: seq<Request>, days: int, threshold: int)
      requires Valid() && threshold >= 1 && Within(threshold)
      modifies this
      ensures Valid() && Within(threshold)
      ensures forall k :: k in old(rows) && old(rows)[k].failures >= threshold ==>
        k in rows && rows[k] == old(rows)[k] && history[k] == old(history)[k]
      ensures forall k :: k in old(history) ==> k in history && old(history)[k] <= history[k]
    {
      for i := 0 to |requests|
        invariant Valid() && Within(threshold)
        invariant forall k :: k in old(rows) && old(rows)[k].failures >= threshold ==>
          k in rows && rows[k] == old(rows)[k] && history[k] == old(history)[k]
        invariant forall k :: k in old(history) ==> k in history && old(history)[k] <= history[k]
      {
        Consider(requests[i], days, threshold);
      }
    }

    /** One request of the driver: the skip decision, and the outcome recorded if it was not skipped. */
    method Consider(r: Request, days: int, threshold: int)
      requires Valid() && threshold >= 1 && Within(threshold)
      modifies this
      ensures Valid() && Within(threshold)
      ensures forall k :: k in old(rows) && (k != r.key || old(rows)[k].failures >= threshold) ==>
        k in rows && rows[k] == old(rows)[k] && history[k] == old(history)[k]
      ensures forall k :: k in old(history) ==> k in history && old(history)[k] <= history[k]
    {
      var skip := ShouldSkip(r.key, r.now, days, threshold);
      if !skip {
        if r.succeeds {
          RecordSuccess(r.key, r.now);
        } else {
          MarkFailed(r.key);
        }
      }
    }

    /** With a threshold of zero or less the first failure already exceeds it: a key without a row is never skipped. */
    method FirstFailure(key: string, now: int, days: int, threshold: int)
      requires Valid() && threshold < 1 && key !in rows
      modifies this
      ensures Valid() && !Within(threshold)
    {
      var skip := ShouldSkip(key, now, days, threshold);
      assert !skip;
      MarkFailed(key);
    }
  }
}

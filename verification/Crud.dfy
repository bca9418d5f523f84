/** Loading complaints: a bulk path with one commit, and the record-by-record path it falls back to. */
module Crud {

  type Columns = map<string, string>

  /** A validated schema record: its ticket and one value for every field of the schema. */
  datatype Record = Record(ticket: string, values: Columns)

  type Table = map<string, Columns>

  /** Which rows the database's constraints let through, and what the columns outside the schema start as. */
  datatype Database = Database(accepts: (string, Columns) -> bool, defaults: Columns, schema: set<string>)

  ghost predicate Shaped(records: seq<Record>, d: Database) {
    forall i :: 0 <= i < |records| ==> records[i].values.Keys == d.schema
  }

  /** Every committed row satisfies the constraints. */
  ghost predicate Consistent(table: Table, d: Database) {
    forall t :: t in table ==> d.accepts(t, table[t])
  }

  // ---------------------------------------------------------------------------------------------
  // One record at a time

  /** The row a record is written over. */
  function Base(table: Table, t: string, d: Database): Columns {
    if t in table then table[t] else d.defaults
  }

  function Written(table: Table, record: Record, d: Database): Columns {
    Base(table, record.ticket, d) + record.values
  }

  function Accepted(table: Table, record: Record, d: Database): bool {
    d.accepts(record.ticket, Written(table, record, d))
  }

  /** One upsert: the record's fields over the row, or nothing when the constraints reject the result. */
  function Upsert(table: Table, record: Record, d: Database): Table {
    if Accepted(table, record, d) then table[record.ticket := Written(table, record, d)] else table
  }

  /** The first `n` records upserted in order. */
  function Fold(table: Table, records: seq<Record>, n: nat, d: Database): Table
    requires n <= |records|
  {
    if n == 0 then table else Upsert(Fold(table, records, n - 1, d), records[n - 1], d)
  }

  // ---------------------------------------------------------------------------------------------
  // The session

  class Session {
    const d: Database
    /** The committed rows. */
    var table: Table
    /** The objects read in this transaction, with what was set on them since. */
    var loaded: Table
    /** The objects added in this transaction. */
    var added: seq<Record>

    ghost predicate Valid()
      reads this
    {
      Consistent(table, d) && loaded.Keys <= table.Keys
    }

    ghost predicate Idle()
      reads this
    {
      Valid() && loaded == map[] && added == []
    }

    constructor (database: Database)
      ensures Idle() && d == database && table == map[]
    {
      d := database;
      table, loaded, added := map[], map[], [];
    }

    /** Whether the pending rows satisfy the constraints, uniqueness of tickets included. */
    predicate Committable()
      reads this
    {
      CanCommit(table, loaded, added, d)
    }

    /** Writes every pending row, or fails and writes none. */
    method Commit() returns (ok: bool)
      requires Valid()
      modifies this
      ensures Valid()
      ensures ok == old(Committable())
      ensures ok ==> Idle() && table == Inserted(old(table) + old(loaded), old(added), |old(added)|, d)
      ensures !ok ==> table == old(table)
    {
      ok := Committable();
      if ok {
        var next := table + loaded;
        ghost var start := next;
        for i := 0 to |added|
          invariant table == old(table) && loaded == old(loaded) && added == old(added)
          invariant next == Inserted(start, added, i, d)
          invariant Consistent(next, d)
        {
          next := next[added[i].ticket := d.defaults + added[i].values];
        }
        table, loaded, added := next, map[], [];
      }
    }

    method Rollback()
      requires Valid()
      modifies this
      ensures Idle() && table == old(table)
    {
      loaded, added := map[], [];
    }

    /** The attribute loop: every field of the record set on the object read for `t`. */
    method SetFields(t: string, values: Columns)
      requires Valid() && t in loaded
      modifies this`loaded
      ensures Valid() && loaded == old(loaded)[t := old(loaded)[t] + values]
    {
      var rest := values.Keys;
      ghost var start := loaded[t];
      while rest != {}
        invariant rest <= values.Keys && Valid()
        invariant loaded.Keys == old(loaded).Keys && t in loaded
        invariant forall u :: u in loaded && u != t ==> loaded[u] == old(loaded)[u]
        invariant Partly(loaded[t], start, values, rest)
        decreases rest
      {
        var field :| field in rest;
        if field !in loaded[t] || loaded[t][field] != values[field] {
          loaded := loaded[t := loaded[t][field := values[field]]];
        }
        rest := rest - {field};
      }
      AllSet(loaded[t], start, values);
    }

    /** `create_or_update_complaint`. */
    method CreateOrUpdate(record: Record) returns (ok: bool)
      requires Idle()
      modifies this
      ensures Idle()
      ensures table == Upsert(old(table), record, d)
      ensures ok == Accepted(old(table), record, d)
    {
      hide Accepted;
      hide Upsert;
      hide CanCommit;
      hide Inserted;
      if record.ticket in table {
        loaded := map[record.ticket := table[record.ticket]];
        SetFields(record.ticket, record.values);
        UpdateIsUpsert(table, record, d);
        assert loaded == map[record.ticket := table[record.ticket] + record.values];
      } else {
        added := [record];
        InsertIsUpsert(table, record, d);
      }
      ok := Commit();
      if !ok {
        Rollback();
        RejectedUpsert(table, record, d);
      }
    }

    /** `batch_create_or_update_complaints`: a rejected record is skipped. */
    method BatchCreateOrUpdate(records: seq<Record>)
      requires Idle()
      modifies this
      ensures Idle()
      ensures table == Fold(old(table), records, |records|, d)
    {
      for i := 0 to |records|
        invariant Idle()
        invariant table == Fold(old(table), records, i, d)
      {
        var ok := CreateOrUpdate(records[i]);
      }
    }

    /** The single query: every object whose ticket the batch names. */
    method LoadExisting(records: seq<Record>)
      requires Idle()
      modifies this`loaded
      ensures Valid() && loaded == Named(table, records)
    {
      loaded := Named(table, records);
    }

    /** `bulk_load_complaints`: all records prepared, one commit; on failure, rolled back and loaded one by one. */
    method BulkLoad(records: seq<Record>)
      requires Idle() && Shaped(records, d)
      modifies this
      ensures Idle()
      ensures table == Fold(old(table), records, |records|, d)
    {
      LoadExisting(records);
      for i := 0 to |records|
        invariant Valid() && table == old(table)
        invariant loaded == Latest(table, records, i)
        invariant added == NewOnes(table, records, i)
      {
        NamedLoaded(table, records, i);
        if records[i].ticket in loaded {
          SetFields(records[i].ticket, records[i].values);
        } else {
          added := added + [records[i]];
        }
      }
      ghost var pending := added;
      var ok := Commit();
      if ok {
        BulkIsFold(old(table), records, d);
      } else {
        Rollback();
        BatchCreateOrUpdate(records);
      }
    }
  }

  predicate CanCommit(table: Table, loaded: Table, added: seq<Record>, d: Database) {
    && (forall t :: t in loaded ==> d.accepts(t, loaded[t]))
    && (forall i :: 0 <= i < |added| ==>
          added[i].ticket !in table && d.accepts(added[i].ticket, d.defaults + added[i].values))
    && (forall i, j :: 0 <= i < j < |added| ==> added[i].ticket != added[j].ticket)
  }

  lemma {:induction false} RejectedUpsert(table: Table, record: Record, d: Database)
    requires !Accepted(table, record, d)
    ensures Upsert(table, record, d) == table
  {
  }

  /** Committing one changed row is one upsert. */
  lemma {:induction false} UpdateIsUpsert(table: Table, record: Record, d: Database)
    requires record.ticket in table
    ensures var loaded := map[record.ticket := table[record.ticket] + record.values];
      && CanCommit(table, loaded, [], d) == Accepted(table, record, d)
      && (Accepted(table, record, d) ==> Inserted(table + loaded, [], 0, d) == Upsert(table, record, d))
  {
    var loaded := map[record.ticket := table[record.ticket] + record.values];
    assert record.ticket in loaded;
    assert forall t :: t in loaded ==> t == record.ticket;
  }

  /** Committing one new row is one upsert. */
  lemma {:induction false} InsertIsUpsert(table: Table, record: Record, d: Database)
    requires record.ticket !in table
    ensures CanCommit(table, map[], [record], d) == Accepted(table, record, d)
    ensures Accepted(table, record, d) ==> Inserted(table + map[], [record], 1, d) == Upsert(table, record, d)
  {
    var none: Table := map[];
    assert [record][0] == record;
    assert table + none == table;
    assert Inserted(table, [record], 0, d) == table;
  }

  /** The first `n` new rows put in the table. */
  function Inserted(table: Table, rows: seq<Record>, n: nat, d: Database): Table
    requires n <= |rows|
  {
    if n == 0 then table else Inserted(table, rows, n - 1, d)[rows[n - 1].ticket := d.defaults + rows[n - 1].values]
  }

  /** Everything outside `rest` is set. */
  ghost predicate Partly(row: Columns, start: Columns, values: Columns, rest: set<string>) {
    && row.Keys <= start.Keys + values.Keys && start.Keys <= row.Keys
    && (forall f :: f in values && f !in rest ==> f in row && row[f] == values[f])
    && (forall f :: f in start && (f !in values || f in rest) ==> row[f] == start[f])
    && (forall f :: f in row && f !in start ==> f !in rest)
  }

  lemma {:induction false} AllSet(row: Columns, start: Columns, values: Columns)
    requires Partly(row, start, values, {})
    ensures row == start + values
  {
  }

  // ---------------------------------------------------------------------------------------------
  // The bulk transaction

  predicate Names(records: seq<Record>, t: string) {
    exists i :: 0 <= i < |records| && records[i].ticket == t
  }

  function Named(table: Table, records: seq<Record>): Table {
    map t | t in table && Names(records, t) :: table[t]
  }

  /** The objects read, after the first `n` records were set on them. */
  ghost function Latest(table: Table, records: seq<Record>, n: nat): Table
    requires n <= |records|
  {
    if n == 0 then Named(table, records)
    else
      var before, r := Latest(table, records, n - 1), records[n - 1];
      if r.ticket in before then before[r.ticket := before[r.ticket] + r.values] else before
  }

  /** The records among the first `n` that were added as new. */
  ghost function NewOnes(table: Table, records: seq<Record>, n: nat): seq<Record>
    requires n <= |records|
  {
    if n == 0 then []
    else
      var before, r := NewOnes(table, records, n - 1), records[n - 1];
      if r.ticket in table then before else before + [r]
  }

  lemma {:induction false} NamedLoaded(table: Table, records: seq<Record>, n: nat)
    requires n <= |records|
    ensures Latest(table, records, n).Keys == Named(table, records).Keys
    ensures n < |records| ==> (records[n].ticket in Latest(table, records, n) <==> records[n].ticket in table)
  {
    if n > 0 {
      NamedLoaded(table, records, n - 1);
    }
  }

  // ---------------------------------------------------------------------------------------------
  // Both paths, ticket by ticket

  /** The last of the first `n` records for a ticket, among those `keep` allows. */
  ghost function LastFor(records: seq<Record>, n: nat, t: string, keep: Record -> bool): (k: int)
    requires n <= |records|
    ensures -1 <= k < n
    ensures k >= 0 ==> records[k].ticket == t && keep(records[k])
    ensures k < 0 ==> forall i :: 0 <= i < n && records[i].ticket == t ==> !keep(records[i])
  {
    if n == 0 then -1
    else if records[n - 1].ticket == t && keep(records[n - 1]) then n - 1
    else LastFor(records, n - 1, t, keep)
  }

  ghost function Any(): Record -> bool {
    (r: Record) => true
  }

  ghost function Keeps(table: Table, d: Database): Record -> bool {
    (r: Record) => Accepted(table, r, d)
  }

  /** The same fields written twice leave the second writing. */
  lemma {:induction false} Overwritten(row: Columns, first: Columns, second: Columns)
    requires first.Keys == second.Keys
    ensures (row + first) + second == row + second
  {
  }

  /** A ticket's row after the fold: its base under the last record the constraints let through. */
  ghost predicate RowIs(table: Table, result: Table, records: seq<Record>, t: string, k: int, d: Database)
    requires -1 <= k < |records|
  {
    if k < 0 then (t in result <==> t in table) && (t in table ==> result[t] == table[t])
    else t in result && result[t] == Base(table, t, d) + records[k].values
  }

  lemma {:induction false} BaseOf(
    table: Table, result: Table, records: seq<Record>, t: string, k: int, r: Record, d: Database)
    requires -1 <= k < |records| && Shaped(records, d) && r.values.Keys == d.schema && r.ticket == t
    requires RowIs(table, result, records, t, k, d)
    ensures Written(result, r, d) == Written(table, r, d)
  {
    if k >= 0 {
      Overwritten(Base(table, t, d), records[k].values, r.values);
    }
  }

  lemma {:induction false} FoldRow(table: Table, records: seq<Record>, n: nat, t: string, d: Database)
    requires n <= |records| && Shaped(records, d)
    ensures RowIs(table, Fold(table, records, n, d), records, t, LastFor(records, n, t, Keeps(table, d)), d)
  {
    if n > 0 {
      var r, before := records[n - 1], Fold(table, records, n - 1, d);
      FoldRow(table, records, n - 1, t, d);
      if r.ticket == t {
        BaseOf(table, before, records, t, LastFor(records, n - 1, t, Keeps(table, d)), r, d);
      }
    }
  }

  /** The objects' rows after the loop: the base under the last record for the ticket. */
  lemma {:induction false} LatestRow(table: Table, records: seq<Record>, n: nat, t: string, d: Database)
    requires n <= |records| && Shaped(records, d) && t in Named(table, records)
    ensures t in Latest(table, records, n)
    ensures RowIs(table, Latest(table, records, n), records, t, LastFor(records, n, t, Any()), d)
  {
    if n > 0 {
      LatestRow(table, records, n - 1, t, d);
      var k := LastFor(records, n - 1, t, Any());
      if records[n - 1].ticket == t && k >= 0 {
        Overwritten(Base(table, t, d), records[k].values, records[n - 1].values);
      }
    }
  }

  lemma {:induction false} InsertedRow(table: Table, rows: seq<Record>, n: nat, t: string, d: Database)
    requires n <= |rows|
    ensures var k, result := LastFor(rows, n, t, Any()), Inserted(table, rows, n, d);
      if k < 0 then (t in result <==> t in table) && (t in table ==> result[t] == table[t])
      else t in result && result[t] == d.defaults + rows[k].values
  {
    if n > 0 {
      InsertedRow(table, rows, n - 1, t, d);
    }
  }

  lemma {:induction false} NewOnesFor(table: Table, records: seq<Record>, n: nat, t: string)
    requires n <= |records|
    ensures var k := LastFor(records, n, t, Any());
      var j := LastFor(NewOnes(table, records, n), |NewOnes(table, records, n)|, t, Any());
      if t in table then j < 0 else (k < 0 <==> j < 0) && (k >= 0 ==> NewOnes(table, records, n)[j] == records[k])
  {
    if n > 0 {
      NewOnesFor(table, records, n - 1, t);
      var before := NewOnes(table, records, n - 1);
      LastForStep(records, n, t);
      if records[n - 1].ticket !in table {
        LastForSnoc(before, records[n - 1], |before|, t);
        LastForStep(before + [records[n - 1]], |before| + 1, t);
      }
      hide LastFor;
      hide Any;
    }
  }

  lemma {:induction false} LastForStep(rows: seq<Record>, n: nat, t: string)
    requires 0 < n <= |rows|
    ensures LastFor(rows, n, t, Any()) == if rows[n - 1].ticket == t then n - 1 else LastFor(rows, n - 1, t, Any())
  {
  }

  lemma {:induction false} LastForSnoc(rows: seq<Record>, r: Record, n: nat, t: string)
    requires n <= |rows|
    ensures LastFor(rows + [r], n, t, Any()) == LastFor(rows, n, t, Any())
  {
    if n > 0 {
      LastForSnoc(rows, r, n - 1, t);
    }
  }

  /** What the bulk commit wrote, when it succeeded. */
  ghost function BulkResult(table: Table, records: seq<Record>, d: Database): Table {
    var n := |records|;
    Inserted(table + Latest(table, records, n), NewOnes(table, records, n), |NewOnes(table, records, n)|, d)
  }

  /** The bulk commit's condition, on the objects and rows the loop prepared. */
  ghost predicate BulkCommits(table: Table, records: seq<Record>, d: Database) {
    var latest, rows := Latest(table, records, |records|), NewOnes(table, records, |records|);
    && (forall t :: t in latest ==> d.accepts(t, latest[t]))
    && (forall i :: 0 <= i < |rows| ==>
          rows[i].ticket !in table && d.accepts(rows[i].ticket, d.defaults + rows[i].values))
  }

  lemma {:induction false} BulkRow(table: Table, records: seq<Record>, t: string, d: Database)
    requires Shaped(records, d)
    ensures RowIs(table, BulkResult(table, records, d), records, t, LastFor(records, |records|, t, Any()), d)
  {
    var n := |records|;
    var latest, rows := Latest(table, records, n), NewOnes(table, records, n);
    NamedLoaded(table, records, n);
    InsertedRow(table + latest, rows, |rows|, t, d);
    NewOnesFor(table, records, n, t);
    if t in Named(table, records) {
      LatestRow(table, records, n, t, d);
    }
  }

  /** If the bulk commit succeeds, the last record of every ticket is one the constraints let through. */
  lemma {:induction false} LastIsAccepted(table: Table, records: seq<Record>, t: string, d: Database)
    requires Shaped(records, d) && BulkCommits(table, records, d)
    ensures var k := LastFor(records, |records|, t, Any()); k >= 0 ==> Accepted(table, records[k], d)
  {
    var n := |records|;
    var k := LastFor(records, n, t, Any());
    if k >= 0 {
      if t in table {
        assert t in Named(table, records);
        LatestRow(table, records, n, t, d);
      } else {
        NewOnesFor(table, records, n, t);
      }
    }
  }

  lemma {:induction false} LastKept(records: seq<Record>, n: nat, t: string, keep: Record -> bool)
    requires n <= |records|
    requires var k := LastFor(records, n, t, Any()); k >= 0 ==> keep(records[k])
    ensures LastFor(records, n, t, keep) == LastFor(records, n, t, Any())
  {
    if n > 0 && records[n - 1].ticket != t {
      LastKept(records, n - 1, t, keep);
    }
  }

  /** A bulk commit that succeeds leaves the table the record-by-record path would have left. */
  lemma {:induction false} BulkIsFold(table: Table, records: seq<Record>, d: Database)
    requires Shaped(records, d) && BulkCommits(table, records, d)
    ensures BulkResult(table, records, d) == Fold(table, records, |records|, d)
  {
    var bulk, fold := BulkResult(table, records, d), Fold(table, records, |records|, d);
    forall t ensures (t in bulk <==> t in fold) && (t in bulk ==> bulk[t] == fold[t]) {
      BulkRow(table, records, t, d);
      FoldRow(table, records, |records|, t, d);
      LastIsAccepted(table, records, t, d);
      LastKept(records, |records|, t, Keeps(table, d));
    }
  }

  // ---------------------------------------------------------------------------------------------
  // What loading keeps

  /** Loading never touches a column outside the schema, and never removes a row. */
  lemma {:induction false} OtherColumnsKept(table: Table, records: seq<Record>, t: string, c: string, d: Database)
    requires Shaped(records, d) && t in table && c in table[t] && c !in d.schema
    ensures var result := Fold(table, records, |records|, d);
      t in result && c in result[t] && result[t][c] == table[t][c]
  {
    FoldRow(table, records, |records|, t, d);
  }

  /** Loading the same batch again changes nothing. */
  lemma {:induction false} LoadingAgain(table: Table, records: seq<Record>, d: Database)
    requires Shaped(records, d)
    ensures var once := Fold(table, records, |records|, d); Fold(once, records, |records|, d) == once
  {
    var once := Fold(table, records, |records|, d);
    var twice := Fold(once, records, |records|, d);
    forall r: Record | r.values.Keys == d.schema ensures Accepted(once, r, d) == Accepted(table, r, d) {
      FoldRow(table, records, |records|, r.ticket, d);
      BaseOf(table, once, records, r.ticket, LastFor(records, |records|, r.ticket, Keeps(table, d)), r, d);
    }
    forall t ensures (t in twice <==> t in once) && (t in once ==> twice[t] == once[t]) {
      FoldRow(table, records, |records|, t, d);
      FoldRow(once, records, |records|, t, d);
      SameLast(records, |records|, t, Keeps(table, d), Keeps(once, d), d);
      var k := LastFor(records, |records|, t, Keeps(table, d));
      if k >= 0 {
        Overwritten(Base(table, t, d), records[k].values, records[k].values);
      }
    }
  }

  lemma {:induction false} SameLast(
    records: seq<Record>, n: nat, t: string, keep: Record -> bool, keep': Record -> bool, d: Database)
    requires n <= |records| && Shaped(records, d)
    requires forall i :: 0 <= i < |records| ==> keep(records[i]) == keep'(records[i])
    ensures LastFor(records, n, t, keep) == LastFor(records, n, t, keep')
  {
    if n > 0 {
      SameLast(records, n - 1, t, keep, keep', d);
    }
  }
}

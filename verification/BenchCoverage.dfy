/** Whether a sample manifest and the files staged beside it describe the same draw. */
module BenchCoverage {
  import opened Wrappers
  import opened Orders
  import opened Text

  /** A row of the manifest's list; a field that is missing or not a string is None. */
  datatype Entry = NotAnObject | Object(file: Option<string>, ticket: Option<string>)

  datatype CoverageError = Malformed(count: nat) | Duplicated(names: set<string>)

  predicate Filled(field: Option<string>) {
    field.Some? && Strip(field.value) != ""
  }

  predicate NamesFile(e: Entry) {
    e.Object? && Filled(e.file)
  }

  predicate Readable(e: Entry) {
    e.Object? && Filled(e.ticket)
  }

  /** The file names of the first `n` rows, in order. */
  function Files(entries: seq<Entry>, n: nat): seq<string>
    requires n <= |entries|
  {
    if n == 0 then []
    else
      var before, e := Files(entries, n - 1), entries[n - 1];
      if Readable(e) && NamesFile(e) then before + [e.file.value] else before
  }

  function Unreadable(entries: seq<Entry>, n: nat): nat
    requires n <= |entries|
  {
    if n == 0 then 0 else Unreadable(entries, n - 1) + if Readable(entries[n - 1]) then 0 else 1
  }

  /** The names that occur more than once. */
  ghost predicate Repeated(s: seq<string>, name: string) {
    multiset(s)[name] > 1
  }

  method StagedSampleCoverage(documents: Option<seq<Entry>>, staged: seq<string>)
    returns (r: Result<(seq<string>, seq<string>), CoverageError>)
    ensures documents.None? ==> r == Ok(([], []))
    ensures documents.Some? ==>
      var entries := documents.value;
      var files := Files(entries, |entries|);
      && (r.Err? && r.error.Malformed? <==> Unreadable(entries, |entries|) > 0)
      && (r.Err? && r.error.Duplicated? ==> forall x :: x in r.error.names <==> Repeated(files, x))
      && (r.Ok? <==> Unreadable(entries, |entries|) == 0 && forall x :: !Repeated(files, x))
      && (r.Ok? ==> ListsExactly(r.value.0, Elements(files) - Elements(staged)))
      && (r.Ok? ==> ListsExactly(r.value.1, Elements(staged) - Elements(files)))
  {
    if documents.None? {
      return Ok(([], []));
    }
    var entries := documents.value;
    var listed, duplicated, malformed := ReadEntries(entries);
    if malformed > 0 {
      return Err(Malformed(malformed));
    }
    if duplicated != {} {
      assert exists x :: x in duplicated && Repeated(Files(entries, |entries|), x);
      return Err(Duplicated(duplicated));
    }
    StringOrder();
    var missing := SortedSet(listed - Elements(staged), StringLeq);
    var unlisted := SortedSet(Elements(staged) - listed, StringLeq);
    return Ok((missing, unlisted));
  }

  ghost predicate ListsExactly(s: seq<string>, names: set<string>) {
    Sorted(s, StringLeq) && Distinct(s) && Elements(s) == names
  }

  ghost predicate AreRepeated(names: set<string>, s: seq<string>) {
    forall x :: x in names <==> Repeated(s, x)
  }

  /** A name met again is a repeated one. */
  lemma {:induction false} OneMoreFile(before: seq<string>, name: string, listed: set<string>, duplicated: set<string>)
    requires listed == Elements(before) && AreRepeated(duplicated, before)
    ensures Elements(before + [name]) == listed + {name}
    ensures AreRepeated(if name in listed then duplicated + {name} else duplicated, before + [name])
  {
    ElementsConcat(before, [name]);
    assert name in listed <==> name in before;
    forall x ensures Repeated(before + [name], x) <==> Repeated(before, x) || (x == name && name in before) {
    }
  }

  /** The row loop. */
  method ReadEntries(entries: seq<Entry>) returns (listed: set<string>, duplicated: set<string>, malformed: nat)
    ensures malformed == Unreadable(entries, |entries|)
    ensures listed == Elements(Files(entries, |entries|))
    ensures AreRepeated(duplicated, Files(entries, |entries|))
  {
    listed, duplicated, malformed := {}, {}, 0;
    assert AreRepeated(duplicated, Files(entries, 0));
    hide AreRepeated;
    hide Strip;
    for position := 0 to |entries|
      invariant malformed == Unreadable(entries, position)
      invariant listed == Elements(Files(entries, position))
      invariant AreRepeated(duplicated, Files(entries, position))
    {
      var entry := entries[position];
      if entry.NotAnObject? {
        malformed := malformed + 1;
        continue;
      }
      var hasFile, hasTicket := Filled(entry.file), Filled(entry.ticket);
      if hasFile && !hasTicket {
        malformed := malformed + 1;
        continue;
      }
      if !hasFile && !hasTicket {
        malformed := malformed + 1;
        continue;
      }
      if hasFile {
        var name := entry.file.value;
        OneMoreFile(Files(entries, position), name, listed, duplicated);
        if name in listed {
          duplicated := duplicated + {name};
        }
        listed := listed + {name};
      }
    }
  }

  /** Rows that are objects but name no file. */
  function Unkeyed(entries: seq<Entry>, n: nat): nat
    requires n <= |entries|
  {
    if n == 0 then 0
    else Unkeyed(entries, n - 1) + if entries[n - 1].Object? && !NamesFile(entries[n - 1]) then 1 else 0
  }

  /** The completeness flag of the published artifact; a manifest the coverage check refuses stops the run instead. */
  method ManifestComplete(documents: Option<seq<Entry>>, staged: seq<string>)
      returns (complete: Result<bool, CoverageError>)
    requires Distinct(staged)
    ensures complete == Ok(true) <==> documents.Some? && OneRowPerFile(documents.value, staged)
  {
    var coverage := StagedSampleCoverage(documents, staged);
    if coverage.Err? {
      CompleteExactly(documents.value, staged);
      return Err(coverage.error);
    }
    var missing, unlisted := coverage.value.0, coverage.value.1;
    var unkeyed := if documents.Some? then Unkeyed(documents.value, |documents.value|) else 0;
    if documents.Some? {
      CompleteExactly(documents.value, staged);
      SameSets(Elements(Files(documents.value, |documents.value|)), Elements(staged), missing, unlisted);
    }
    return Ok(documents.Some? && unlisted == [] && missing == [] && unkeyed == 0);
  }

  lemma {:induction false} SameSets(a: set<string>, b: set<string>, missing: seq<string>, unlisted: seq<string>)
    requires Elements(missing) == a - b && Elements(unlisted) == b - a
    ensures missing == [] && unlisted == [] <==> a == b
  {
    NoElements(missing);
    NoElements(unlisted);
    assert a - b == {} && b - a == {} <==> a == b;
  }

  /** Every row names a file and a ticket, and the rows name the staged files, each once. */
  ghost predicate OneRowPerFile(entries: seq<Entry>, staged: seq<string>) {
    && (forall i :: 0 <= i < |entries| ==> Readable(entries[i]) && NamesFile(entries[i]))
    && multiset(Files(entries, |entries|)) == multiset(staged)
  }

  lemma {:induction false} AllNamed(entries: seq<Entry>, n: nat)
    requires n <= |entries|
    ensures Unreadable(entries, n) == 0 && Unkeyed(entries, n) == 0
      <==> forall i :: 0 <= i < n ==> Readable(entries[i]) && NamesFile(entries[i])
    ensures Unreadable(entries, n) == 0 && Unkeyed(entries, n) == 0 ==> |Files(entries, n)| == n
  {
    if n > 0 {
      AllNamed(entries, n - 1);
    }
  }

  lemma {:induction false} DistinctUnlessRepeated(s: seq<string>)
    ensures Distinct(s) <==> forall x :: !Repeated(s, x)
  {
    if Distinct(s) {
      forall x ensures !Repeated(s, x) { DistinctCount(s, x); }
    } else {
      var i, j :| 0 <= i < j < |s| && s[i] == s[j];
      assert s == s[..i] + [s[i]] + s[i + 1..j] + [s[j]] + s[j + 1..];
      assert Repeated(s, s[i]);
    }
  }

  /**
   * Nothing malformed, unkeyed, repeated, missing or unlisted: that is one row per staged file, and nothing else is.
   */
  lemma {:induction false} CompleteExactly(entries: seq<Entry>, staged: seq<string>)
    requires Distinct(staged)
    ensures var files := Files(entries, |entries|);
      OneRowPerFile(entries, staged) <==>
        Unreadable(entries, |entries|) == 0 && Unkeyed(entries, |entries|) == 0
        && (forall x :: !Repeated(files, x)) && Elements(files) == Elements(staged)
  {
    var files := Files(entries, |entries|);
    AllNamed(entries, |entries|);
    DistinctUnlessRepeated(files);
    if multiset(files) == multiset(staged) {
      DistinctPermutation(staged, files);
      forall x ensures x in Elements(files) <==> x in Elements(staged) { MultisetElement(files, staged, x); }
    }
    if Distinct(files) && Elements(files) == Elements(staged) {
      DistinctMultiset(files, staged);
    }
  }
}

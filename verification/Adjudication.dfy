/** Two judges, a resolver for what they leave open, and the gold rows that come out. */
module Adjudication {
  import opened Wrappers
  import opened Orders
  import opened Kappa

  datatype Judgment = Judgment(choice: ActionLabel, uncertain: bool)

  datatype Row = Row(id: string, split: string, stratum: string)

  type Judge = map<string, Judgment>

  function Ids(rows: seq<Row>): (r: seq<string>)
    ensures |r| == |rows| && forall i :: 0 <= i < |rows| ==> r[i] == rows[i].id
  {
    seq(|rows|, i requires 0 <= i < |rows| => rows[i].id)
  }

  /** What `load_sample` lets through: at least one row, no id twice. */
  ghost predicate LoadedSample(sample: seq<Row>) {
    sample != [] && Distinct(Ids(sample))
  }

  /** Both judges gave this label and neither doubted it. */
  predicate Settled(left: Judgment, right: Judgment) {
    left.choice == right.choice && !left.uncertain && !right.uncertain
  }

  ghost predicate Covers(judge: Judge, sample: seq<Row>) {
    judge.Keys == Elements(Ids(sample))
  }

  predicate SettledRow(row: Row, a: Judge, b: Judge)
    requires row.id in a && row.id in b
  {
    Settled(a[row.id], b[row.id])
  }

  // ---------------------------------------------------------------------------------------------
  // prepare_resolution

  datatype Prepared = Prepared(
    consensus: seq<(string, ActionLabel)>, resolverInput: seq<Row>, rawAgreement: nat, kappa: real)

  ghost predicate Judged(sample: seq<Row>, a: Judge, b: Judge) {
    forall i :: 0 <= i < |sample| ==> sample[i].id in a && sample[i].id in b
  }

  /** The consensus rows of the first `n` sample rows. */
  ghost function ConsensusOf(sample: seq<Row>, a: Judge, b: Judge, n: nat): seq<(string, ActionLabel)>
    requires n <= |sample| && Judged(sample, a, b)
  {
    if n == 0 then []
    else
      var row := sample[n - 1];
      var before := ConsensusOf(sample, a, b, n - 1);
      if SettledRow(row, a, b) then before + [(row.id, a[row.id].choice)] else before
  }

  /** The rows left to the resolver among the first `n`. */
  ghost function OpenOf(sample: seq<Row>, a: Judge, b: Judge, n: nat): seq<Row>
    requires n <= |sample| && Judged(sample, a, b)
  {
    if n == 0 then []
    else
      var row := sample[n - 1];
      var before := OpenOf(sample, a, b, n - 1);
      if SettledRow(row, a, b) then before else before + [row]
  }

  ghost function ChoicesOf(sample: seq<Row>, judge: Judge): (r: seq<ActionLabel>)
    requires forall i :: 0 <= i < |sample| ==> sample[i].id in judge
    ensures |r| == |sample|
  {
    seq(|sample|, i requires 0 <= i < |sample| => judge[sample[i].id].choice)
  }

  method PrepareResolution(sample: seq<Row>, judgeA: Judge, judgeB: Judge) returns (r: Result<Prepared, string>)
    requires LoadedSample(sample)
    ensures r.Ok? <==> Covers(judgeA, sample) && Covers(judgeB, sample)
    ensures r.Ok? ==> Judged(sample, judgeA, judgeB)
    ensures r.Ok? ==> r.value.consensus == ConsensusOf(sample, judgeA, judgeB, |sample|)
    ensures r.Ok? ==> r.value.resolverInput == OpenOf(sample, judgeA, judgeB, |sample|)
    ensures r.Ok? ==> r.value.rawAgreement == Agreements(ChoicesOf(sample, judgeA), ChoicesOf(sample, judgeB))
    ensures r.Ok? ==> CohenKappa(ChoicesOf(sample, judgeA), ChoicesOf(sample, judgeB)) == Ok(r.value.kappa)
  {
    var ids := Elements(Ids(sample));
    if judgeA.Keys != ids || judgeB.Keys != ids {
      return Err("each judge must cover exactly the sample IDs");
    }
    var consensus, resolverInput, labelsA, labelsB := PrepareLoop(sample, judgeA, judgeB);
    var kappa := CohenKappa(labelsA, labelsB);
    return Ok(Prepared(consensus, resolverInput, Agreements(labelsA, labelsB), kappa.value));
  }

  method PrepareLoop(sample: seq<Row>, judgeA: Judge, judgeB: Judge)
    returns (consensus: seq<(string, ActionLabel)>, resolverInput: seq<Row>,
             labelsA: seq<ActionLabel>, labelsB: seq<ActionLabel>)
    requires Judged(sample, judgeA, judgeB)
    ensures consensus == ConsensusOf(sample, judgeA, judgeB, |sample|)
    ensures resolverInput == OpenOf(sample, judgeA, judgeB, |sample|)
    ensures labelsA == ChoicesOf(sample, judgeA) && labelsB == ChoicesOf(sample, judgeB)
  {
    consensus, resolverInput, labelsA, labelsB := [], [], [], [];
    for i := 0 to |sample|
      invariant consensus == ConsensusOf(sample, judgeA, judgeB, i)
      invariant resolverInput == OpenOf(sample, judgeA, judgeB, i)
      invariant labelsA == ChoicesOf(sample, judgeA)[..i] && labelsB == ChoicesOf(sample, judgeB)[..i]
    {
      var id := sample[i].id;
      var left, right := judgeA[id], judgeB[id];
      labelsA, labelsB := labelsA + [left.choice], labelsB + [right.choice];
      if left.choice == right.choice && !left.uncertain && !right.uncertain {
        consensus := consensus + [(id, left.choice)];
      } else {
        resolverInput := resolverInput + [sample[i]];
      }
    }
  }

  // ---------------------------------------------------------------------------------------------
  // finalize_gold

  datatype GoldRow = GoldRow(id: string, gold: ActionLabel, split: string, stratum: string)

  datatype Gold = Gold(
    rows: seq<GoldRow>, bySplit: map<string, nat>, byStratum: map<string, nat>, resolverAccepted: nat)

  datatype FinalizeError = RepeatedConsensus | NotDisjoint | NotCovering | NothingResolved

  /** The rows whose id is in neither hand of the partition, or whose resolver doubts. */
  predicate Unresolved(row: Row, consensus: map<string, ActionLabel>, resolver: Judge)
    requires row.id in consensus || row.id in resolver
  {
    row.id !in consensus && resolver[row.id].uncertain
  }

  function GoldOf(row: Row, consensus: map<string, ActionLabel>, resolver: Judge): GoldRow
    requires row.id in consensus || row.id in resolver
  {
    GoldRow(row.id, if row.id in consensus then consensus[row.id] else resolver[row.id].choice, row.split, row.stratum)
  }

  ghost predicate Decided(sample: seq<Row>, consensus: map<string, ActionLabel>, resolver: Judge) {
    forall i :: 0 <= i < |sample| ==> sample[i].id in consensus || sample[i].id in resolver
  }

  ghost function GoldRows(sample: seq<Row>, consensus: map<string, ActionLabel>, resolver: Judge, n: nat): seq<GoldRow>
    requires n <= |sample| && Decided(sample, consensus, resolver)
  {
    if n == 0 then []
    else
      var row := sample[n - 1];
      var before := GoldRows(sample, consensus, resolver, n - 1);
      if Unresolved(row, consensus, resolver) then before else before + [GoldOf(row, consensus, resolver)]
  }

  ghost function Excluded(sample: seq<Row>, consensus: map<string, ActionLabel>, resolver: Judge, n: nat): seq<Row>
    requires n <= |sample| && Decided(sample, consensus, resolver)
  {
    if n == 0 then []
    else
      var row := sample[n - 1];
      var before := Excluded(sample, consensus, resolver, n - 1);
      if Unresolved(row, consensus, resolver) then before + [row] else before
  }

  /** How often `k` occurs, as `Counter` counts it. */
  function Tally(keys: seq<string>, k: string): nat {
    if keys == [] then 0 else Tally(keys[..|keys| - 1], k) + if keys[|keys| - 1] == k then 1 else 0
  }

  function Splits(rows: seq<Row>): (r: seq<string>)
    ensures |r| == |rows|
  {
    seq(|rows|, i requires 0 <= i < |rows| => rows[i].split)
  }

  function Strata(rows: seq<Row>): (r: seq<string>)
    ensures |r| == |rows|
  {
    seq(|rows|, i requires 0 <= i < |rows| => rows[i].stratum)
  }

  function GoldStrata(rows: seq<GoldRow>): (r: seq<string>)
    ensures |r| == |rows|
  {
    seq(|rows|, i requires 0 <= i < |rows| => rows[i].stratum)
  }

  /** The counter holds, for every key seen, how often it was seen. */
  ghost predicate CountsKeys(counter: map<string, nat>, keys: seq<string>) {
    && (forall k :: k in counter ==> counter[k] == Tally(keys, k))
    && (forall k :: k !in counter ==> Tally(keys, k) == 0)
  }

  function Bump(counter: map<string, nat>, key: string): map<string, nat> {
    counter[key := (if key in counter then counter[key] else 0) + 1]
  }

  lemma {:induction false} BumpRow(bySplit: map<string, nat>, byStratum: map<string, nat>, rows: seq<Row>, row: Row)
    requires CountsKeys(bySplit, Splits(rows)) && CountsKeys(byStratum, Strata(rows))
    ensures CountsKeys(Bump(bySplit, row.split), Splits(rows + [row]))
    ensures CountsKeys(Bump(byStratum, row.stratum), Strata(rows + [row]))
  {
    assert Splits(rows + [row]) == Splits(rows) + [row.split];
    assert Strata(rows + [row]) == Strata(rows) + [row.stratum];
  }

  function FirstOf(rows: seq<(string, ActionLabel)>): (r: seq<string>)
    ensures |r| == |rows| && forall i :: 0 <= i < |rows| ==> r[i] == rows[i].0
  {
    seq(|rows|, i requires 0 <= i < |rows| => rows[i].0)
  }

  ghost predicate IsTable(m: map<string, ActionLabel>, rows: seq<(string, ActionLabel)>) {
    && m.Keys == Elements(FirstOf(rows))
    && forall i :: 0 <= i < |rows| ==> rows[i].0 in m && m[rows[i].0] == rows[i].1
  }

  method ConsensusTable(rows: seq<(string, ActionLabel)>) returns (r: Option<map<string, ActionLabel>>)
    ensures r.Some? <==> Distinct(FirstOf(rows))
    ensures r.Some? ==> IsTable(r.value, rows)
  {
    var consensus: map<string, ActionLabel> := map[];
    for i := 0 to |rows|
      invariant Distinct(FirstOf(rows)[..i])
      invariant consensus.Keys == Elements(FirstOf(rows)[..i])
      invariant forall j :: 0 <= j < i ==> rows[j].0 in consensus && consensus[rows[j].0] == rows[j].1
    {
      var ids := FirstOf(rows);
      assert ids[..i + 1] == ids[..i] + [ids[i]];
      if rows[i].0 in consensus {
        assert ids[i] in ids[..i];
        return None;
      }
      ElementsConcat(ids[..i], [ids[i]]);
      consensus := consensus[rows[i].0 := rows[i].1];
    }
    assert FirstOf(rows)[..|rows|] == FirstOf(rows);
    return Some(consensus);
  }

  /** Why `finalize_gold` stops, if it does, before it looks at a judgment. */
  ghost function Obstacle(sample: seq<Row>, rows: seq<(string, ActionLabel)>, resolver: Judge): Option<FinalizeError> {
    if !Distinct(FirstOf(rows)) then Some(RepeatedConsensus)
    else if Elements(FirstOf(rows)) * resolver.Keys != {} then Some(NotDisjoint)
    else if Elements(FirstOf(rows)) + resolver.Keys != Elements(Ids(sample)) then Some(NotCovering)
    else None
  }

  ghost predicate Reports(g: Gold, sample: seq<Row>, consensus: map<string, ActionLabel>, resolver: Judge)
    requires Decided(sample, consensus, resolver)
  {
    var excluded := Excluded(sample, consensus, resolver, |sample|);
    && g.rows == GoldRows(sample, consensus, resolver, |sample|)
    && CountsKeys(g.bySplit, Splits(excluded)) && CountsKeys(g.byStratum, Strata(excluded))
  }

  method FinalizeGold(sample: seq<Row>, rows: seq<(string, ActionLabel)>, resolver: Judge)
    returns (r: Result<Gold, FinalizeError>, ghost consensus: map<string, ActionLabel>)
    requires LoadedSample(sample)
    ensures Obstacle(sample, rows, resolver).Some? ==> r == Err(Obstacle(sample, rows, resolver).value)
    ensures Obstacle(sample, rows, resolver).None? ==> IsTable(consensus, rows) && Decided(sample, consensus, resolver)
    ensures Obstacle(sample, rows, resolver).None? ==>
      (r == Err(NothingResolved) <==> GoldRows(sample, consensus, resolver, |sample|) == [])
    ensures Obstacle(sample, rows, resolver).None? && r.Err? ==> r == Err(NothingResolved)
    ensures r.Ok? ==> Reports(r.value, sample, consensus, resolver)
    ensures r.Ok? ==> |r.value.rows| == |rows| + r.value.resolverAccepted
  {
    consensus := map[];
    var table := ConsensusTable(rows);
    if table.None? {
      return Err(RepeatedConsensus), consensus;
    }
    var known := table.value;
    consensus := known;
    if known.Keys * resolver.Keys != {} {
      return Err(NotDisjoint), consensus;
    }
    if known.Keys + resolver.Keys != Elements(Ids(sample)) {
      return Err(NotCovering), consensus;
    }
    AllDecided(sample, known, resolver);
    var gold, bySplit, byStratum, accepted := GoldLoop(sample, known, resolver);
    if gold == [] {
      return Err(NothingResolved), consensus;
    }
    KnownRows(sample, rows, known);
    return Ok(Gold(gold, bySplit, byStratum, accepted)), consensus;
  }

  /** How many of the first `n` rows are settled by consensus. */
  ghost function Known(sample: seq<Row>, consensus: map<string, ActionLabel>, n: nat): nat
    requires n <= |sample|
  {
    if n == 0 then 0 else Known(sample, consensus, n - 1) + if sample[n - 1].id in consensus then 1 else 0
  }

  /** The row loop: gold rows appended, counters raised, doubted rows skipped. */
  method GoldLoop(sample: seq<Row>, consensus: map<string, ActionLabel>, resolver: Judge)
    returns (gold: seq<GoldRow>, bySplit: map<string, nat>, byStratum: map<string, nat>, accepted: nat)
    requires Decided(sample, consensus, resolver)
    ensures gold == GoldRows(sample, consensus, resolver, |sample|)
    ensures CountsKeys(bySplit, Splits(Excluded(sample, consensus, resolver, |sample|)))
    ensures CountsKeys(byStratum, Strata(Excluded(sample, consensus, resolver, |sample|)))
    ensures |gold| == Known(sample, consensus, |sample|) + accepted
  {
    gold, bySplit, byStratum, accepted := [], map[], map[], 0;
    for i := 0 to |sample|
      invariant gold == GoldRows(sample, consensus, resolver, i)
      invariant CountsKeys(bySplit, Splits(Excluded(sample, consensus, resolver, i)))
      invariant CountsKeys(byStratum, Strata(Excluded(sample, consensus, resolver, i)))
      invariant |gold| == Known(sample, consensus, i) + accepted
    {
      var row := sample[i];
      var choice;
      if row.id in consensus {
        choice := consensus[row.id];
      } else {
        var judgment := resolver[row.id];
        if judgment.uncertain {
          BumpRow(bySplit, byStratum, Excluded(sample, consensus, resolver, i), row);
          bySplit := Bump(bySplit, row.split);
          byStratum := Bump(byStratum, row.stratum);
          continue;
        }
        choice := judgment.choice;
        accepted := accepted + 1;
      }
      gold := gold + [GoldRow(row.id, choice, row.split, row.stratum)];
    }
  }

  lemma {:induction false} AllDecided(sample: seq<Row>, consensus: map<string, ActionLabel>, resolver: Judge)
    requires consensus.Keys + resolver.Keys == Elements(Ids(sample))
    ensures Decided(sample, consensus, resolver)
  {
    forall i | 0 <= i < |sample| ensures sample[i].id in consensus || sample[i].id in resolver {
      assert Ids(sample)[i] in Elements(Ids(sample));
    }
  }

  lemma {:induction false} KnownPrefix(sample: seq<Row>, consensus: map<string, ActionLabel>, n: nat)
    requires n <= |sample| && Distinct(Ids(sample))
    ensures Known(sample, consensus, n) == |consensus.Keys * Elements(Ids(sample)[..n])|
  {
    var ids := Ids(sample);
    if n == 0 {
      NoElements(ids[..0]);
    } else {
      hide Elements;
      hide Distinct;
      KnownPrefix(sample, consensus, n - 1);
      NewId(ids, n);
      OneMoreShared(consensus.Keys, Elements(ids[..n - 1]), ids[n - 1]);
    }
  }

  lemma {:induction false} NewId(ids: seq<string>, n: nat)
    requires 0 < n <= |ids| && Distinct(ids)
    ensures Elements(ids[..n]) == Elements(ids[..n - 1]) + {ids[n - 1]}
    ensures ids[n - 1] !in Elements(ids[..n - 1])
  {
    assert ids[..n] == ids[..n - 1] + [ids[n - 1]];
    ElementsConcat(ids[..n - 1], [ids[n - 1]]);
  }

  lemma {:induction false} OneMoreShared(keys: set<string>, before: set<string>, id: string)
    requires id !in before
    ensures |keys * (before + {id})| == |keys * before| + if id in keys then 1 else 0
  {
    var shared := keys * (before + {id});
    if id in keys {
      assert shared == keys * before + {id};
    } else {
      assert shared == keys * before;
    }
  }

  lemma {:induction false} KnownRows(
    sample: seq<Row>, rows: seq<(string, ActionLabel)>, consensus: map<string, ActionLabel>)
    requires Distinct(Ids(sample)) && Distinct(FirstOf(rows)) && IsTable(consensus, rows)
    requires consensus.Keys <= Elements(Ids(sample))
    ensures Known(sample, consensus, |sample|) == |rows|
  {
    hide Known;
    KnownPrefix(sample, consensus, |sample|);
    assert Ids(sample)[..|sample|] == Ids(sample);
    DistinctLength(FirstOf(rows));
  }

  // ---------------------------------------------------------------------------------------------
  // The two stages fit together

  lemma {:induction false} PreparedIds(sample: seq<Row>, a: Judge, b: Judge, n: nat, id: string)
    requires n <= |sample| && Judged(sample, a, b)
    ensures id in FirstOf(ConsensusOf(sample, a, b, n)) <==>
      exists i :: 0 <= i < n && sample[i].id == id && SettledRow(sample[i], a, b)
    ensures id in Ids(OpenOf(sample, a, b, n)) <==>
      exists i :: 0 <= i < n && sample[i].id == id && !SettledRow(sample[i], a, b)
  {
    if n > 0 {
      PreparedIds(sample, a, b, n - 1, id);
      var row := sample[n - 1];
      var front, open := ConsensusOf(sample, a, b, n - 1), OpenOf(sample, a, b, n - 1);
      assert FirstOf(front + [(row.id, a[row.id].choice)]) == FirstOf(front) + [row.id];
      assert Ids(open + [row]) == Ids(open) + [row.id];
    }
  }

  lemma {:induction false} ConsensusDistinct(sample: seq<Row>, a: Judge, b: Judge, n: nat)
    requires n <= |sample| && Judged(sample, a, b) && Distinct(Ids(sample))
    ensures Distinct(FirstOf(ConsensusOf(sample, a, b, n)))
    ensures |ConsensusOf(sample, a, b, n)| + |OpenOf(sample, a, b, n)| == n
  {
    hide SettledRow;
    if n > 0 {
      ConsensusDistinct(sample, a, b, n - 1);
      var row := sample[n - 1];
      var front := ConsensusOf(sample, a, b, n - 1);
      PreparedIds(sample, a, b, n - 1, row.id);
      assert forall i :: 0 <= i < n - 1 ==> Ids(sample)[i] != Ids(sample)[n - 1];
      assert FirstOf(front + [(row.id, a[row.id].choice)]) == FirstOf(front) + [row.id];
    }
  }

  /** Consensus and resolver input split the sample's ids in two. */
  lemma {:induction false} PreparedPartition(sample: seq<Row>, a: Judge, b: Judge)
    requires Judged(sample, a, b) && Distinct(Ids(sample))
    ensures var settled, open := FirstOf(ConsensusOf(sample, a, b, |sample|)), Ids(OpenOf(sample, a, b, |sample|));
      && |settled| + |open| == |sample| && Distinct(settled)
      && Elements(settled) !! Elements(open) && Elements(settled) + Elements(open) == Elements(Ids(sample))
  {
    var n := |sample|;
    ConsensusDistinct(sample, a, b, n);
    var settled, open := FirstOf(ConsensusOf(sample, a, b, n)), Ids(OpenOf(sample, a, b, n));
    forall id ensures id in Elements(settled) + Elements(open) <==> id in Elements(Ids(sample)) {
      PreparedIds(sample, a, b, n, id);
      if id in Ids(sample) {
        var i :| 0 <= i < n && Ids(sample)[i] == id;
        assert sample[i].id == id;
      }
    }
    forall id ensures id !in Elements(settled) || id !in Elements(open) {
      PreparedIds(sample, a, b, n, id);
    }
  }

  lemma {:induction false} OtherHalf(c: set<string>, o: set<string>, r: set<string>, all: set<string>)
    requires c !! o && c + o == all
    ensures c * r == {} && c + r == all <==> r == o
  {
    if c * r == {} && c + r == all {
      forall x ensures x in r <==> x in o {
        assert x in c + r <==> x in c || x in r;
        assert x in c + o <==> x in c || x in o;
        assert !(x in c && x in r) by { assert x in c * r <==> x in c && x in r; }
      }
    }
    if r == o {
      assert c * r == {};
    }
  }

  /** After prepare, finalize accepts a resolver's file exactly when it covers the rows sent to the resolver. */
  lemma {:induction false} StagesFit(sample: seq<Row>, a: Judge, b: Judge, resolver: Judge)
    requires Judged(sample, a, b) && Distinct(Ids(sample))
    ensures Obstacle(sample, ConsensusOf(sample, a, b, |sample|), resolver) == None
      <==> resolver.Keys == Elements(Ids(OpenOf(sample, a, b, |sample|)))
  {
    PreparedPartition(sample, a, b);
    var settled, open := FirstOf(ConsensusOf(sample, a, b, |sample|)), Ids(OpenOf(sample, a, b, |sample|));
    OtherHalf(Elements(settled), Elements(open), resolver.Keys, Elements(Ids(sample)));
  }

  // ---------------------------------------------------------------------------------------------
  // What enters gold

  lemma {:induction false} TableHolds(sample: seq<Row>, a: Judge, b: Judge, consensus: map<string, ActionLabel>, n: nat)
    requires n <= |sample| && Judged(sample, a, b)
    requires IsTable(consensus, ConsensusOf(sample, a, b, |sample|))
    ensures forall i :: 0 <= i < n && SettledRow(sample[i], a, b) ==>
      sample[i].id in consensus && consensus[sample[i].id] == a[sample[i].id].choice
  {
    forall i | 0 <= i < n && SettledRow(sample[i], a, b)
      ensures sample[i].id in consensus && consensus[sample[i].id] == a[sample[i].id].choice
    {
      var j := PlaceInConsensus(sample, a, b, |sample|, i);
    }
  }

  lemma {:induction false} PlaceInConsensus(sample: seq<Row>, a: Judge, b: Judge, n: nat, i: nat) returns (j: nat)
    requires i < n <= |sample| && Judged(sample, a, b) && SettledRow(sample[i], a, b)
    ensures j < |ConsensusOf(sample, a, b, n)|
    ensures ConsensusOf(sample, a, b, n)[j] == (sample[i].id, a[sample[i].id].choice)
  {
    if i < n - 1 {
      j := PlaceInConsensus(sample, a, b, n - 1, i);
    } else {
      j := |ConsensusOf(sample, a, b, n - 1)|;
    }
  }

  /** The label a sample row gets: the judges' when they agree without doubt, else the resolver's when it has none. */
  ghost function Verdict(row: Row, a: Judge, b: Judge, resolver: Judge): Option<ActionLabel>
    requires row.id in a && row.id in b && (SettledRow(row, a, b) || row.id in resolver)
  {
    if SettledRow(row, a, b) then Some(a[row.id].choice)
    else if resolver[row.id].uncertain then None
    else Some(resolver[row.id].choice)
  }

  /** The consensus table holds exactly the settled rows, with the judges' label. */
  ghost predicate TableOf(sample: seq<Row>, a: Judge, b: Judge, consensus: map<string, ActionLabel>)
    requires Judged(sample, a, b)
  {
    && (forall i :: 0 <= i < |sample| ==> (sample[i].id in consensus <==> SettledRow(sample[i], a, b)))
    && (forall i :: 0 <= i < |sample| && sample[i].id in consensus ==>
          consensus[sample[i].id] == a[sample[i].id].choice)
  }

  lemma {:induction false} TableIsExact(sample: seq<Row>, a: Judge, b: Judge, consensus: map<string, ActionLabel>)
    requires Judged(sample, a, b) && Distinct(Ids(sample))
    requires IsTable(consensus, ConsensusOf(sample, a, b, |sample|))
    ensures TableOf(sample, a, b, consensus)
  {
    TableHolds(sample, a, b, consensus, |sample|);
    forall i | 0 <= i < |sample| && !SettledRow(sample[i], a, b) ensures sample[i].id !in consensus {
      PreparedIds(sample, a, b, |sample|, sample[i].id);
      assert sample[i].id in consensus <==> sample[i].id in consensus.Keys;
    }
  }

  /** Gold holds, in sample order, one row for every sample row with a verdict, under that verdict, and nothing else. */
  lemma {:induction false} GoldIsTheVerdicts(
    sample: seq<Row>, a: Judge, b: Judge, consensus: map<string, ActionLabel>, resolver: Judge, n: nat)
    requires n <= |sample| && Judged(sample, a, b) && Decided(sample, consensus, resolver)
    requires TableOf(sample, a, b, consensus)
    ensures GoldRows(sample, consensus, resolver, n) == VerdictRows(sample, a, b, resolver, consensus, n)
  {
    if n > 0 {
      GoldIsTheVerdicts(sample, a, b, consensus, resolver, n - 1);
    }
  }

  ghost function VerdictRows(
    sample: seq<Row>, a: Judge, b: Judge, resolver: Judge, consensus: map<string, ActionLabel>, n: nat): seq<GoldRow>
    requires n <= |sample| && Judged(sample, a, b) && Decided(sample, consensus, resolver)
    requires TableOf(sample, a, b, consensus)
  {
    if n == 0 then []
    else
      var row := sample[n - 1];
      var before := VerdictRows(sample, a, b, resolver, consensus, n - 1);
      match Verdict(row, a, b, resolver)
      case Some(v) => before + [GoldRow(row.id, v, row.split, row.stratum)]
      case None => before
  }

  // ---------------------------------------------------------------------------------------------
  // Counts

  lemma {:induction false} SampleNext(sample: seq<Row>, n: nat, k: string)
    requires 0 < n <= |sample|
    ensures Tally(Strata(sample[..n]), k)
      == Tally(Strata(sample[..n - 1]), k) + if sample[n - 1].stratum == k then 1 else 0
  {
    hide Strata;
    hide Tally;
    assert sample[..n] == sample[..n - 1] + [sample[n - 1]];
    StrataSnoc(sample[..n - 1], sample[n - 1], k);
  }

  /** One more row goes to gold or is excluded, under its own stratum. */
  lemma {:induction false} VerdictNext(
    sample: seq<Row>, consensus: map<string, ActionLabel>, resolver: Judge, n: nat, k: string)
    requires 0 < n <= |sample| && Decided(sample, consensus, resolver)
    ensures Tally(GoldStrata(GoldRows(sample, consensus, resolver, n)), k)
      + Tally(Strata(Excluded(sample, consensus, resolver, n)), k)
      == Tally(GoldStrata(GoldRows(sample, consensus, resolver, n - 1)), k)
      + Tally(Strata(Excluded(sample, consensus, resolver, n - 1)), k)
      + if sample[n - 1].stratum == k then 1 else 0
    ensures |GoldRows(sample, consensus, resolver, n)| + |Excluded(sample, consensus, resolver, n)|
      == |GoldRows(sample, consensus, resolver, n - 1)| + |Excluded(sample, consensus, resolver, n - 1)| + 1
  {
    hide Strata;
    hide GoldStrata;
    hide Tally;
    hide Unresolved;
    hide Elements;
    var row := sample[n - 1];
    if Unresolved(row, consensus, resolver) {
      StrataSnoc(Excluded(sample, consensus, resolver, n - 1), row, k);
    } else {
      GoldStrataSnoc(GoldRows(sample, consensus, resolver, n - 1), GoldOf(row, consensus, resolver), k);
    }
  }

  /** Every sample row is in gold or excluded, stratum by stratum. */
  lemma {:induction false} StrataConserved(
    sample: seq<Row>, consensus: map<string, ActionLabel>, resolver: Judge, n: nat, k: string)
    requires n <= |sample| && Decided(sample, consensus, resolver)
    ensures Tally(Strata(sample[..n]), k) == Tally(GoldStrata(GoldRows(sample, consensus, resolver, n)), k)
      + Tally(Strata(Excluded(sample, consensus, resolver, n)), k)
    ensures |GoldRows(sample, consensus, resolver, n)| + |Excluded(sample, consensus, resolver, n)| == n
  {
    if n > 0 {
      StrataConserved(sample, consensus, resolver, n - 1, k);
      SampleNext(sample, n, k);
      VerdictNext(sample, consensus, resolver, n, k);
      hide Strata;
      hide GoldStrata;
      hide Tally;
      hide GoldRows;
      hide Excluded;
    }
  }

  lemma {:induction false} StrataSnoc(rows: seq<Row>, row: Row, k: string)
    ensures Tally(Strata(rows + [row]), k) == Tally(Strata(rows), k) + if row.stratum == k then 1 else 0
  {
    assert Strata(rows + [row]) == Strata(rows) + [row.stratum];
  }

  lemma {:induction false} GoldStrataSnoc(rows: seq<GoldRow>, row: GoldRow, k: string)
    ensures Tally(GoldStrata(rows + [row]), k) == Tally(GoldStrata(rows), k) + if row.stratum == k then 1 else 0
  {
    assert GoldStrata(rows + [row]) == GoldStrata(rows) + [row.stratum];
  }
}

/** Clustered standard errors and percentiles, over exact reals. Standard errors appear squared. */
module BenchStats {
  import opened Orders
  import opened Reals

  /** One measurement and the ticket it belongs to. */
  datatype Obs = Obs(value: real, ticket: string)

  function Zip(values: seq<real>, tickets: seq<string>): (r: seq<Obs>)
    requires |values| == |tickets|
    ensures |r| == |values|
  {
    seq(|values|, i requires 0 <= i < |values| => Obs(values[i], tickets[i]))
  }

  // ---------------------------------------------------------------------------------------------
  // Sums over measurements

  function SumOf<T>(xs: seq<T>, f: T -> real): real {
    if xs == [] then 0.0 else f(xs[0]) + SumOf(xs[1..], f)
  }

  lemma {:induction false} SumOfConcat<T>(a: seq<T>, b: seq<T>, f: T -> real)
    ensures SumOf(a + b, f) == SumOf(a, f) + SumOf(b, f)
  {
    if a == [] {
      assert a + b == b;
    } else {
      SumOfConcat(a[1..], b, f);
      assert (a + b)[1..] == a[1..] + b;
    }
  }

  /** A sum does not depend on the order of its terms. */
  lemma {:induction false} SumOfPermutes<T>(a: seq<T>, b: seq<T>, f: T -> real)
    requires multiset(a) == multiset(b)
    ensures SumOf(a, f) == SumOf(b, f)
  {
    if a == [] {
      assert |multiset(b)| == |b|;
    } else {
      var front, back := Extract(a, b);
      SumOfPermutes(a[1..], front + back, f);
      SumOfConcat(front, back, f);
      SumOfConcat(front + [a[0]], back, f);
      SumOfConcat(front, [a[0]], f);
      assert SumOf([a[0]], f) == f(a[0]);
    }
  }

  lemma {:induction false} SumOfScale<T>(xs: seq<T>, f: T -> real, g: T -> real, k: real)
    requires forall x :: x in xs ==> g(x) == k * f(x)
    ensures SumOf(xs, g) == k * SumOf(xs, f)
  {
    if xs != [] {
      SumOfScale(xs[1..], f, g, k);
      assert k * (f(xs[0]) + SumOf(xs[1..], f)) == k * f(xs[0]) + k * SumOf(xs[1..], f);
    }
  }

  lemma {:induction false} SumOfSame<T>(xs: seq<T>, f: T -> real, g: T -> real)
    requires forall x :: x in xs ==> f(x) == g(x)
    ensures SumOf(xs, f) == SumOf(xs, g)
  {
    if xs != [] {
      SumOfSame(xs[1..], f, g);
    }
  }

  lemma {:induction false} SumOfNonNegative<T>(xs: seq<T>, f: T -> real)
    requires forall x :: x in xs ==> f(x) >= 0.0
    ensures SumOf(xs, f) >= 0.0
    ensures SumOf(xs, f) == 0.0 ==> forall x :: x in xs ==> f(x) == 0.0
  {
    if xs != [] {
      SumOfNonNegative(xs[1..], f);
    }
  }

  lemma {:induction false} SumOfSnoc<T>(xs: seq<T>, n: nat, f: T -> real)
    requires n < |xs|
    ensures SumOf(xs[..n + 1], f) == SumOf(xs[..n], f) + f(xs[n])
  {
    assert xs[..n + 1] == xs[..n] + [xs[n]];
    SumOfConcat(xs[..n], [xs[n]], f);
    assert SumOf([xs[n]], f) == f(xs[n]);
  }

  function Value(o: Obs): real {
    o.value
  }

  function Deviation(ticket: string, mean: real): Obs -> real {
    (o: Obs) => if o.ticket == ticket then o.value - mean else 0.0
  }

  function SquaredDeviation(mean: real): Obs -> real {
    (o: Obs) => Square(o.value - mean)
  }

  /** The sum a ticket holds in `cluster_sums`. */
  function ClusterSum(obs: seq<Obs>, ticket: string, mean: real): real {
    SumOf(obs, Deviation(ticket, mean))
  }

  function ClusterSquare(obs: seq<Obs>, mean: real): string -> real {
    (t: string) => Square(ClusterSum(obs, t, mean))
  }

  function Mean(obs: seq<Obs>): real
    requires obs != []
  {
    SumOf(obs, Value) / (|obs| as real)
  }

  // ---------------------------------------------------------------------------------------------
  // The squared standard error

  /** The keys of `cluster_sums`, in insertion order. */
  function Tickets(obs: seq<Obs>): (r: seq<string>)
    ensures Distinct(r)
    ensures forall t :: t in r <==> exists i :: 0 <= i < |obs| && obs[i].ticket == t
  {
    if obs == [] then []
    else
      var before, t := Tickets(obs[..|obs| - 1]), obs[|obs| - 1].ticket;
      if t in before then before else before + [t]
  }

  /** From `n` values in `c` clusters: s2 / n when there is one cluster, else the sandwich with its correction. */
  function VarianceFormula(n: nat, c: nat, squares: real, clusterSquares: real): real
    requires n >= 2
  {
    if c <= 1 then squares / ((n - 1) as real) / (n as real)
    else
      PositiveSquare(n as real);
      clusterSquares / Square(n as real) * ((c as real) / ((c - 1) as real))
  }

  /** The sandwich variance of a mean: the square of `_clustered_se`. */
  function Variance(obs: seq<Obs>): real {
    var n := |obs|;
    if n < 2 then 0.0
    else
      var mean := Mean(obs);
      VarianceFormula(n, |Tickets(obs)|, SumOf(obs, SquaredDeviation(mean)),
                      SumOf(Tickets(obs), ClusterSquare(obs, mean)))
  }

  ghost predicate HoldsSums(sums: map<string, real>, obs: seq<Obs>, mean: real) {
    && sums.Keys == Elements(Tickets(obs))
    && forall t :: t in sums ==> sums[t] == ClusterSum(obs, t, mean)
  }

  lemma {:induction false} NoObservations(obs: seq<Obs>, t: string, mean: real)
    requires forall i :: 0 <= i < |obs| ==> obs[i].ticket != t
    ensures ClusterSum(obs, t, mean) == 0.0
  {
    if obs != [] {
      NoObservations(obs[1..], t, mean);
    }
  }

  lemma {:induction false} SumsGrow(sums: map<string, real>, obs: seq<Obs>, n: nat, mean: real)
    requires n < |obs| && HoldsSums(sums, obs[..n], mean)
    ensures var o := obs[n];
      var old_ := if o.ticket in sums then sums[o.ticket] else 0.0;
      HoldsSums(sums[o.ticket := old_ + (o.value - mean)], obs[..n + 1], mean)
  {
    hide Tickets;
    hide SumOf;
    var o := obs[n];
    forall t ensures ClusterSum(obs[..n + 1], t, mean)
      == ClusterSum(obs[..n], t, mean) + (if o.ticket == t then o.value - mean else 0.0)
    {
      SumOfSnoc(obs, n, Deviation(t, mean));
    }
    if o.ticket !in sums {
      NotYetSeen(obs, n, mean);
    }
  }

  lemma {:induction false} NotYetSeen(obs: seq<Obs>, n: nat, mean: real)
    requires n < |obs| && obs[n].ticket !in Elements(Tickets(obs[..n]))
    ensures ClusterSum(obs[..n], obs[n].ticket, mean) == 0.0
  {
    assert obs[n].ticket !in Tickets(obs[..n]);
    NoObservations(obs[..n], obs[n].ticket, mean);
  }

  /** The accumulation loop: the dict, and its keys in insertion order. */
  method ClusterSums(obs: seq<Obs>, mean: real) returns (keys: seq<string>, sums: map<string, real>)
    ensures keys == Tickets(obs) && HoldsSums(sums, obs, mean)
  {
    sums, keys := map[], [];
    for i := 0 to |obs|
      invariant keys == Tickets(obs[..i]) && HoldsSums(sums, obs[..i], mean)
    {
      var o := obs[i];
      assert obs[..i + 1][..i] == obs[..i];
      SumsGrow(sums, obs, i, mean);
      var before := if o.ticket in sums then sums[o.ticket] else 0.0;
      if o.ticket !in sums {
        keys := keys + [o.ticket];
      }
      sums := sums[o.ticket := before + (o.value - mean)];
    }
    assert obs[..|obs|] == obs;
  }

  /** `sum(s * s for s in cluster_sums.values())`. */
  method SquareSums(keys: seq<string>, sums: map<string, real>, ghost obs: seq<Obs>, ghost mean: real) returns (r: real)
    requires keys == Tickets(obs) && HoldsSums(sums, obs, mean)
    ensures r == SumOf(keys, ClusterSquare(obs, mean))
  {
    r := 0.0;
    for k := 0 to |keys|
      invariant r == SumOf(keys[..k], ClusterSquare(obs, mean))
    {
      SumOfSnoc(keys, k, ClusterSquare(obs, mean));
      assert keys[k] in Elements(keys);
      r := r + Square(sums[keys[k]]);
    }
    assert keys[..|keys|] == keys;
  }

  /** `_clustered_se`, before its square root. */
  method ClusteredVariance(values: seq<real>, clusters: seq<string>) returns (v: real)
    requires |values| == |clusters|
    ensures v == Variance(Zip(values, clusters))
  {
    var obs := Zip(values, clusters);
    var n := |obs|;
    if n < 2 {
      return 0.0;
    }
    var mean := Mean(obs);
    var keys, sums := ClusterSums(obs, mean);
    var summed := SquareSums(keys, sums, obs, mean);
    v := VarianceFormula(n, |keys|, SumOf(obs, SquaredDeviation(mean)), summed);
    if v < 0.0 {
      VarianceNonNegative(obs);
      v := 0.0;
    }
  }

  // ---------------------------------------------------------------------------------------------
  // Any listing of the tickets will do

  ghost predicate ListsTickets(ts: seq<string>, obs: seq<Obs>) {
    Distinct(ts) && Elements(ts) == Elements(Tickets(obs))
  }

  lemma {:induction false} AnyListing(ts: seq<string>, obs: seq<Obs>, mean: real)
    requires ListsTickets(ts, obs)
    ensures SumOf(ts, ClusterSquare(obs, mean)) == SumOf(Tickets(obs), ClusterSquare(obs, mean))
    ensures |ts| == |Tickets(obs)|
  {
    DistinctMultiset(ts, Tickets(obs));
    SumOfPermutes(ts, Tickets(obs), ClusterSquare(obs, mean));
    DistinctLength(ts);
    DistinctLength(Tickets(obs));
  }

  lemma {:induction false} QuotientSign(x: real, d: real)
    requires x >= 0.0 && d > 0.0
    ensures x / d >= 0.0
  {
  }

  /** The variance is never negative, so the clamp in the code never acts. */
  lemma {:induction false} VarianceNonNegative(obs: seq<Obs>)
    ensures Variance(obs) >= 0.0
  {
    if |obs| >= 2 {
      var mean := Mean(obs);
      var squares, clusters := SquaredDeviation(mean), ClusterSquare(obs, mean);
      forall x: real ensures Square(x) >= 0.0 { SquareSign(x); }
      SumOfNonNegative(obs, squares);
      SumOfNonNegative(Tickets(obs), clusters);
      FormulaNonNegative(|obs|, |Tickets(obs)|, SumOf(obs, squares), SumOf(Tickets(obs), clusters));
    }
  }

  lemma {:induction false} FormulaNonNegative(n: nat, c: nat, s: real, t: real)
    requires n >= 2 && s >= 0.0 && t >= 0.0
    ensures VarianceFormula(n, c, s, t) >= 0.0
  {
    if c <= 1 {
      QuotientSign(s, (n - 1) as real);
      QuotientSign(s / ((n - 1) as real), n as real);
    } else {
      PositiveSquare(n as real);
      QuotientSign(t, Square(n as real));
      QuotientSign(c as real, (c - 1) as real);
    }
  }

  lemma {:induction false} SameTickets(a: seq<Obs>, b: seq<Obs>)
    requires multiset(a) == multiset(b)
    ensures ListsTickets(Tickets(b), a)
  {
    forall t ensures t in Tickets(a) <==> t in Tickets(b) {
      if i :| 0 <= i < |a| && a[i].ticket == t {
        MultisetElement(a, b, a[i]);
      }
      if i :| 0 <= i < |b| && b[i].ticket == t {
        MultisetElement(a, b, b[i]);
      }
    }
  }

  /** The order measurements are taken in does not matter. */
  lemma {:induction false} VarianceForgetsOrder(a: seq<Obs>, b: seq<Obs>)
    requires multiset(a) == multiset(b)
    ensures Variance(a) == Variance(b)
  {
    assert |a| == |multiset(a)| == |multiset(b)| == |b|;
    if |a| >= 2 {
      SumOfPermutes(a, b, Value);
      SumOfPermutes(a, b, SquaredDeviation(Mean(a)));
      ClusterSquaresForgetOrder(a, b, Mean(a));
    }
  }

  lemma {:induction false} ClusterSquaresForgetOrder(a: seq<Obs>, b: seq<Obs>, mean: real)
    requires multiset(a) == multiset(b)
    ensures SumOf(Tickets(a), ClusterSquare(a, mean)) == SumOf(Tickets(b), ClusterSquare(b, mean))
    ensures |Tickets(a)| == |Tickets(b)|
  {
    SameTickets(a, b);
    AnyListing(Tickets(b), a, mean);
    var f, g := ClusterSquare(a, mean), ClusterSquare(b, mean);
    forall t ensures f(t) == g(t) {
      SumOfPermutes(a, b, Deviation(t, mean));
    }
    SumOfSame(Tickets(b), f, g);
  }

  // ---------------------------------------------------------------------------------------------
  // Renaming tickets

  function Rename(obs: seq<Obs>, r: string -> string): (s: seq<Obs>)
    ensures |s| == |obs|
  {
    if obs == [] then [] else [Obs(obs[0].value, r(obs[0].ticket))] + Rename(obs[1..], r)
  }

  ghost predicate InjectiveOn(obs: seq<Obs>, r: string -> string) {
    forall i, j :: 0 <= i < |obs| && 0 <= j < |obs| && r(obs[i].ticket) == r(obs[j].ticket) ==>
      obs[i].ticket == obs[j].ticket
  }

  lemma {:induction false} RenameAt(obs: seq<Obs>, r: string -> string, i: nat)
    requires i < |obs|
    ensures Rename(obs, r)[i] == Obs(obs[i].value, r(obs[i].ticket))
  {
    if i > 0 {
      RenameAt(obs[1..], r, i - 1);
    }
  }

  lemma {:induction false} RenameSum(obs: seq<Obs>, r: string -> string, f: Obs -> real, g: Obs -> real)
    requires forall i :: 0 <= i < |obs| ==> g(Obs(obs[i].value, r(obs[i].ticket))) == f(obs[i])
    ensures SumOf(Rename(obs, r), g) == SumOf(obs, f)
  {
    if obs != [] {
      assert forall i :: 0 <= i < |obs[1..]| ==> obs[1..][i] == obs[i + 1];
      RenameSum(obs[1..], r, f, g);
      assert Rename(obs, r)[1..] == Rename(obs[1..], r);
    }
  }

  function RenameAll(ts: seq<string>, r: string -> string): (s: seq<string>)
    ensures |s| == |ts| && forall i :: 0 <= i < |ts| ==> s[i] == r(ts[i])
  {
    seq(|ts|, i requires 0 <= i < |ts| => r(ts[i]))
  }

  lemma {:induction false} RenamedListing(obs: seq<Obs>, r: string -> string)
    requires InjectiveOn(obs, r)
    ensures ListsTickets(RenameAll(Tickets(obs), r), Rename(obs, r))
  {
    var ts := RenameAll(Tickets(obs), r);
    forall i, j | 0 <= i < j < |ts| ensures ts[i] != ts[j] {
      assert Tickets(obs)[i] in Tickets(obs) && Tickets(obs)[j] in Tickets(obs);
      var a :| 0 <= a < |obs| && obs[a].ticket == Tickets(obs)[i];
      var b :| 0 <= b < |obs| && obs[b].ticket == Tickets(obs)[j];
    }
    forall t ensures t in Elements(ts) <==> t in Elements(Tickets(Rename(obs, r))) {
      if t in ts {
        var i :| 0 <= i < |ts| && ts[i] == t;
        assert Tickets(obs)[i] in Tickets(obs);
        var a :| 0 <= a < |obs| && obs[a].ticket == Tickets(obs)[i];
        RenameAt(obs, r, a);
      }
      if t in Tickets(Rename(obs, r)) {
        var a :| 0 <= a < |obs| && Rename(obs, r)[a].ticket == t;
        RenameAt(obs, r, a);
        assert obs[a].ticket in Tickets(obs);
        var i :| 0 <= i < |ts| && Tickets(obs)[i] == obs[a].ticket;
        assert ts[i] == t;
      }
    }
  }

  lemma {:induction false} SumOfMap(ts: seq<string>, r: string -> string, f: string -> real, g: string -> real)
    requires forall t :: t in ts ==> g(r(t)) == f(t)
    ensures SumOf(RenameAll(ts, r), g) == SumOf(ts, f)
  {
    if ts != [] {
      SumOfMap(ts[1..], r, f, g);
      assert RenameAll(ts, r)[1..] == RenameAll(ts[1..], r);
    }
  }

  lemma {:induction false} RenameSquares(obs: seq<Obs>, r: string -> string, mean: real)
    requires InjectiveOn(obs, r)
    ensures SumOf(RenameAll(Tickets(obs), r), ClusterSquare(Rename(obs, r), mean))
      == SumOf(Tickets(obs), ClusterSquare(obs, mean))
  {
    var f, g := ClusterSquare(obs, mean), ClusterSquare(Rename(obs, r), mean);
    forall t | t in Tickets(obs) ensures g(r(t)) == f(t) {
      var j :| 0 <= j < |obs| && obs[j].ticket == t;
      RenameSum(obs, r, Deviation(t, mean), Deviation(r(t), mean));
    }
    SumOfMap(Tickets(obs), r, f, g);
  }

  /** Nor do the names of the tickets, so long as distinct tickets keep distinct names. */
  lemma {:induction false} VarianceForgetsNames(obs: seq<Obs>, r: string -> string)
    requires InjectiveOn(obs, r)
    ensures Variance(Rename(obs, r)) == Variance(obs)
  {
    if |obs| >= 2 {
      RenameSum(obs, r, Value, Value);
      var mean := Mean(obs);
      RenameSum(obs, r, SquaredDeviation(mean), SquaredDeviation(mean));
      RenamedListing(obs, r);
      AnyListing(RenameAll(Tickets(obs), r), Rename(obs, r), mean);
      RenameSquares(obs, r, mean);
    }
  }

  // ---------------------------------------------------------------------------------------------
  // One measurement per ticket

  ghost predicate DistinctTickets(obs: seq<Obs>) {
    forall i, j :: 0 <= i < j < |obs| ==> obs[i].ticket != obs[j].ticket
  }

  function TicketsOf(obs: seq<Obs>): (r: seq<string>)
    ensures |r| == |obs| && forall i :: 0 <= i < |obs| ==> r[i] == obs[i].ticket
  {
    seq(|obs|, i requires 0 <= i < |obs| => obs[i].ticket)
  }

  lemma {:induction false} OwnDeviation(obs: seq<Obs>, i: nat, mean: real)
    requires DistinctTickets(obs) && i < |obs|
    ensures ClusterSum(obs, obs[i].ticket, mean) == obs[i].value - mean
  {
    if i == 0 {
      NoObservations(obs[1..], obs[0].ticket, mean);
    } else {
      assert obs[1..][i - 1] == obs[i];
      OwnDeviation(obs[1..], i - 1, mean);
    }
  }

  lemma {:induction false} SquaresOfSingles(obs: seq<Obs>, k: nat, mean: real)
    requires DistinctTickets(obs) && k <= |obs|
    ensures SumOf(TicketsOf(obs)[k..], ClusterSquare(obs, mean)) == SumOf(obs[k..], SquaredDeviation(mean))
    decreases |obs| - k
  {
    if k < |obs| {
      SquaresOfSingles(obs, k + 1, mean);
      OwnDeviation(obs, k, mean);
      assert TicketsOf(obs)[k..][1..] == TicketsOf(obs)[k + 1..] && obs[k..][1..] == obs[k + 1..];
    }
  }

  /** With every measurement its own ticket, the estimate is the ordinary s2 / n. */
  lemma {:induction false} DistinctTicketsGiveSimpleVariance(obs: seq<Obs>)
    requires DistinctTickets(obs) && |obs| >= 2
    ensures Variance(obs) == SumOf(obs, SquaredDeviation(Mean(obs))) / ((|obs| - 1) as real) / (|obs| as real)
  {
    hide SumOf;
    hide Mean;
    hide Tickets;
    var mean := Mean(obs);
    AnyListing(TicketsOf(obs), obs, mean);
    SquaresOfSingles(obs, 0, mean);
    assert TicketsOf(obs)[0..] == TicketsOf(obs) && obs[0..] == obs;
  }

  // ---------------------------------------------------------------------------------------------
  // Repeating every measurement

  function Repeat(obs: seq<Obs>, k: nat): seq<Obs> {
    if k == 0 then [] else obs + Repeat(obs, k - 1)
  }

  lemma {:induction false} RepeatLength(obs: seq<Obs>, k: nat)
    ensures |Repeat(obs, k)| == k * |obs|
    ensures k > 0 ==> |Repeat(obs, k)| >= |obs|
  {
    if k > 0 {
      RepeatLength(obs, k - 1);
      assert k * |obs| == |obs| + (k - 1) * |obs|;
    }
  }

  lemma {:induction false} RepeatSum(obs: seq<Obs>, k: nat, f: Obs -> real)
    ensures SumOf(Repeat(obs, k), f) == Times(k as real, SumOf(obs, f))
  {
    if k > 0 {
      RepeatSum(obs, k - 1, f);
      SumOfConcat(obs, Repeat(obs, k - 1), f);
    }
  }

  lemma {:induction false} RepeatMembers(obs: seq<Obs>, k: nat, o: Obs)
    requires k > 0
    ensures o in Repeat(obs, k) <==> o in obs
  {
    if k > 1 {
      RepeatMembers(obs, k - 1, o);
    }
  }

  lemma {:induction false} RepeatListed(obs: seq<Obs>, k: nat)
    requires k > 0
    ensures ListsTickets(Tickets(obs), Repeat(obs, k))
  {
    var rep := Repeat(obs, k);
    forall t ensures t in Tickets(obs) <==> t in Tickets(rep) {
      if i :| 0 <= i < |obs| && obs[i].ticket == t {
        RepeatMembers(obs, k, obs[i]);
      }
      if i :| 0 <= i < |rep| && rep[i].ticket == t {
        RepeatMembers(obs, k, rep[i]);
      }
    }
  }

  lemma {:induction false} CancelFactor(k: real, x: real, n: real)
    requires k > 0.0 && n > 0.0
    ensures (k * x) / (k * n) == x / n
  {
    assert x / n * n == x;
    assert (x / n) * (k * n) == k * x;
  }

  /** Scaling both parts of a quotient by one factor leaves it. */
  lemma {:induction false} SameQuotient(a: real, m: real, x: real, n: real, k: real)
    requires n > 0.0 && m > 0.0 && m == Times(k, n) && a == Times(k, x)
    ensures a / m == x / n
  {
    var q := x / n;
    assert Times(q, n) == x;
    assert a == Times(q, m);
  }

  lemma {:induction false} RepeatMean(obs: seq<Obs>, k: nat)
    requires k > 0 && obs != []
    ensures Repeat(obs, k) != [] && Mean(Repeat(obs, k)) == Mean(obs)
  {
    RepeatLonger(obs, k);
    RepeatQuotient(obs, k, Value);
  }

  /** The average of anything over the repeats is its average over the originals. */
  lemma {:induction false} RepeatQuotient(obs: seq<Obs>, k: nat, f: Obs -> real)
    requires k > 0 && obs != [] && Repeat(obs, k) != []
    ensures SumOf(Repeat(obs, k), f) / (|Repeat(obs, k)| as real) == SumOf(obs, f) / (|obs| as real)
  {
    RepeatSum(obs, k, f);
    RepeatRealLength(obs, k, k as real);
    SameQuotient(SumOf(Repeat(obs, k), f), |Repeat(obs, k)| as real, SumOf(obs, f), |obs| as real, k as real);
  }

  // The sandwich, term by term: each ticket contributes the square of its share of the mean.

  function Share(obs: seq<Obs>, mean: real): string -> real
    requires obs != []
  {
    (t: string) => Square(ClusterSum(obs, t, mean) / (|obs| as real))
  }

  lemma {:induction false} SharesAddUp(ts: seq<string>, obs: seq<Obs>, mean: real, n: real)
    requires obs != [] && n == |obs| as real && Square(n) > 0.0
    ensures SumOf(ts, Share(obs, mean)) == SumOf(ts, ClusterSquare(obs, mean)) / Square(n)
  {
    if ts != [] {
      SharesAddUp(ts[1..], obs, mean, n);
    }
  }

  /** The correction for `c` tickets. */
  function Correction(c: nat): real
    requires c >= 2
  {
    (c as real) / ((c - 1) as real)
  }

  /** With two tickets or more the estimate is the sum of the tickets' shares, corrected. */
  lemma {:induction false} VarianceByShares(obs: seq<Obs>)
    requires |obs| >= 2 && |Tickets(obs)| >= 2
    ensures Variance(obs) == SumOf(Tickets(obs), Share(obs, Mean(obs))) * Correction(|Tickets(obs)|)
  {
    PositiveSquare(|obs| as real);
    SharesAddUp(Tickets(obs), obs, Mean(obs), |obs| as real);
  }

  lemma {:induction false} RepeatShareAt(obs: seq<Obs>, k: nat, mean: real, t: string)
    requires k > 0 && obs != [] && Repeat(obs, k) != []
    ensures Share(Repeat(obs, k), mean)(t) == Share(obs, mean)(t)
  {
    RepeatQuotient(obs, k, Deviation(t, mean));
  }

  lemma {:induction false} TicketsWithin(obs: seq<Obs>)
    ensures |Tickets(obs)| <= |obs|
  {
    if obs != [] {
      TicketsWithin(obs[..|obs| - 1]);
    }
  }

  /** With two tickets or more, repeating every measurement k times leaves the estimate where it was. */
  lemma {:induction false} RepeatsDoNotShrink(obs: seq<Obs>, k: nat)
    requires k > 0 && |Tickets(obs)| >= 2
    ensures Variance(Repeat(obs, k)) == Variance(obs)
  {
    hide Share;
    hide Variance;
    hide Correction;
    hide Repeat;
    hide Mean;
    hide Tickets;
    TicketsWithin(obs);
    RepeatLength(obs, k);
    RepeatMean(obs, k);
    var mean, rep := Mean(obs), Repeat(obs, k);
    RepeatListed(obs, k);
    AnyShareListing(Tickets(obs), rep, mean);
    forall t ensures Share(rep, mean)(t) == Share(obs, mean)(t) {
      RepeatShareAt(obs, k, mean, t);
    }
    SumOfSame(Tickets(obs), Share(obs, mean), Share(rep, mean));
    VarianceByShares(obs);
    VarianceByShares(rep);
  }

  lemma {:induction false} AnyShareListing(ts: seq<string>, obs: seq<Obs>, mean: real)
    requires obs != [] && ListsTickets(ts, obs)
    ensures SumOf(ts, Share(obs, mean)) == SumOf(Tickets(obs), Share(obs, mean)) && |ts| == |Tickets(obs)|
  {
    DistinctMultiset(ts, Tickets(obs));
    SumOfPermutes(ts, Tickets(obs), Share(obs, mean));
    DistinctLength(ts);
    DistinctLength(Tickets(obs));
  }

  /** However the repeats are interleaved. */
  lemma {:induction false} InterleavedRepeats(obs: seq<Obs>, k: nat, rep: seq<Obs>)
    requires k > 0 && |Tickets(obs)| >= 2 && multiset(rep) == multiset(Repeat(obs, k))
    ensures Variance(rep) == Variance(obs)
  {
    RepeatsDoNotShrink(obs, k);
    VarianceForgetsOrder(rep, Repeat(obs, k));
  }

  lemma {:induction false} OneTicketFormula(n: nat, m: nat, kr: real, q: real, q': real, s: real)
    requires n >= 2 && m >= 2 && kr > 0.0 && m as real == kr * (n as real) && q' == kr * q
    ensures VarianceFormula(m, 1, q', s) == q / ((m - 1) as real) / (n as real)
  {
    var d := (m - 1) as real;
    var x := q / d;
    assert x * d == q;
    CancelFactor(kr, x, n as real);
  }

  /**
   * With a single ticket the code falls back to s2 / n, and there repeats do shrink the estimate: it survives repeating
   * exactly when nothing is repeated or all the values agree, and is smaller otherwise.
   */
  lemma {:induction false} OneTicketShrinks(obs: seq<Obs>, k: nat)
    requires k > 0 && |Tickets(obs)| == 1 && |obs| >= 2
    ensures Variance(Repeat(obs, k)) == Variance(obs) <==> k == 1 || AllAgree(obs)
    ensures k > 1 && !AllAgree(obs) ==> Variance(Repeat(obs, k)) < Variance(obs)
  {
    var q := SumOf(obs, SquaredDeviation(Mean(obs)));
    SquaresNonNegative(obs, Mean(obs));
    RepeatLength(obs, k);
    RepeatedTicket(obs, k, q);
    ZeroSpread(obs);
    hide AllAgree;
    hide Repeat;
    ShrunkUnless(q, |obs|, k, |Repeat(obs, k)|);
  }

  lemma {:induction false} SquaresNonNegative(obs: seq<Obs>, mean: real)
    ensures SumOf(obs, SquaredDeviation(mean)) >= 0.0
  {
    forall o ensures SquaredDeviation(mean)(o) >= 0.0 { SquareSign(o.value - mean); }
    SumOfNonNegative(obs, SquaredDeviation(mean));
  }

  lemma {:induction false} RepeatedTicket(obs: seq<Obs>, k: nat, q: real)
    requires k > 0 && |Tickets(obs)| == 1 && |obs| >= 2
    requires q == SumOf(obs, SquaredDeviation(Mean(obs)))
    ensures |Repeat(obs, k)| >= 2
    ensures Variance(Repeat(obs, k)) == q / ((|Repeat(obs, k)| - 1) as real) / (|obs| as real)
  {
    RepeatLonger(obs, k);
    OneTicketStill(obs, k);
    RepeatRealLength(obs, k, k as real);
    RepeatedSquares(obs, k, q, k as real);
    FromParts(Repeat(obs, k), |obs|, k as real, q);
  }

  lemma {:induction false} FromParts(rep: seq<Obs>, n: nat, kr: real, q: real)
    requires n >= 2 && |rep| >= 2 && |Tickets(rep)| == 1 && kr > 0.0
    requires |rep| as real == Times(kr, n as real)
    requires SumOf(rep, SquaredDeviation(Mean(rep))) == Times(kr, q)
    ensures Variance(rep) == q / ((|rep| - 1) as real) / (n as real)
  {
    OneTicketFormula(n, |rep|, kr, q, SumOf(rep, SquaredDeviation(Mean(rep))), 0.0);
  }

  lemma {:induction false} RepeatLonger(obs: seq<Obs>, k: nat)
    requires k > 0
    ensures |Repeat(obs, k)| >= |obs|
  {
    RepeatLength(obs, k);
  }

  lemma {:induction false} RepeatRealLength(obs: seq<Obs>, k: nat, kr: real)
    requires kr == k as real
    ensures |Repeat(obs, k)| as real == Times(kr, |obs| as real)
  {
    RepeatLength(obs, k);
  }

  lemma {:induction false} RepeatedSquares(obs: seq<Obs>, k: nat, q: real, kr: real)
    requires k > 0 && |obs| >= 2 && kr == k as real && Repeat(obs, k) != []
    requires q == SumOf(obs, SquaredDeviation(Mean(obs)))
    ensures SumOf(Repeat(obs, k), SquaredDeviation(Mean(Repeat(obs, k)))) == Times(kr, q)
  {
    RepeatMean(obs, k);
    RepeatSum(obs, k, SquaredDeviation(Mean(obs)));
  }

  lemma {:induction false} OneTicketStill(obs: seq<Obs>, k: nat)
    requires k > 0
    ensures |Tickets(Repeat(obs, k))| == |Tickets(obs)|
  {
    RepeatListed(obs, k);
    AnyListing(Tickets(obs), Repeat(obs, k), 0.0);
  }

  lemma {:induction false} ShrunkUnless(q: real, n: nat, k: nat, m: nat)
    requires k > 0 && n >= 2 && m == k * n && m >= 2
    requires q >= 0.0
    ensures q / ((m - 1) as real) / (n as real) == q / ((n - 1) as real) / (n as real) <==> k == 1 || q == 0.0
    ensures k > 1 && q > 0.0 ==> q / ((m - 1) as real) / (n as real) < q / ((n - 1) as real) / (n as real)
  {
    SameLength(k, n, m);
    if m > n && q > 0.0 {
      SmallerQuotient(q, (m - 1) as real, (n - 1) as real);
      SmallerShare(q / ((m - 1) as real), q / ((n - 1) as real), n as real);
    }
  }

  lemma {:induction false} SmallerQuotient(q: real, big: real, small: real)
    requires q > 0.0 && big > small > 0.0
    ensures q / big < q / small
  {
    var x, y := Over(q, big), Over(q, small);
    OverBack(q, big);
    OverBack(q, small);
    assert Times(y - x, big) == Times(y, big) - Times(x, big);
    assert Times(y, big) - Times(y, small) == Times(y, big - small);
    PositiveQuotient(q, small);
    PositiveTimes(y, big - small);
    PositiveFactor(y - x, big);
  }

  lemma {:induction false} SmallerShare(x: real, y: real, n: real)
    requires x < y && n > 0.0
    ensures x / n < y / n
  {
    PositiveQuotient(y - x, n);
    assert Over(y - x, n) == y / n - x / n;
  }

  lemma {:induction false} PositiveQuotient(x: real, d: real)
    requires x > 0.0 && d > 0.0
    ensures Over(x, d) > 0.0
  {
    OverBack(x, d);
    PositiveFactor(Over(x, d), d);
  }

  lemma {:induction false} SameLength(k: nat, n: nat, m: nat)
    requires k > 0 && n > 0 && m == k * n
    ensures m == n <==> k == 1
  {
    if k > 1 {
      assert (k - 1) * n >= n;
    }
  }

  ghost predicate AllAgree(obs: seq<Obs>) {
    forall i, j :: 0 <= i < |obs| && 0 <= j < |obs| ==> obs[i].value == obs[j].value
  }

  lemma {:induction false} ZeroSpread(obs: seq<Obs>)
    requires obs != []
    ensures SumOf(obs, SquaredDeviation(Mean(obs))) == 0.0
      <==> AllAgree(obs)
  {
    var mean := Mean(obs);
    var f := SquaredDeviation(mean);
    forall x: real ensures Square(x) >= 0.0 && (Square(x) == 0.0 <==> x == 0.0) { SquareSign(x); }
    SumOfNonNegative(obs, f);
    if SumOf(obs, f) == 0.0 {
      forall i | 0 <= i < |obs| ensures obs[i].value == mean {
        assert f(obs[i]) == 0.0;
      }
    }
    if AllAgree(obs) {
      var v := obs[0].value;
      ConstantSum(obs, Value, v);
      assert mean == v by {
        var n := |obs| as real;
        assert SumOf(obs, Value) == n * v;
        assert mean * n == n * v;
      }
      ConstantSum(obs, f, 0.0);
    }
  }

  lemma {:induction false} ConstantSum(obs: seq<Obs>, f: Obs -> real, v: real)
    requires forall x :: x in obs ==> f(x) == v
    ensures SumOf(obs, f) == (|obs| as real) * v
  {
    if obs != [] {
      ConstantSum(obs[1..], f, v);
      assert (|obs| as real) * v == v + ((|obs| - 1) as real) * v;
    }
  }
}

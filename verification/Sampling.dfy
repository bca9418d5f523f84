/** The group-disjoint categorization sample: one record per text group, split by the group's first filing. */
module Sampling {
  import opened Wrappers
  import opened Orders
  import opened Collecting

  datatype Raw = Raw(ticket: string, created: int, text: string, category: string)

  /** A row after normalization. */
  datatype Member = Member(ticket: string, created: int, text: string, category: string)

  datatype Split = Train | Validation | Test

  datatype Rec = Rec(itemId: string, groupId: string, text: string, category: string, split: Split)

  /**
   * What the code calls out to: white space and case folding, the PII pattern, the calendar, the salted digest by kind.
   */
  datatype Rules = Rules(
    normal: string -> string, lower: string -> string, shaped: string -> bool, month: int -> int,
    digest: (string, string) -> string)

  // ---------------------------------------------------------------------------------------------
  // Rows to groups

  function Keep(r: Rules): Raw -> Option<Member> {
    (row: Raw) =>
      var text, category := r.normal(row.text), r.normal(row.category);
      if text == "" || category == "" || r.shaped(text) then None
      else Some(Member(row.ticket, row.created, text, category))
  }

  /** A row set aside for its PII-shaped text. */
  function SetAside(r: Rules): Raw -> Option<Raw> {
    (row: Raw) =>
      var text, category := r.normal(row.text), r.normal(row.category);
      if text != "" && category != "" && r.shaped(text) then Some(row) else None
  }

  function Kept(rows: seq<Raw>, r: Rules): seq<Member> {
    Collect(rows, Keep(r))
  }

  function KeyOf(m: Member, r: Rules): string {
    r.digest("normalized-text", r.lower(m.text))
  }

  function InGroup(key: string, r: Rules): Member -> Option<Member> {
    (m: Member) => if KeyOf(m, r) == key then Some(m) else None
  }

  /** The members of a group, in row order. */
  function Members(kept: seq<Member>, key: string, r: Rules): seq<Member> {
    Collect(kept, InGroup(key, r))
  }

  /** The group keys in order of first appearance. */
  function Keys(kept: seq<Member>, r: Rules): (ks: seq<string>)
    ensures Distinct(ks)
    ensures forall k :: k in ks <==> exists m :: m in kept && KeyOf(m, r) == k
  {
    if kept == [] then []
    else
      var before, last := Keys(kept[..|kept| - 1], r), kept[|kept| - 1];
      assert kept == kept[..|kept| - 1] + [last];
      var k := KeyOf(last, r);
      if k in before then before else before + [k]
  }

  predicate Unanimous(members: seq<Member>) {
    forall i, j :: 0 <= i < |members| && 0 <= j < |members| ==> members[i].category == members[j].category
  }

  /** Earlier filing first, then by the digest of the ticket. */
  predicate FiledBefore(x: Member, y: Member, r: Rules) {
    || x.created < y.created
    || (x.created == y.created && StringLeq(r.digest("ticket-order", x.ticket), r.digest("ticket-order", y.ticket)))
  }

  function Earlier(r: Rules): (Member, Member) -> bool {
    (x: Member, y: Member) => FiledBefore(x, y, r)
  }

  lemma {:induction false} EarlierOrders(r: Rules)
    ensures TotalPreorder(Earlier(r))
  {
    StringOrder();
    var leq := Earlier(r);
    forall x, y ensures leq(x, y) || leq(y, x) { FiledEither(x, y, r); }
    forall x, y, z | leq(x, y) && leq(y, z) ensures leq(x, z) { FiledThrough(x, y, z, r); }
  }

  lemma {:induction false} FiledEither(x: Member, y: Member, r: Rules)
    ensures FiledBefore(x, y, r) || FiledBefore(y, x, r)
  {
    StringLeqTotal(r.digest("ticket-order", x.ticket), r.digest("ticket-order", y.ticket));
  }

  lemma {:induction false} FiledThrough(x: Member, y: Member, z: Member, r: Rules)
    requires FiledBefore(x, y, r) && FiledBefore(y, z, r)
    ensures FiledBefore(x, z, r)
  {
    if x.created == y.created == z.created {
      StringLeqTransitive(
        r.digest("ticket-order", x.ticket), r.digest("ticket-order", y.ticket), r.digest("ticket-order", z.ticket));
    }
  }

  /** The member a group's record is made from. */
  function First(members: seq<Member>, r: Rules): (m: Member)
    requires members != []
    ensures m in members && forall x :: x in members ==> Earlier(r)(m, x)
  {
    EarlierOrders(r);
    FirstLeast(members, Earlier(r))
  }

  function SplitOf(month: int): Split {
    if month <= 6 then Train else if month <= 9 then Validation else Test
  }

  function RecOf(key: string, first: Member, r: Rules): Rec {
    Rec(r.digest("item", first.ticket), key, first.text, first.category, SplitOf(r.month(first.created)))
  }

  /** The record of a group, if its labels agree. */
  function Candidate(kept: seq<Member>, r: Rules): string -> Option<Rec> {
    (key: string) =>
      var members := Members(kept, key, r);
      if members == [] || !Unanimous(members) then None else Some(RecOf(key, First(members, r), r))
  }

  function Candidates(kept: seq<Member>, r: Rules): seq<Rec> {
    Collect(Keys(kept, r), Candidate(kept, r))
  }

  // ---------------------------------------------------------------------------------------------
  // Support and selection

  function Having(category: string, split: Split): Rec -> Option<Rec> {
    (x: Rec) => if x.category == category && x.split == split then Some(x) else None
  }

  function Support(s: seq<Rec>, category: string, split: Split): nat {
    |Collect(s, Having(category, split))|
  }

  predicate Supported(s: seq<Rec>, category: string, least: nat) {
    && Support(s, category, Train) >= least
    && Support(s, category, Validation) >= least
    && Support(s, category, Test) >= least
  }

  function OfSupported(s: seq<Rec>, least: nat): Rec -> Option<Rec> {
    (x: Rec) => if Supported(s, x.category, least) then Some(x) else None
  }

  function Rank(split: Split): nat {
    match split
    case Test => 0
    case Train => 1
    case Validation => 2
  }

  /** The final sort: by split name, then by item id. */
  predicate Before(x: Rec, y: Rec) {
    Rank(x.split) < Rank(y.split) || (x.split == y.split && StringLeq(x.itemId, y.itemId))
  }

  lemma {:induction false} BeforeOrders()
    ensures TotalPreorder(Before)
  {
    StringOrder();
  }

  /** The selected records as a function of the rows. */
  function Selected(rows: seq<Raw>, least: nat, r: Rules): seq<Rec> {
    var candidates := Candidates(Kept(rows, r), r);
    Sort(Collect(candidates, OfSupported(candidates, least)), Before)
  }

  // ---------------------------------------------------------------------------------------------
  // The loops of prepare_records

  ghost predicate Grouped(groups: map<string, seq<Member>>, kept: seq<Member>, r: Rules) {
    && groups.Keys == Elements(Keys(kept, r))
    && forall k :: k in groups ==> groups[k] == Members(kept, k, r)
  }

  lemma {:induction false} NoMembers(kept: seq<Member>, key: string, r: Rules)
    requires key !in Keys(kept, r)
    ensures Members(kept, key, r) == []
  {
    if Members(kept, key, r) != [] {
      var m := Members(kept, key, r)[0];
      CollectMember(kept, InGroup(key, r), m);
      assert false;
    }
  }

  lemma {:induction false} KeysSnoc(kept: seq<Member>, m: Member, r: Rules)
    ensures Keys(kept + [m], r) == if KeyOf(m, r) in Keys(kept, r) then Keys(kept, r) else Keys(kept, r) + [KeyOf(m, r)]
  {
    assert (kept + [m])[..|kept|] == kept;
  }

  lemma {:induction false} GroupsGrow(groups: map<string, seq<Member>>, kept: seq<Member>, m: Member, r: Rules)
    requires Grouped(groups, kept, r)
    ensures var k := KeyOf(m, r);
      Grouped(groups[k := (if k in groups then groups[k] else []) + [m]], kept + [m], r)
  {
    var k := KeyOf(m, r);
    var next := groups[k := (if k in groups then groups[k] else []) + [m]];
    KeysSnoc(kept, m, r);
    ElementsConcat(Keys(kept, r), [k]);
    assert k in groups <==> k in Elements(Keys(kept, r));
    if k !in groups {
      NoMembers(kept, k, r);
    }
    forall x | x in next ensures next[x] == Members(kept + [m], x, r) {
      CollectSnoc(kept, m, InGroup(x, r));
    }
  }

  method GroupRows(rows: seq<Raw>, r: Rules) returns (keys: seq<string>, groups: map<string, seq<Member>>, shaped: nat)
    ensures keys == Keys(Kept(rows, r), r) && Grouped(groups, Kept(rows, r), r)
    ensures shaped == |Collect(rows, SetAside(r))|
  {
    keys, groups, shaped := [], map[], 0;
    ghost var kept: seq<Member> := [];
    for i := 0 to |rows|
      invariant kept == Kept(rows[..i], r)
      invariant keys == Keys(kept, r) && Grouped(groups, kept, r)
      invariant shaped == |Collect(rows[..i], SetAside(r))|
    {
      var row := rows[i];
      KeptStep(rows, i, r);
      var text, category := r.normal(row.text), r.normal(row.category);
      if text == "" || category == "" {
        continue;
      }
      if r.shaped(text) {
        shaped := shaped + 1;
        continue;
      }
      var m := Member(row.ticket, row.created, text, category);
      keys, groups := AddMember(keys, groups, m, r, kept);
      kept := kept + [m];
    }
    assert rows[..|rows|] == rows;
  }

  lemma {:induction false} KeptStep(rows: seq<Raw>, i: nat, r: Rules)
    requires i < |rows|
    ensures Kept(rows[..i + 1], r) == match Keep(r)(rows[i])
      case Some(m) => Kept(rows[..i], r) + [m]
      case None => Kept(rows[..i], r)
    ensures |Collect(rows[..i + 1], SetAside(r))|
      == |Collect(rows[..i], SetAside(r))| + if SetAside(r)(rows[i]).Some? then 1 else 0
  {
    assert rows[..i + 1] == rows[..i] + [rows[i]];
    CollectSnoc(rows[..i], rows[i], Keep(r));
    CollectSnoc(rows[..i], rows[i], SetAside(r));
  }

  method AddMember(keys: seq<string>, groups: map<string, seq<Member>>, m: Member, r: Rules, ghost kept: seq<Member>)
    returns (keys': seq<string>, groups': map<string, seq<Member>>)
    requires keys == Keys(kept, r) && Grouped(groups, kept, r)
    ensures keys' == Keys(kept + [m], r) && Grouped(groups', kept + [m], r)
  {
    var key := r.digest("normalized-text", r.lower(m.text));
    GroupsGrow(groups, kept, m, r);
    KeysSnoc(kept, m, r);
    assert key in groups <==> key in Elements(keys);
    keys' := if key in groups then keys else keys + [key];
    groups' := groups[key := (if key in groups then groups[key] else []) + [m]];
  }

  lemma {:induction false} HasMembers(kept: seq<Member>, key: string, r: Rules)
    requires key in Keys(kept, r)
    ensures Members(kept, key, r) != []
  {
    var m :| m in kept && KeyOf(m, r) == key;
    CollectMember(kept, InGroup(key, r), m);
  }

  method CollectCandidates(keys: seq<string>, groups: map<string, seq<Member>>, r: Rules, ghost kept: seq<Member>)
    returns (candidates: seq<Rec>, conflicts: nat)
    requires keys == Keys(kept, r) && Grouped(groups, kept, r)
    ensures candidates == Candidates(kept, r)
    ensures conflicts + |candidates| == |keys|
  {
    candidates, conflicts := [], 0;
    for i := 0 to |keys|
      invariant candidates == Collect(keys[..i], Candidate(kept, r))
      invariant conflicts + |candidates| == i
    {
      var key := keys[i];
      CandidateStep(keys, i, groups, kept, r);
      var members := groups[key];
      if !Unanimous(members) {
        conflicts := conflicts + 1;
        continue;
      }
      candidates := candidates + [RecOf(key, First(members, r), r)];
    }
    assert keys[..|keys|] == keys;
  }

  lemma {:induction false} CandidateStep(
    keys: seq<string>, i: nat, groups: map<string, seq<Member>>, kept: seq<Member>, r: Rules)
    requires keys == Keys(kept, r) && Grouped(groups, kept, r) && i < |keys|
    ensures keys[i] in groups && groups[keys[i]] != []
    ensures Collect(keys[..i + 1], Candidate(kept, r)) == Collect(keys[..i], Candidate(kept, r))
      + if Unanimous(groups[keys[i]]) then [RecOf(keys[i], First(groups[keys[i]], r), r)] else []
  {
    assert keys[..i + 1] == keys[..i] + [keys[i]];
    CollectSnoc(keys[..i], keys[i], Candidate(kept, r));
    assert keys[i] in Elements(keys);
    HasMembers(kept, keys[i], r);
  }

  /** `Counter` look-up: nothing counted is zero. */
  function CountOf(support: map<(string, Split), nat>, category: string, split: Split): nat {
    if (category, split) in support then support[(category, split)] else 0
  }

  ghost predicate CountsSupport(support: map<(string, Split), nat>, s: seq<Rec>) {
    forall category, split :: CountOf(support, category, split) == Support(s, category, split)
  }

  lemma {:induction false} SupportSnoc(s: seq<Rec>, x: Rec, category: string, split: Split)
    ensures Support(s + [x], category, split)
      == Support(s, category, split) + if x.category == category && x.split == split then 1 else 0
  {
    CollectSnoc(s, x, Having(category, split));
  }

  lemma {:induction false} BumpSupport(support: map<(string, Split), nat>, s: seq<Rec>, x: Rec)
    requires CountsSupport(support, s)
    ensures CountsSupport(support[(x.category, x.split) := CountOf(support, x.category, x.split) + 1], s + [x])
  {
    var next := support[(x.category, x.split) := CountOf(support, x.category, x.split) + 1];
    forall category, split ensures CountOf(next, category, split) == Support(s + [x], category, split) {
      SupportSnoc(s, x, category, split);
      assert CountOf(support, category, split) == Support(s, category, split);
    }
  }

  method CountSupport(candidates: seq<Rec>) returns (support: map<(string, Split), nat>)
    ensures CountsSupport(support, candidates)
  {
    support := map[];
    for i := 0 to |candidates|
      invariant CountsSupport(support, candidates[..i])
    {
      var x := candidates[i];
      assert candidates[..i + 1] == candidates[..i] + [x];
      BumpSupport(support, candidates[..i], x);
      support := support[(x.category, x.split) := CountOf(support, x.category, x.split) + 1];
    }
    assert candidates[..|candidates|] == candidates;
  }

  /** The categories of some records. */
  function Categories(s: seq<Rec>): set<string> {
    set x | x in s :: x.category
  }

  function Eligible(s: seq<Rec>, least: nat): set<string> {
    set c | c in Categories(s) && Supported(s, c, least)
  }

  /** The eligible and the other categories, read off the counters, each sorted. */
  method SplitCategories(candidates: seq<Rec>, least: nat) returns (eligible: seq<string>, excluded: seq<string>)
    ensures Sorted(eligible, StringLeq) && Distinct(eligible) && Elements(eligible) == Eligible(candidates, least)
    ensures Sorted(excluded, StringLeq) && Distinct(excluded)
    ensures Elements(excluded) == Categories(candidates) - Eligible(candidates, least)
  {
    var support := CountSupport(candidates);
    var all := Categories(candidates);
    var chosen := set c | c in all && CountOf(support, c, Train) >= least && CountOf(support, c, Validation) >= least
                          && CountOf(support, c, Test) >= least;
    assert chosen == Eligible(candidates, least);
    assert TotalPreorder(StringLeq) by { StringOrder(); }
    hide TotalPreorder;
    hide CountsSupport;
    hide Supported;
    eligible := SortedSet(chosen, StringLeq);
    excluded := SortedSet(all - chosen, StringLeq);
  }

  /** The records of the eligible categories. */
  method SelectEligible(candidates: seq<Rec>, least: nat, eligible: seq<string>) returns (selected: seq<Rec>)
    requires Elements(eligible) == Eligible(candidates, least)
    ensures selected == Collect(candidates, OfSupported(candidates, least))
  {
    selected := [];
    for i := 0 to |candidates|
      invariant selected == Collect(candidates[..i], OfSupported(candidates, least))
    {
      var x := candidates[i];
      assert candidates[..i + 1] == candidates[..i] + [x];
      CollectSnoc(candidates[..i], x, OfSupported(candidates, least));
      assert x.category in Categories(candidates);
      assert x.category in eligible <==> x.category in Elements(eligible);
      if x.category in eligible {
        selected := selected + [x];
      }
    }
    assert candidates[..|candidates|] == candidates;
  }

  function InSplit(split: Split): Rec -> Option<Rec> {
    (x: Rec) => if x.split == split then Some(x) else None
  }

  function InCategory(category: string): Rec -> Option<Rec> {
    (x: Rec) => if x.category == category then Some(x) else None
  }

  /** A counter over some key of the records: a key is there when it was met, with the number of its records. */
  ghost predicate Tallies<K(!new)>(m: map<K, nat>, s: seq<Rec>, under: K -> Rec -> Option<Rec>) {
    && (forall k :: k in m <==> Collect(s, under(k)) != [])
    && (forall k :: k in m ==> m[k] == |Collect(s, under(k))|)
  }

  lemma {:induction false} TallyNext<K(
    !new)>(m: map<K, nat>, s: seq<Rec>, x: Rec, key: K, under: K -> Rec -> Option<Rec>)
    requires Tallies(m, s, under) && forall k :: under(k)(x).Some? <==> k == key
    ensures Tallies(m[key := (if key in m then m[key] else 0) + 1], s + [x], under)
  {
    forall k ensures |Collect(s + [x], under(k))| == |Collect(s, under(k))| + if k == key then 1 else 0 {
      CollectSnoc(s, x, under(k));
    }
    hide Collect;
  }

  /** `Counter(key(row) for row in s)`. */
  method CountBy<K(==,!new)>(s: seq<Rec>, key: Rec -> K, ghost under: K -> Rec -> Option<Rec>) returns (m: map<K, nat>)
    requires forall k, x :: under(k)(x).Some? <==> k == key(x)
    ensures Tallies(m, s, under)
  {
    m := map[];
    assert Tallies(m, s[..0], under);
    hide Tallies;
    for i := 0 to |s|
      invariant Tallies(m, s[..i], under)
    {
      var k := key(s[i]);
      assert s[..i + 1] == s[..i] + [s[i]];
      TallyNext(m, s[..i], s[i], k, under);
      m := m[k := (if k in m then m[k] else 0) + 1];
    }
    assert s[..|s|] == s;
  }

  function SplitName(): Rec -> Split {
    (x: Rec) => x.split
  }

  function CategoryName(): Rec -> string {
    (x: Rec) => x.category
  }

  datatype Evidence = Evidence(inputRows: nat, groups: nat, conflicts: nat, shaped: nat,
                               eligible: seq<string>, excluded: seq<string>,
                               bySplit: map<Split, nat>, byCategory: map<string, nat>)

  /** The sidecar agrees with what the rows are. */
  ghost predicate Accounts(e: Evidence, rows: seq<Raw>, least: nat, r: Rules) {
    var candidates := Candidates(Kept(rows, r), r);
    && e.inputRows == |rows| && e.shaped == |Collect(rows, SetAside(r))|
    && e.groups == |Keys(Kept(rows, r), r)| && e.conflicts == e.groups - |candidates|
    && Sorted(e.eligible, StringLeq) && Distinct(e.eligible) && Elements(e.eligible) == Eligible(candidates, least)
    && Sorted(e.excluded, StringLeq) && Distinct(e.excluded)
    && Elements(e.excluded) == Categories(candidates) - Eligible(candidates, least)
    && Tallies(e.bySplit, Selected(rows, least, r), InSplit)
    && Tallies(e.byCategory, Selected(rows, least, r), InCategory)
  }

  /** `prepare_records`. */
  method PrepareRecords(rows: seq<Raw>, salt: string, least: int, r: Rules)
      returns (out: Result<(seq<Rec>, Evidence), string>)
    ensures out.Ok? <==> salt != "" && least >= 1
    ensures out.Ok? ==> out.value.0 == Selected(rows, least, r) && Accounts(out.value.1, rows, least, r)
  {
    if salt == "" {
      return Err("salt must be non-empty");
    }
    if least < 1 {
      return Err("min_support_per_split must be positive");
    }
    hide Supported;
    hide Eligible;
    hide Categories;
    var keys, groups, shaped := GroupRows(rows, r);
    var candidates, conflicts := CollectCandidates(keys, groups, r, Kept(rows, r));
    var eligible, excluded := SplitCategories(candidates, least);
    var selected := SelectEligible(candidates, least, eligible);
    selected := Sort(selected, Before);
    var bySplit := CountBy(selected, SplitName(), InSplit);
    var byCategory := CountBy(selected, CategoryName(), InCategory);
    return Ok((selected, Evidence(|rows|, |keys|, conflicts, shaped, eligible, excluded, bySplit, byCategory)));
  }

  // ---------------------------------------------------------------------------------------------
  // Independence of row order

  ghost predicate DistinctTickets(rows: seq<Raw>) {
    forall i, j :: 0 <= i < j < |rows| ==> rows[i].ticket != rows[j].ticket
  }

  /** The digest tells the rows' tickets apart, for both of its uses on tickets. */
  ghost predicate TellsApart(r: Rules) {
    && (forall x, y :: r.digest("ticket-order", x) == r.digest("ticket-order", y) ==> x == y)
    && (forall x, y :: r.digest("item", x) == r.digest("item", y) ==> x == y)
  }

  /** No ticket names two members. */
  ghost predicate TicketsName(kept: seq<Member>) {
    forall x, y :: x in kept && y in kept && x.ticket == y.ticket ==> x == y
  }

  lemma {:induction false} KeptNamed(rows: seq<Raw>, r: Rules)
    requires DistinctTickets(rows)
    ensures TicketsName(Kept(rows, r))
  {
    forall x, y | x in Kept(rows, r) && y in Kept(rows, r) && x.ticket == y.ticket ensures x == y {
      CollectMember(rows, Keep(r), x);
      CollectMember(rows, Keep(r), y);
      var a :| a in rows && Keep(r)(a) == Some(x);
      var b :| b in rows && Keep(r)(b) == Some(y);
      SameRow(rows, a, b);
    }
  }

  lemma {:induction false} SameRow(rows: seq<Raw>, a: Raw, b: Raw)
    requires DistinctTickets(rows) && a in rows && b in rows && a.ticket == b.ticket
    ensures a == b
  {
    var i :| 0 <= i < |rows| && rows[i] == a;
    var j :| 0 <= j < |rows| && rows[j] == b;
  }

  lemma {:induction false} FirstForgetsOrder(a: seq<Member>, b: seq<Member>, r: Rules)
    requires multiset(a) == multiset(b) && a != [] && b != [] && TicketsName(a) && TellsApart(r)
    ensures First(a, r) == First(b, r)
  {
    var m, n := First(a, r), First(b, r);
    MultisetElement(a, b, m);
    MultisetElement(a, b, n);
    assert Earlier(r)(m, n) && Earlier(r)(n, m);
    StringLeqAntisymmetric(r.digest("ticket-order", m.ticket), r.digest("ticket-order", n.ticket));
  }

  lemma {:induction false} UnanimousForgetsOrder(a: seq<Member>, b: seq<Member>)
    requires multiset(a) == multiset(b) && Unanimous(a)
    ensures Unanimous(b)
  {
    forall i, j | 0 <= i < |b| && 0 <= j < |b| ensures b[i].category == b[j].category {
      MultisetElement(a, b, b[i]);
      MultisetElement(a, b, b[j]);
      var x :| 0 <= x < |a| && a[x] == b[i];
      var y :| 0 <= y < |a| && a[y] == b[j];
    }
  }

  lemma {:induction false} CandidateForgetsOrder(a: seq<Member>, b: seq<Member>, key: string, r: Rules)
    requires multiset(a) == multiset(b) && TicketsName(a) && TellsApart(r)
    ensures Candidate(a, r)(key) == Candidate(b, r)(key)
  {
    var m, n := Members(a, key, r), Members(b, key, r);
    CollectPermutes(a, b, InGroup(key, r));
    if Unanimous(m) { UnanimousForgetsOrder(m, n); }
    if Unanimous(n) { UnanimousForgetsOrder(n, m); }
    if m != [] {
      forall x | x in m ensures x in a { CollectMember(a, InGroup(key, r), x); }
      FirstForgetsOrder(m, n, r);
    }
  }

  lemma {:induction false} KeysPermute(a: seq<Member>, b: seq<Member>, r: Rules)
    requires multiset(a) == multiset(b)
    ensures multiset(Keys(a, r)) == multiset(Keys(b, r))
  {
    forall k ensures k in Keys(a, r) <==> k in Keys(b, r) {
      forall m ensures m in a <==> m in b { MultisetElement(a, b, m); }
    }
    assert Elements(Keys(a, r)) == Elements(Keys(b, r));
    DistinctMultiset(Keys(a, r), Keys(b, r));
  }

  lemma {:induction false} CandidatesPermute(a: seq<Member>, b: seq<Member>, r: Rules)
    requires multiset(a) == multiset(b) && TicketsName(a) && TellsApart(r)
    ensures multiset(Candidates(a, r)) == multiset(Candidates(b, r))
  {
    KeysPermute(a, b, r);
    CollectPermutes(Keys(a, r), Keys(b, r), Candidate(a, r));
    forall key ensures Candidate(a, r)(key) == Candidate(b, r)(key) { CandidateForgetsOrder(a, b, key, r); }
    CollectSame(Keys(b, r), Candidate(a, r), Candidate(b, r));
  }

  lemma {:induction false} OfGroup(kept: seq<Member>, key: string, r: Rules)
    requires Members(kept, key, r) != []
    ensures First(Members(kept, key, r), r) in kept && KeyOf(First(Members(kept, key, r), r), r) == key
  {
    CollectMember(kept, InGroup(key, r), First(Members(kept, key, r), r));
  }

  /** A candidate's item id names its group. */
  lemma {:induction false} ItemNamesRec(kept: seq<Member>, x: Rec, y: Rec, r: Rules)
    requires TicketsName(kept) && TellsApart(r)
    requires x in Candidates(kept, r) && y in Candidates(kept, r) && x.itemId == y.itemId
    ensures x == y
  {
    CollectMember(Keys(kept, r), Candidate(kept, r), x);
    CollectMember(Keys(kept, r), Candidate(kept, r), y);
    var j :| j in Keys(kept, r) && Candidate(kept, r)(j) == Some(x);
    var k :| k in Keys(kept, r) && Candidate(kept, r)(k) == Some(y);
    OfGroup(kept, j, r);
    OfGroup(kept, k, r);
  }

  lemma {:induction false} SelectedPermute(a: seq<Rec>, b: seq<Rec>, least: nat)
    requires multiset(a) == multiset(b)
    ensures multiset(Collect(a, OfSupported(a, least))) == multiset(Collect(b, OfSupported(b, least)))
  {
    CollectPermutes(a, b, OfSupported(a, least));
    forall x ensures OfSupported(a, least)(x) == OfSupported(b, least)(x) {
      forall split ensures Support(a, x.category, split) == Support(b, x.category, split) {
        CollectPermutes(a, b, Having(x.category, split));
      }
    }
    CollectSame(b, OfSupported(a, least), OfSupported(b, least));
  }

  /** The selection does not depend on the order the rows arrive in. */
  lemma {:induction false} SelectionForgetsRowOrder(a: seq<Raw>, b: seq<Raw>, least: nat, r: Rules)
    requires multiset(a) == multiset(b) && DistinctTickets(a) && TellsApart(r)
    ensures Selected(a, least, r) == Selected(b, least, r)
  {
    CollectPermutes(a, b, Keep(r));
    KeptNamed(a, r);
    CandidatesPermute(Kept(a, r), Kept(b, r), r);
    var c, d := Candidates(Kept(a, r), r), Candidates(Kept(b, r), r);
    SelectedPermute(c, d, least);
    var s := Collect(c, OfSupported(c, least));
    BeforeOrders();
    StringOrder();
    forall x, y | x in s && y in s && Before(x, y) && Before(y, x) ensures x == y {
      CollectMember(c, OfSupported(c, least), x);
      CollectMember(c, OfSupported(c, least), y);
      ItemNamesRec(Kept(a, r), x, y, r);
    }
    SortForgetsOrder(s, Collect(d, OfSupported(d, least)), Before);
  }

  // ---------------------------------------------------------------------------------------------
  // What a selected record is

  lemma {:induction false} FromCandidates(rows: seq<Raw>, least: nat, r: Rules, x: Rec)
    ensures var c := Candidates(Kept(rows, r), r);
      x in Selected(rows, least, r) <==> x in c && Supported(c, x.category, least)
  {
    var c := Candidates(Kept(rows, r), r);
    var s := Collect(c, OfSupported(c, least));
    BeforeOrders();
    SortCorrect(s, Before);
    MultisetElement(Sort(s, Before), s, x);
    CollectMember(c, OfSupported(c, least), x);
  }

  /**
   * Behind every selected record stands a group of kept rows that all carry its label, and its split is that of a row
   * no other row of the group was filed before.
   */
  lemma {:induction false} RecordSpeaksForGroup(rows: seq<Raw>, least: nat, r: Rules, x: Rec) returns (first: Member)
    requires x in Selected(rows, least, r)
    ensures first in Kept(rows, r) && KeyOf(first, r) == x.groupId
    ensures x == RecOf(x.groupId, first, r)
    ensures forall m :: m in Kept(rows, r) && KeyOf(m, r) == x.groupId ==>
      m.category == x.category && first.created <= m.created
  {
    hide Kept;
    hide Supported;
    hide Sort;
    hide Collect;
    hide KeyOf;
    var kept := Kept(rows, r);
    FromCandidates(rows, least, r, x);
    CollectMember(Keys(kept, r), Candidate(kept, r), x);
    var key :| key in Keys(kept, r) && Candidate(kept, r)(key) == Some(x);
    var members := Members(kept, key, r);
    first := First(members, r);
    OfGroup(kept, key, r);
    forall m | m in kept && KeyOf(m, r) == key ensures m.category == x.category && first.created <= m.created {
      CollectMember(kept, InGroup(key, r), m);
      var i :| 0 <= i < |members| && members[i] == m;
      var j :| 0 <= j < |members| && members[j] == first;
      assert Earlier(r)(first, m);
    }
  }

  /** A collected sequence names no group twice when the keys it comes from are distinct. */
  lemma {:induction false} GroupsOnce(keys: seq<string>, kept: seq<Member>, r: Rules)
    requires Distinct(keys)
    ensures DistinctGroups(Collect(keys, Candidate(kept, r)))
  {
    if keys != [] {
      var front, last := keys[..|keys| - 1], keys[|keys| - 1];
      GroupsOnce(front, kept, r);
      var c := Collect(front, Candidate(kept, r));
      forall i | 0 <= i < |c| ensures c[i].groupId != last {
        CollectMember(front, Candidate(kept, r), c[i]);
        assert last !in front;
      }
    }
  }

  ghost predicate DistinctGroups(s: seq<Rec>) {
    forall i, j :: 0 <= i < j < |s| ==> s[i].groupId != s[j].groupId
  }

  lemma {:induction false} GroupsKept(s: seq<Rec>, f: Rec -> Option<Rec>)
    requires DistinctGroups(s) && forall x :: f(x) == None || f(x) == Some(x)
    ensures DistinctGroups(Collect(s, f))
  {
    if s != [] {
      var front, last := s[..|s| - 1], s[|s| - 1];
      GroupsKept(front, f);
      forall x | x in Collect(front, f) ensures x.groupId != last.groupId {
        CollectMember(front, f, x);
        var y :| y in front && f(y) == Some(x);
      }
      assert forall i :: 0 <= i < |Collect(front, f)| ==> Collect(front, f)[i] in Collect(front, f);
    }
  }

  lemma {:induction false} DistinctGroupsPermute(a: seq<Rec>, b: seq<Rec>)
    requires DistinctGroups(a) && multiset(a) == multiset(b)
    ensures DistinctGroups(b)
  {
    assert Distinct(a);
    DistinctPermutation(a, b);
    forall i, j | 0 <= i < j < |b| ensures b[i].groupId != b[j].groupId {
      MultisetElement(a, b, b[i]);
      MultisetElement(a, b, b[j]);
      var x :| 0 <= x < |a| && a[x] == b[i];
      var y :| 0 <= y < |a| && a[y] == b[j];
      assert x != y;
      if x < y { assert a[x].groupId != a[y].groupId; } else { assert a[y].groupId != a[x].groupId; }
    }
  }

  /** No group appears twice, so no group is in two splits. */
  lemma {:induction false} GroupsAreDisjoint(rows: seq<Raw>, least: nat, r: Rules)
    ensures DistinctGroups(Selected(rows, least, r))
  {
    var kept := Kept(rows, r);
    var c := Candidates(kept, r);
    var s := Collect(c, OfSupported(c, least));
    GroupsOnce(Keys(kept, r), kept, r);
    GroupsKept(c, OfSupported(c, least));
    BeforeOrders();
    SortCorrect(s, Before);
    DistinctGroupsPermute(s, Sort(s, Before));
  }

  // ---------------------------------------------------------------------------------------------
  // Support survives the selection

  lemma {:induction false} SupportKept(s: seq<Rec>, p: Rec -> Option<Rec>, category: string, split: Split)
    requires forall x: Rec :: x.category == category ==> p(x) == Some(x)
    requires forall x: Rec :: p(x) == None || p(x) == Some(x)
    ensures Collect(Collect(s, p), Having(category, split)) == Collect(s, Having(category, split))
  {
    if s != [] {
      var front, last := s[..|s| - 1], s[|s| - 1];
      SupportKept(front, p, category, split);
      CollectSnoc(Collect(front, p), last, Having(category, split));
    }
  }

  /** Every category that survives keeps at least the minimum support in all three splits of the selection itself. */
  lemma {:induction false} SupportSurvives(rows: seq<Raw>, least: nat, r: Rules, x: Rec)
    requires x in Selected(rows, least, r)
    ensures Supported(Selected(rows, least, r), x.category, least)
  {
    var c := Candidates(Kept(rows, r), r);
    var p := OfSupported(c, least);
    var s := Collect(c, p);
    FromCandidates(rows, least, r, x);
    BeforeOrders();
    SortCorrect(s, Before);
    forall split ensures Support(Sort(s, Before), x.category, split) == Support(c, x.category, split) {
      CollectPermutes(Sort(s, Before), s, Having(x.category, split));
      SupportKept(c, p, x.category, split);
    }
  }

  /** The categories reported as eligible are exactly those the selection holds. */
  lemma {:induction false} EligibleAreSelected(rows: seq<Raw>, least: nat, r: Rules)
    ensures Eligible(Candidates(Kept(rows, r), r), least) == Categories(Selected(rows, least, r))
  {
    var c, s := Candidates(Kept(rows, r), r), Selected(rows, least, r);
    hide Candidates;
    hide Supported;
    forall category ensures category in Eligible(c, least) <==> category in Categories(s) {
      if category in Eligible(c, least) {
        var x :| x in c && x.category == category;
        FromCandidates(rows, least, r, x);
      }
      if category in Categories(s) {
        var x :| x in s && x.category == category;
        FromCandidates(rows, least, r, x);
      }
    }
  }

  /** The split counts of any selection add up to its size. */
  lemma {:induction false} SplitCountsAddUp(s: seq<Rec>)
    ensures |Collect(s, InSplit(Train))| + |Collect(s, InSplit(Validation))| + |Collect(s, InSplit(Test))| == |s|
  {
    if s != [] {
      SplitCountsAddUp(s[..|s| - 1]);
    }
  }

  /** The sum of the category counts over a listing of categories. */
  function CategoryTotal(s: seq<Rec>, categories: seq<string>): nat {
    if categories == [] then 0
    else CategoryTotal(s, categories[1..]) + |Collect(s, InCategory(categories[0]))|
  }

  lemma {:induction false} CategoryTotalSnoc(s: seq<Rec>, x: Rec, categories: seq<string>)
    requires Distinct(categories)
    ensures CategoryTotal(s + [x], categories)
      == CategoryTotal(s, categories) + if x.category in categories then 1 else 0
  {
    if categories != [] {
      CategoryTotalSnoc(s, x, categories[1..]);
      CollectSnoc(s, x, InCategory(categories[0]));
      assert categories == [categories[0]] + categories[1..];
      assert categories[0] !in categories[1..];
    }
  }

  /** So do the category counts, over any listing that names each category of the selection once. */
  lemma {:induction false} CategoryCountsAddUp(s: seq<Rec>, categories: seq<string>)
    requires Distinct(categories) && forall x :: x in s ==> x.category in categories
    ensures CategoryTotal(s, categories) == |s|
  {
    if s == [] {
      NothingToCount(categories);
    } else {
      var front, last := s[..|s| - 1], s[|s| - 1];
      assert s == front + [last];
      CategoryCountsAddUp(front, categories);
      CategoryTotalSnoc(front, last, categories);
    }
  }

  lemma {:induction false} NothingToCount(categories: seq<string>)
    ensures CategoryTotal([], categories) == 0
  {
    if categories != [] {
      NothingToCount(categories[1..]);
    }
  }
}

/** The static office decode the journey tables read: rung ladder, role names, places. */
module Mart {
  import opened Wrappers
  import opened Orders
  import opened Collecting
  import opened Journey

  /** `code LIKE 'p%'`. */
  predicate Begins(p: string, code: string) {
    p <= code
  }

  predicate IsApex(c: string) {
    || Begins("CM Grievance Cell", c) || Begins("Chief Minister Office", c)
    || Begins("Office of The Governor", c) || Begins("Chief Secretary", c) || Begins("Governor", c)
  }

  predicate IsStateDepartment(c: string) {
    || Begins("Secretary ", c) || Begins("Director", c) || Begins("Directorate", c)
    || Begins("Engineer-in-Chief", c) || Begins("Labour Commissioner", c) || Begins("DGP", c)
    || Begins("President, BSE", c) || Begins("CEO,", c)
  }

  predicate IsDistrict(c: string) {
    || Begins("Collector,", c) || Begins("SP,", c) || Begins("DCP", c) || Begins("DEO,", c)
    || Begins("CDMO", c) || Begins("DLO", c) || Begins("DSWO", c) || Begins("CDAO", c)
    || Begins("DSSO", c) || Begins("CSO", c) || Begins("DWO", c) || Begins("DFO", c)
    || Begins("DRCS", c) || Begins("DRDA", c) || Begins("PDDRDA", c) || Begins("DPO", c)
    || Begins("DIC", c) || Begins("Commissioner, ", c) || Begins("R.W Division", c)
    || Begins("R&B Division", c)
  }

  predicate IsSubDistrict(c: string) {
    Begins("Sub-Collector", c) || Begins("Sub-Divisional", c) || Begins("SDPO", c)
  }

  predicate IsBlock(c: string) {
    || Begins("BDO", c) || Begins("ABDO", c) || Begins("Tehsildar", c) || Begins("IIC", c)
    || Begins("Executive Officer", c) || Begins("Sarpanch", c)
  }

  /** The `rung` column: the first matching branch of the ladder. */
  function RungOf(c: string): Option<int> {
    if IsApex(c) then Some(1)
    else if IsStateDepartment(c) then Some(2)
    else if IsDistrict(c) then Some(3)
    else if IsSubDistrict(c) then Some(4)
    else if IsBlock(c) then Some(5)
    else None
  }

  /** The text before the first comma. */
  function BeforeComma(c: string): (r: string)
    ensures r <= c
  {
    if c == "" || c[0] == ',' then "" else [c[0]] + BeforeComma(c[1..])
  }

  /** SPLIT_PART(c, ',', 2). */
  function SecondPart(c: string): string {
    var n := |BeforeComma(c)|;
    if n == |c| then "" else BeforeComma(c[n + 1..])
  }

  function TrimLeft(s: string): (r: string)
    ensures r == "" || r[0] != ' '
    ensures s != "" && s[0] != ' ' ==> r == s
  {
    if s != "" && s[0] == ' ' then TrimLeft(s[1..]) else s
  }

  function TrimRight(s: string): (r: string)
    ensures r <= s
  {
    if s != "" && s[|s| - 1] == ' ' then TrimRight(s[..|s| - 1]) else s
  }

  /** TRIM, of blanks. */
  function Trim(s: string): string {
    TrimRight(TrimLeft(s))
  }

  function RoleCode(c: string): string {
    Trim(BeforeComma(c))
  }

  /** The role a token names. */
  function RoleOfToken(r: string): Option<Role> {
    if r == "BDO" then Some(BlockDevelopmentOfficer)
    else if r == "Tehsildar" then Some(Tahasildar)
    else if r == "Collector" then Some(DistrictCollector)
    else if r == "Sub-Collector" then Some(SubCollector)
    else if r == "SP" then Some(SuperintendentOfPolice)
    else if r == "IIC" then Some(PoliceStation)
    else if r == "DEO" then Some(EducationOfficer)
    else if r == "CDMO" then Some(MedicalOfficer)
    else if r == "DSSO" then Some(SocialSecurityOfficer)
    else if r == "DSWO" then Some(SocialWelfareOfficer)
    else if r == "PDDRDA" then Some(DrdaProjectDirector)
    else if r == "CM Grievance Cell" then Some(ChiefMinistersCell)
    else if r == "Secretary" || Begins("Secretary ", r) then Some(DepartmentSecretary)
    else None
  }

  /** The `role_name` column. */
  function RoleName(c: string): Option<Role> {
    RoleOfToken(RoleCode(c))
  }

  /** `acting_office_named` over one action: every office column is read off the code. */
  function Decode(id: int, date: int, code: Option<string>): Action {
    if code.None? then Action(id, date, None, None, None, None)
    else Action(id, date, code, RungOf(code.value), RoleName(code.value), Some(Trim(SecondPart(code.value))))
  }

  /** Every row of the window went through the decode. */
  ghost predicate Decoded(h: seq<Action>) {
    forall i :: 0 <= i < |h| ==> h[i] == Decode(h[i].id, h[i].date, h[i].code)
  }

  /** The level of government a route's role belongs to. */
  function RungOfRole(role: Role): int {
    match role
    case ChiefMinistersCell => 1
    case DepartmentSecretary => 2
    case SubCollector => 4
    case BlockDevelopmentOfficer => 5
    case Tahasildar => 5
    case PoliceStation => 5
    case Unnamed(level) => level
    case _ => 3
  }

  /** The level a ranked code is on, read off its first two characters. */
  function LevelOf(x: char, y: char): int {
    if x == 'C' then (if y == 'M' || y == 'h' then 1 else if y == 'E' then 2 else 3)
    else if x == 'D' then (if y == 'i' || y == 'G' then 2 else 3)
    else if x == 'E' then (if y == 'n' then 2 else 5)
    else if x == 'P' then (if y == 'r' then 2 else 3)
    else if x == 'S' then (if y == 'e' then 2 else if y == 'u' || y == 'D' then 4 else if y == 'a' then 5 else 3)
    else if x == 'G' || x == 'O' then 1
    else if x == 'L' then 2
    else if x == 'A' || x == 'B' || x == 'I' || x == 'T' then 5
    else 3
  }

  predicate OpensOn(c: string, level: int) {
    |c| >= 2 && c[0] != ' ' && LevelOf(c[0], c[1]) == level
  }

  lemma {:induction false} ApexOpens(c: string)
    requires IsApex(c)
    ensures OpensOn(c, 1)
  {
  }

  lemma {:induction false} DepartmentOpens(c: string)
    requires IsStateDepartment(c)
    ensures OpensOn(c, 2)
  {
  }

  lemma {:induction false} DistrictOpens(c: string)
    requires IsDistrict(c)
    ensures OpensOn(c, 3)
  {
  }

  lemma {:induction false} SubDistrictOpens(c: string)
    requires IsSubDistrict(c)
    ensures OpensOn(c, 4)
  {
  }

  lemma {:induction false} BlockOpens(c: string)
    requires IsBlock(c)
    ensures OpensOn(c, 5)
  {
  }

  /** The rung of any ranked code is told by its first two characters: the branches of the ladder do not overlap. */
  lemma {:induction false} OpeningFixesRung(c: string)
    requires RungOf(c).Some?
    ensures OpensOn(c, RungOf(c).value)
  {
    hide OpensOn;
    hide Begins;
    if IsApex(c) {
      ApexOpens(c);
    } else if IsStateDepartment(c) {
      DepartmentOpens(c);
    } else if IsDistrict(c) {
      DistrictOpens(c);
    } else if IsSubDistrict(c) {
      SubDistrictOpens(c);
    } else {
      BlockOpens(c);
    }
  }

  /** On a ranked code the role token is a prefix of the code itself. */
  lemma {:induction false} RoleCodeIsPrefix(c: string)
    requires RungOf(c).Some?
    ensures RoleCode(c) <= c
  {
    OpeningFixesRung(c);
    var b := BeforeComma(c);
    assert b == "" || b[0] == c[0];
    assert TrimLeft(b) == b;
    assert TrimRight(b) <= b <= c;
  }

  /** The token of a named role opens on the level of that role. */
  lemma {:induction false} TokenOpens(r: string)
    requires RoleOfToken(r).Some?
    ensures !RoleOfToken(r).value.Unnamed? && OpensOn(r, RungOfRole(RoleOfToken(r).value))
  {
  }

  lemma {:induction false} RungInLadder(c: string)
    requires RungOf(c).Some?
    ensures 1 <= RungOf(c).value <= 5
  {
  }

  /** The role a route shows for a ranked office determines its rung, named office or not. */
  lemma {:induction false} RoleFixesRung(a: Action)
    requires a == Decode(a.id, a.date, a.code) && a.rung.Some?
    ensures 1 <= a.rung.value <= 5
    ensures RouteRole(a).Some? && a.rung == Some(RungOfRole(RouteRole(a).value))
  {
    hide RungOf;
    hide RoleOfToken;
    hide RoleCode;
    hide LevelOf;
    var c := a.code.value;
    RungInLadder(c);
    if a.role.Some? {
      var r := RoleCode(c);
      RoleCodeIsPrefix(c);
      TokenOpens(r);
      OpeningFixesRung(c);
    }
  }

  /** What the journey tables assume of their input, the decode delivers. */
  lemma {:induction false} DecodeFitsJourney(h: seq<Action>)
    requires Decoded(h)
    ensures RungFromCode(h)
    ensures AllKnown(Roles(RankedSteps(h)))
  {
    RankedStepsAreAllOrNone(h);
    var s := RankedSteps(h);
    forall i | 0 <= i < |s| ensures Roles(s)[i].Some? {
      assert s[i].action == h[i];
      RoleFixesRung(h[i]);
    }
    forall i, j | 0 <= i < |h| && 0 <= j < |h| && h[i].code == h[j].code ensures h[i].rung == h[j].rung {
      assert h[i] == Decode(h[i].id, h[i].date, h[i].code);
      assert h[j] == Decode(h[j].id, h[j].date, h[j].code);
    }
    forall i | 0 <= i < |h| && h[i].rung.Some? ensures h[i].code.Some? {
      assert h[i] == Decode(h[i].id, h[i].date, h[i].code);
    }
  }

  /** Over decoded histories, with nothing assumed: both routes repeat nothing, and one yields the other. */
  lemma {:induction false} RoutesOfDecodedHistory(h: seq<Action>)
    requires Decoded(h)
    ensures NoEqualNeighbours(RungRoute(h)) && NoEqualNeighbours(RoleRoute(h))
    ensures RungRoute(h) == Collapse(MapRoles(RungOfRole, RoleRoute(h)))
  {
    DecodeFitsJourney(h);
    RoutesRepeatNothing(h);
    forall i | 0 <= i < |h| && h[i].rung.Some?
      ensures RouteRole(h[i]).Some? && h[i].rung == Some(RungOfRole(RouteRole(h[i]).value))
    {
      RoleFixesRung(h[i]);
    }
    RungRouteFromRoleRoute(h, RungOfRole);
  }

  /** Over decoded histories, with nothing assumed: the spans tile and the clean rows are as published. */
  lemma {:induction false} PhasesOfDecodedHistory(g: Claim, h: seq<Action>)
    requires InOrder(h) && Decoded(h) && Phases(g, h).Some?
    ensures var r := Phases(g, h).value;
      && r.spans.NonNegative()
      && (r.wentToReview ==> r.hasHandOff)
      && (IsClean(r) <==> Day(h[|h| - 1].date) <= Day(g.resolved.value))
      && (!IsClean(r) ==> r.spans.closure == 0 && r.spans.Total() > r.daysToClose)
  {
    DecodeFitsJourney(h);
    hide InOrder;
    hide Decoded;
    ReviewNeedsHandOff(g, h);
    SpansTile(g, h);
    CleanIffLastActionNotAfterClosing(g, h);
  }

  // ---------------------------------------------------------------------------------------------
  // From the table on

  /** An action as it is stored. */
  datatype Stored = Stored(id: int, ticket: Option<string>, date: Option<int>, code: Option<string>)

  /** `acting_office_named`: every stored action with its office decoded. */
  function ActingOffice(actions: seq<Stored>): (table: seq<Row>)
    ensures |table| == |actions|
  {
    seq(|actions|, i requires 0 <= i < |actions| =>
      var a := actions[i];
      Row(a.ticket, a.date, Decode(a.id, a.date.Coalesce(0), a.code)))
  }

  /** The window of a ticket over the decoded table. */
  function Window(actions: seq<Stored>, ticket: string): seq<Action> {
    History(ActingOffice(actions), ticket)
  }

  lemma {:induction false} WindowIsDecoded(actions: seq<Stored>, ticket: string)
    ensures InOrder(Window(actions, ticket)) && Decoded(Window(actions, ticket))
  {
    var table := ActingOffice(actions);
    var dated, h := Partition(table, ticket), Window(actions, ticket);
    HistoryInOrder(table, ticket);
    forall i | 0 <= i < |h| ensures h[i] == Decode(h[i].id, h[i].date, h[i].code) {
      MultisetElement(h, dated, h[i]);
      CollectMember(table, DatedAction(ticket), h[i]);
      var row :| row in table && DatedAction(ticket)(row) == Some(h[i]);
    }
  }

  /**
   * Over any stored actions: every phase row has nonnegative spans that add to the latest of creation, last action and
   * resolution minus creation, it reviews only what was handed off, and it fails to tile exactly when its last action
   * is dated after its closing date.
   */
  lemma {:induction false} PhasesOfTable(g: Claim, actions: seq<Stored>, ticket: string)
    requires Phases(g, Window(actions, ticket)).Some?
    ensures var r := Phases(g, Window(actions, ticket)).value;
      var last := Day(r.marks.lastAction);
      && r.spans.NonNegative() && (r.wentToReview ==> r.hasHandOff)
      && r.spans.Total()
           == Journey.Greatest(Journey.Greatest(Day(g.created.value), last), Day(g.resolved.value))
              - Day(g.created.value)
      && (IsClean(r) <==> last <= Day(g.resolved.value))
      && (!IsClean(r) ==> r.spans.closure == 0 && r.spans.Total() > r.daysToClose)
  {
    var h := Window(actions, ticket);
    WindowIsDecoded(actions, ticket);
    DecodeFitsJourney(h);
    BoundsExistIffRanked(h);
    FirstAndLastMarks(h);
    hide InOrder;
    hide Decoded;
    hide PhaseBounds;
    hide HasUnranked;
    SpansTile(g, h);
    PhasesOfDecodedHistory(g, h);
  }

  /** Over any stored actions: both routes repeat nothing, and the office route yields the level route. */
  lemma {:induction false} RoutesOfTable(actions: seq<Stored>, ticket: string)
    ensures var h := Window(actions, ticket);
      && NoEqualNeighbours(RungRoute(h)) && NoEqualNeighbours(RoleRoute(h))
      && RungRoute(h) == Collapse(MapRoles(RungOfRole, RoleRoute(h)))
  {
    WindowIsDecoded(actions, ticket);
    RoutesOfDecodedHistory(Window(actions, ticket));
  }

  /**
   * Over any stored actions: arrivals are read off the route, and a second one needs a return upward and a hand-off.
   */
  lemma {:induction false} ArrivalsOfTable(actions: seq<Stored>, ticket: string)
    requires PhaseBounds(Window(actions, ticket)).Some?
    ensures var h := Window(actions, ticket);
      var m := PhaseBounds(h).value;
      && Arrivals(h) == Occurrences(RungRoute(h), Deepest(h)) >= 1
      && (Arrivals(h) >= 2 ==> m.returnedUp.Some?)
      && (m.returnedUp.Some? ==> m.firstRouted.Some? && m.firstRouted.value <= m.returnedUp.value <= m.lastAction)
  {
    var h := Window(actions, ticket);
    WindowIsDecoded(actions, ticket);
    DecodeFitsJourney(h);
    BoundsExistIffRanked(h);
    hide Decoded;
    hide HasUnranked;
    ArrivalsReadOffTheRoute(h);
    MarksRunForwards(h);
  }
}

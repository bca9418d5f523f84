/** The journey tables of one grievance: steps, phase bounds, phase spans, arrivals, routes, waits. */
module Journey {
  import opened Wrappers
  import opened Orders
  import opened Collecting

  /** The role names the office decode can give, and the level names a route falls back on. */
  datatype Role =
    | BlockDevelopmentOfficer | Tahasildar | DistrictCollector | SubCollector | SuperintendentOfPolice
    | PoliceStation | EducationOfficer | MedicalOfficer | SocialSecurityOfficer | SocialWelfareOfficer
    | DrdaProjectDirector | ChiefMinistersCell | DepartmentSecretary
    | Unnamed(level: int)

  /** One action, as `acting_office_named` yields it. Dates are in seconds. */
  datatype Action = Action(id: int, date: int, code: Option<string>, rung: Option<int>,
                           role: Option<Role>, place: Option<string>)

  /** A table row: the action with the nullable columns the queries filter on. */
  datatype Row = Row(ticket: Option<string>, date: Option<int>, action: Action)

  /** ORDER BY action_taken_date, id. */
  predicate Earlier(a: Action, b: Action) {
    a.date < b.date || (a.date == b.date && a.id <= b.id)
  }

  /** The dated action of a row of one ticket. */
  function DatedAction(ticket: string): Row -> Option<Action> {
    (row: Row) =>
      if row.ticket == Some(ticket) && row.date.Some? then Some(row.action.(date := row.date.value)) else None
  }

  /** The dated actions of one ticket, in table order. */
  function Partition(table: seq<Row>, ticket: string): seq<Action> {
    Collect(table, DatedAction(ticket))
  }

  /** The window of one ticket. */
  function History(table: seq<Row>, ticket: string): seq<Action> {
    Sort(Partition(table, ticket), Earlier)
  }

  ghost predicate InOrder(h: seq<Action>) {
    Sorted(h, Earlier)
  }

  lemma {:induction false} EarlierIsPreorder()
    ensures TotalPreorder(Earlier)
  {
  }

  /** The window holds the ticket's dated actions, in order. */
  lemma {:induction false} HistoryInOrder(table: seq<Row>, ticket: string)
    ensures InOrder(History(table, ticket))
    ensures multiset(History(table, ticket)) == multiset(Partition(table, ticket))
  {
    EarlierIsPreorder();
    SortCorrect(Partition(table, ticket), Earlier);
  }

  /** Action ids being distinct, no journey table depends on the order the rows are stored in. */
  lemma {:induction false} HistoryForgetsStorage(a: seq<Row>, b: seq<Row>, ticket: string)
    requires multiset(a) == multiset(b)
    requires forall x, y :: x in Partition(a, ticket) && y in Partition(a, ticket) && x.id == y.id ==> x == y
    ensures History(a, ticket) == History(b, ticket)
  {
    EarlierIsPreorder();
    CollectPermutes(a, b, DatedAction(ticket));
    SortForgetsOrder(Partition(a, ticket), Partition(b, ticket), Earlier);
  }

  // ---------------------------------------------------------------------------------------------
  // install_steps

  datatype Step = Step(action: Action, index: nat, prevRung: Option<int>, prevCode: Option<string>,
                       deepest: Option<int>, count: nat, hasUnranked: bool)

  /** BOOL_OR(rung IS NULL). */
  predicate HasUnranked(h: seq<Action>) {
    exists i :: 0 <= i < |h| && h[i].rung.None?
  }

  /** MAX(rung), which skips nulls. */
  function Deepest(h: seq<Action>): (r: Option<int>)
    ensures r.None? <==> forall i :: 0 <= i < |h| ==> h[i].rung.None?
    ensures r.Some? ==> exists i :: 0 <= i < |h| && h[i].rung == r
    ensures r.Some? ==> forall i :: 0 <= i < |h| && h[i].rung.Some? ==> h[i].rung.value <= r.value
  {
    if h == [] then None
    else
      var before := Deepest(h[..|h| - 1]);
      var last := h[|h| - 1].rung;
      if last.None? then before
      else if before.None? || before.value <= last.value then last
      else before
  }

  function Steps(h: seq<Action>): (s: seq<Step>)
    ensures |s| == |h|
  {
    seq(|h|, i requires 0 <= i < |h| =>
      Step(h[i], i + 1,
           if i == 0 then None else h[i - 1].rung,
           if i == 0 then None else h[i - 1].code,
           Deepest(h), |h|, HasUnranked(h)))
  }

  /** WHERE NOT has_unranked AND rung IS NOT NULL. */
  function RankedSteps(h: seq<Action>): seq<Step> {
    Where(Steps(h), (s: Step) => !s.hasUnranked && s.action.rung.Some?)
  }

  /** One unrecognised office removes the whole grievance; otherwise nothing is removed. */
  lemma {:induction false} RankedStepsAreAllOrNone(h: seq<Action>)
    ensures RankedSteps(h) == if HasUnranked(h) then [] else Steps(h)
  {
    var keep := (s: Step) => !s.hasUnranked && s.action.rung.Some?;
    if HasUnranked(h) {
      WhereNone(Steps(h), keep);
    } else {
      WhereAll(Steps(h), keep);
    }
  }

  // ---------------------------------------------------------------------------------------------
  // install_phase_bounds

  /** MIN(action_taken_date) FILTER (WHERE keep). */
  function MinDate(s: seq<Step>, keep: Step -> bool): (r: Option<int>)
    ensures r.None? <==> forall i :: 0 <= i < |s| ==> !keep(s[i])
    ensures r.Some? ==> exists i :: 0 <= i < |s| && keep(s[i]) && s[i].action.date == r.value
    ensures r.Some? ==> forall i :: 0 <= i < |s| && keep(s[i]) ==> r.value <= s[i].action.date
  {
    if s == [] then None
    else
      var before := MinDate(s[..|s| - 1], keep);
      var last := s[|s| - 1];
      if !keep(last) then before
      else if before.None? || last.action.date < before.value then Some(last.action.date)
      else before
  }

  /** MAX(action_taken_date). */
  function MaxDate(s: seq<Step>): (r: int)
    requires s != []
    ensures exists i :: 0 <= i < |s| && s[i].action.date == r
    ensures forall i :: 0 <= i < |s| ==> s[i].action.date <= r
  {
    var last := s[|s| - 1].action.date;
    if |s| == 1 then last
    else
      var before := MaxDate(s[..|s| - 1]);
      if before < last then last else before
  }

  /** A comparison with a null on either side is not true. */
  predicate SqlLess(a: Option<int>, b: Option<int>) {
    a.Some? && b.Some? && a.value < b.value
  }

  predicate SqlEqual(a: Option<int>, b: Option<int>) {
    a.Some? && a == b
  }

  predicate AtDeepest(s: Step) {
    SqlEqual(s.action.rung, s.deepest)
  }

  /** prev_code IS NOT NULL AND prev_code IS DISTINCT FROM code. */
  predicate IsHandOff(s: Step) {
    s.prevCode.Some? && s.prevCode != s.action.code
  }

  /** A step above the deepest rung, dated no earlier than the first deepest action. */
  predicate IsReturn(reached: Option<int>, s: Step) {
    SqlLess(s.action.rung, s.deepest) && reached.Some? && s.action.date >= reached.value
  }

  function Returning(reached: Option<int>): Step -> bool {
    (s: Step) => IsReturn(reached, s)
  }

  function AnyStep(): Step -> bool {
    (s: Step) => true
  }

  datatype Marks = Marks(firstAction: int, lastAction: int, reachedDeepest: Option<int>,
                         firstRouted: Option<int>, returnedUp: Option<int>, deepest: Option<int>, count: nat)

  /** The row of `phase_bounds`, absent when the grievance has no ranked step. */
  function PhaseBounds(h: seq<Action>): Option<Marks> {
    var s := RankedSteps(h);
    if s == [] then None
    else
      var reached := MinDate(s, AtDeepest);
      Some(Marks(MinDate(s, AnyStep()).Coalesce(0), MaxDate(s), reached,
                 MinDate(s, IsHandOff), MinDate(s, Returning(reached)),
                 s[0].deepest, |s|))
  }

  /** What the office decode guarantees: a rung comes from a code and from nothing else. */
  ghost predicate RungFromCode(h: seq<Action>) {
    && (forall i :: 0 <= i < |h| && h[i].rung.Some? ==> h[i].code.Some?)
    && (forall i, j :: 0 <= i < |h| && 0 <= j < |h| && h[i].code == h[j].code ==> h[i].rung == h[j].rung)
  }

  /** After a named office, a different one later means a hand-off in between. */
  lemma {:induction false} HandOffBetween(h: seq<Action>, i: nat, j: nat) returns (k: nat)
    requires i < j < |h| && h[i].code.Some? && h[i].code != h[j].code
    ensures i < k <= j && IsHandOff(Steps(h)[k])
    decreases j - i
  {
    if h[i].code != h[i + 1].code {
      k := i + 1;
    } else {
      k := HandOffBetween(h, i + 1, j);
    }
  }

  /** Two named offices that differ, in either table order, have a hand-off no later than the later of their dates. */
  lemma {:induction false} HandOffBy(h: seq<Action>, d: nat, u: nat) returns (k: nat)
    requires InOrder(h) && d < |h| && u < |h| && h[d].date <= h[u].date
    requires h[d].code.Some? && h[u].code.Some? && h[d].code != h[u].code
    ensures 0 < k < |h| && IsHandOff(Steps(h)[k]) && h[k].date <= h[u].date
  {
    if d < u {
      k := HandOffBetween(h, d, u);
    } else {
      k := HandOffBetween(h, u, d);
    }
  }

  /** A return upward is preceded, or accompanied at the same instant, by a hand-off. */
  lemma {:induction false} ReturnNeedsHandOff(h: seq<Action>, d: nat, u: nat) returns (k: nat)
    requires InOrder(h) && RungFromCode(h) && !HasUnranked(h)
    requires d < |h| && u < |h| && h[d].rung != h[u].rung && h[d].date <= h[u].date
    ensures 0 < k < |h| && IsHandOff(Steps(h)[k]) && h[k].date <= h[u].date
  {
    assert h[d].rung.Some? && h[u].rung.Some?;
    assert h[d].code != h[u].code;
    k := HandOffBy(h, d, u);
  }

  /** A ticket has phase bounds exactly when it has steps and every step stands on a known rung. */
  lemma {:induction false} BoundsExistIffRanked(h: seq<Action>)
    ensures PhaseBounds(h).Some? <==> h != [] && !HasUnranked(h)
  {
    RankedStepsAreAllOrNone(h);
  }

  lemma {:induction false} MarksOf(h: seq<Action>)
    requires h != [] && !HasUnranked(h)
    ensures PhaseBounds(h).Some? && RankedSteps(h) == Steps(h)
    ensures var m := PhaseBounds(h).value;
      && m.firstAction == MinDate(Steps(h), AnyStep()).Coalesce(0)
      && m.lastAction == MaxDate(Steps(h)) && m.count == |h|
      && m.reachedDeepest == MinDate(Steps(h), AtDeepest)
      && m.firstRouted == MinDate(Steps(h), IsHandOff)
      && m.returnedUp == MinDate(Steps(h), Returning(m.reachedDeepest))
  {
    RankedStepsAreAllOrNone(h);
  }

  lemma {:induction false} FirstAndLastMarks(h: seq<Action>)
    requires InOrder(h) && h != [] && !HasUnranked(h)
    ensures PhaseBounds(h).Some?
    ensures var m := PhaseBounds(h).value;
      m.firstAction == h[0].date && m.lastAction == h[|h| - 1].date && m.count == |h|
  {
    hide PhaseBounds;
    MarksOf(h);
    FirstDate(h);
    LastDate(h);
  }

  lemma {:induction false} FirstDate(h: seq<Action>)
    requires InOrder(h) && h != []
    ensures MinDate(Steps(h), AnyStep()) == Some(h[0].date)
  {
    var s := Steps(h);
    assert AnyStep()(s[0]) && s[0].action == h[0];
    var i := MinDateAt(s, AnyStep());
  }

  lemma {:induction false} LastDate(h: seq<Action>)
    requires InOrder(h) && h != []
    ensures MaxDate(Steps(h)) == h[|h| - 1].date
  {
    var s := Steps(h);
    var k :| 0 <= k < |s| && s[k].action.date == MaxDate(s);
    assert s[|s| - 1].action == h[|h| - 1];
  }

  lemma {:induction false} DeepestIsReached(h: seq<Action>)
    requires h != [] && !HasUnranked(h)
    ensures PhaseBounds(h).Some?
    ensures PhaseBounds(h).value.reachedDeepest.Some?
  {
    MarksOf(h);
    SomeStepAtDeepest(h);
  }

  lemma {:induction false} SomeStepAtDeepest(h: seq<Action>)
    requires h != [] && !HasUnranked(h)
    ensures MinDate(Steps(h), AtDeepest).Some?
  {
    assert h[0].rung.Some?;
    var i :| 0 <= i < |h| && h[i].rung == Deepest(h);
    assert AtDeepest(Steps(h)[i]);
  }

  /** The two steps behind `returned_up`: the first at the deepest rung and the return itself. */
  lemma {:induction false} ReturnedAt(h: seq<Action>) returns (d: nat, u: nat)
    requires h != [] && !HasUnranked(h)
    requires PhaseBounds(h).Some? && PhaseBounds(h).value.returnedUp.Some?
    ensures d < |h| && u < |h| && h[d].rung != h[u].rung
    ensures h[d].date <= h[u].date == PhaseBounds(h).value.returnedUp.value
  {
    hide PhaseBounds;
    hide RankedSteps;
    hide MinDate;
    MarksOf(h);
    d, u := ReturnSteps(Steps(h));
    assert Steps(h)[u].action == h[u] && Steps(h)[d].action == h[d];
  }

  lemma {:induction false} ReturnSteps(s: seq<Step>) returns (d: nat, u: nat)
    requires MinDate(s, Returning(MinDate(s, AtDeepest))).Some?
    requires forall i, j :: 0 <= i < j < |s| ==> s[i].deepest == s[j].deepest
    ensures d < |s| && u < |s| && s[d].action.rung != s[u].action.rung
    ensures s[d].action.date <= s[u].action.date == MinDate(s, Returning(MinDate(s, AtDeepest))).value
  {
    u := MinDateAt(s, Returning(MinDate(s, AtDeepest)));
    d := MinDateAt(s, AtDeepest);
    assert s[u].deepest == s[d].deepest;
  }

  lemma {:induction false} MinDateAt(s: seq<Step>, keep: Step -> bool) returns (i: nat)
    requires MinDate(s, keep).Some?
    ensures i < |s| && keep(s[i]) && s[i].action.date == MinDate(s, keep).value
  {
    i :| 0 <= i < |s| && keep(s[i]) && s[i].action.date == MinDate(s, keep).value;
  }

  lemma {:induction false} RoutedBy(h: seq<Action>, k: nat)
    requires h != [] && !HasUnranked(h) && k < |h| && IsHandOff(Steps(h)[k])
    ensures PhaseBounds(h).Some?
    ensures var m := PhaseBounds(h).value; m.firstRouted.Some? && m.firstRouted.value <= h[k].date
  {
    MarksOf(h);
    hide PhaseBounds;
    assert Steps(h)[k].action == h[k];
    assert MinDate(Steps(h), IsHandOff).Some?;
  }

  lemma {:induction false} RoutedBeforeReturned(h: seq<Action>)
    requires InOrder(h) && RungFromCode(h) && h != [] && !HasUnranked(h)
    requires PhaseBounds(h).Some? && PhaseBounds(h).value.returnedUp.Some?
    ensures var m := PhaseBounds(h).value; m.firstRouted.Some? && m.firstRouted.value <= m.returnedUp.value
  {
    var d, u := ReturnedAt(h);
    var k := ReturnNeedsHandOff(h, d, u);
    RoutedBy(h, k);
  }

  /** The marks run forwards, ties included, and a return upward implies a hand-off. */
  lemma {:induction false} MarksRunForwards(h: seq<Action>)
    requires InOrder(h) && RungFromCode(h) && h != [] && !HasUnranked(h)
    ensures PhaseBounds(h).Some?
    ensures var m := PhaseBounds(h).value;
      && m.firstAction <= m.firstRouted.Coalesce(m.lastAction)
                       <= m.returnedUp.Coalesce(m.lastAction) <= m.lastAction
      && (m.returnedUp.Some? ==> m.firstRouted.Some?)
      && m.firstAction == h[0].date && m.lastAction == h[|h| - 1].date
      && m.reachedDeepest.Some? && m.count == |h|
  {
    FirstAndLastMarks(h);
    DeepestIsReached(h);
    var m := PhaseBounds(h).value;
    if m.returnedUp.Some? {
      RoutedBeforeReturned(h);
    }
    hide InOrder;
    hide RungFromCode;
    hide HasUnranked;
    hide Deepest;
    var s := RankedSteps(h);
    forall i | 0 <= i < |s| ensures m.firstAction <= s[i].action.date <= m.lastAction {
      var any := AnyStep();
      assert any(s[i]);
    }
  }

  // ---------------------------------------------------------------------------------------------
  // install_phases

  /** CAST(t AS DATE), as a day number. */
  function Day(t: int): int {
    t / 86400
  }

  function Greatest(a: int, b: int): int {
    if a < b then b else a
  }

  datatype Claim = Claim(ticket: string, created: Option<int>, resolved: Option<int>, disposed: bool)

  /** `days_to_close` of `grievance_base`: disposed grievances whose own dates run forwards. */
  function DaysToClose(g: Claim): Option<int> {
    if g.disposed && g.created.Some? && g.resolved.Some? && g.resolved.value >= g.created.value
    then Some(Day(g.resolved.value) - Day(g.created.value)) else None
  }

  datatype Spans = Spans(registration: int, firstAssignment: int, fieldAction: int, review: int, closure: int) {
    function Total(): int {
      registration + firstAssignment + fieldAction + review + closure
    }

    predicate NonNegative() {
      registration >= 0 && firstAssignment >= 0 && fieldAction >= 0 && review >= 0 && closure >= 0
    }
  }

  /** The GREATEST chain m1..m5. */
  function Clamped(d0: int, d1: int, d2: int, d3: int, d4: int, d5: int): Spans {
    var p1 := Greatest(d1, d0);
    var p2 := Greatest(d2, p1);
    var p3 := Greatest(d3, p2);
    var p4 := Greatest(d4, p3);
    var p5 := Greatest(d5, p4);
    Spans(p1 - d0, p2 - p1, p3 - p2, p4 - p3, p5 - p4)
  }

  datatype PhaseRow = PhaseRow(claim: Claim, marks: Marks, wentToReview: bool, hasHandOff: bool,
                               daysToClose: int, spans: Spans)

  /** The row of `phases` for one claim, absent when the WHERE clause or the join drops it. */
  function Phases(g: Claim, h: seq<Action>): Option<PhaseRow> {
    if DaysToClose(g).None? || PhaseBounds(h).None? then None
    else
      var b := PhaseBounds(h).value;
      Some(PhaseRow(g, b, b.returnedUp.Some?, b.firstRouted.Some?, DaysToClose(g).value,
        Clamped(Day(g.created.value), Day(b.firstAction),
                Day(b.firstRouted.Coalesce(b.lastAction)), Day(b.returnedUp.Coalesce(b.lastAction)),
                Day(b.lastAction), Day(g.resolved.value))))
  }

  /** Membership of `phases_clean`. */
  predicate IsClean(r: PhaseRow) {
    r.spans.Total() == r.daysToClose
  }

  lemma {:induction false} DayMonotone(a: int, b: int)
    requires a <= b
    ensures Day(a) <= Day(b)
  {
  }

  /** On ordered bounds every clamp but those against the creation date is idle. */
  lemma {:induction false} ClampsIdle(d0: int, d1: int, d2: int, d3: int, d4: int, d5: int)
    requires d1 <= d2 <= d3 <= d4
    ensures Clamped(d0, d1, d2, d3, d4, d5) ==
      Spans(Greatest(d0, d1) - d0,
            Greatest(d0, d2) - Greatest(d0, d1),
            Greatest(d0, d3) - Greatest(d0, d2),
            Greatest(d0, d4) - Greatest(d0, d3),
            Greatest(d5, Greatest(d0, d4)) - Greatest(d0, d4))
  {
  }

  /** The four dates the record's actions put on the calendar run forwards. */
  lemma {:induction false} BoundsRunForwards(h: seq<Action>)
    requires InOrder(h) && RungFromCode(h) && h != [] && !HasUnranked(h)
    ensures PhaseBounds(h).Some?
    ensures var m := PhaseBounds(h).value;
      Day(m.firstAction) <= Day(m.firstRouted.Coalesce(m.lastAction))
        <= Day(m.returnedUp.Coalesce(m.lastAction)) <= Day(m.lastAction)
  {
    MarksRunForwards(h);
    var m := PhaseBounds(h).value;
    DayMonotone(m.firstAction, m.firstRouted.Coalesce(m.lastAction));
    DayMonotone(m.firstRouted.Coalesce(m.lastAction), m.returnedUp.Coalesce(m.lastAction));
    DayMonotone(m.returnedUp.Coalesce(m.lastAction), m.lastAction);
  }

  /**
   * Every phase row: no span is negative; they add to the way from creation to the latest of creation,
   * last action and resolution; each span runs between its own two dates; a grievance never sent
   * back up has a review of zero days.
   */
  lemma {:induction false} SpansTile(g: Claim, h: seq<Action>)
    requires InOrder(h) && RungFromCode(h) && Phases(g, h).Some?
    ensures var r := Phases(g, h).value;
      var d0 := Day(g.created.value);
      var d5 := Day(g.resolved.value);
      var d4 := Day(h[|h| - 1].date);
      && r.spans.NonNegative()
      && r.spans.Total() == Greatest(Greatest(d0, d4), d5) - d0
      && d0 + r.spans.registration == Greatest(d0, Day(h[0].date))
      && d0 + r.spans.registration + r.spans.firstAssignment
           == Greatest(d0, Day(r.marks.firstRouted.Coalesce(r.marks.lastAction)))
      && d0 + r.spans.registration + r.spans.firstAssignment + r.spans.fieldAction
           == Greatest(d0, Day(r.marks.returnedUp.Coalesce(r.marks.lastAction)))
      && (!r.wentToReview ==> r.spans.review == 0)
      && (!r.hasHandOff ==> r.spans.fieldAction == 0 && r.spans.review == 0)
  {
    BoundsExistIffRanked(h);
    hide HasUnranked;
    hide PhaseBounds;
    MarksRunForwards(h);
    BoundsRunForwards(h);
    var m := PhaseBounds(h).value;
    ClampsIdle(Day(g.created.value), Day(m.firstAction), Day(m.firstRouted.Coalesce(m.lastAction)),
               Day(m.returnedUp.Coalesce(m.lastAction)), Day(m.lastAction), Day(g.resolved.value));
  }

  lemma {:induction false} ReviewNeedsHandOff(g: Claim, h: seq<Action>)
    requires InOrder(h) && RungFromCode(h) && Phases(g, h).Some?
    ensures var r := Phases(g, h).value; r.wentToReview ==> r.hasHandOff
  {
    BoundsExistIffRanked(h);
    hide HasUnranked;
    hide PhaseBounds;
    MarksRunForwards(h);
  }

  /**
   * A phase row is clean exactly when its last action is not dated after its closing date, so the
   * published reason for the rows that fail is the only one there is.
   */
  lemma {:induction false} CleanIffLastActionNotAfterClosing(g: Claim, h: seq<Action>)
    requires InOrder(h) && RungFromCode(h) && Phases(g, h).Some?
    ensures IsClean(Phases(g, h).value) <==> Day(h[|h| - 1].date) <= Day(g.resolved.value)
  {
    SpansTile(g, h);
    DayMonotone(g.created.value, g.resolved.value);
  }

  /** Why the gate on `days_to_close` matters: were the dates reversed, no row could be clean. */
  lemma {:induction false} ReversedClaimNeverTiles(h: seq<Action>, d0: int, d5: int)
    requires InOrder(h) && RungFromCode(h) && h != [] && !HasUnranked(h)
    ensures PhaseBounds(h).Some?
    ensures var b := PhaseBounds(h).value;
      var s := Clamped(d0, Day(b.firstAction), Day(b.firstRouted.Coalesce(b.lastAction)),
                       Day(b.returnedUp.Coalesce(b.lastAction)), Day(b.lastAction), d5);
      s.Total() == d5 - d0 <==> d0 <= d5 && Day(b.lastAction) <= d5
  {
    BoundsRunForwards(h);
    var m := PhaseBounds(h).value;
    ClampsIdle(d0, Day(m.firstAction), Day(m.firstRouted.Coalesce(m.lastAction)),
               Day(m.returnedUp.Coalesce(m.lastAction)), Day(m.lastAction), d5);
  }

  // ---------------------------------------------------------------------------------------------
  // install_route and install_returns

  /** Keeps, among the first `n` values, those whose LAG is null or different under SQL's `<>`. */
  function CollapseTo<T(==)>(xs: seq<Option<T>>, n: nat): seq<Option<T>>
    requires n <= |xs|
  {
    if n == 0 then []
    else if n == 1 || xs[n - 2].None? || (xs[n - 1].Some? && xs[n - 2] != xs[n - 1])
    then CollapseTo(xs, n - 1) + [xs[n - 1]]
    else CollapseTo(xs, n - 1)
  }

  function Collapse<T(==)>(xs: seq<Option<T>>): seq<Option<T>> {
    CollapseTo(xs, |xs|)
  }

  ghost predicate AllKnown<T>(xs: seq<Option<T>>) {
    forall i :: 0 <= i < |xs| ==> xs[i].Some?
  }

  ghost predicate NoEqualNeighbours<T>(xs: seq<T>) {
    forall i :: 0 < i < |xs| ==> xs[i - 1] != xs[i]
  }

  function Rungs(s: seq<Step>): (r: seq<Option<int>>)
    ensures |r| == |s|
  {
    seq(|s|, i requires 0 <= i < |s| => s[i].action.rung)
  }

  /** COALESCE(role_name, the name of the rung), where only rungs 1 to 5 have a name. */
  function RouteRole(a: Action): Option<Role> {
    if a.role.Some? then a.role
    else if a.rung.Some? && 1 <= a.rung.value <= 5 then Some(Unnamed(a.rung.value))
    else None
  }

  function Roles(s: seq<Step>): (r: seq<Option<Role>>)
    ensures |r| == |s|
  {
    seq(|s|, i requires 0 <= i < |s| => RouteRole(s[i].action))
  }

  /** The `rungs` column of `route`. */
  function RungRoute(h: seq<Action>): seq<Option<int>> {
    Collapse(Rungs(RankedSteps(h)))
  }

  /** The `roles` column of `route`. */
  function RoleRoute(h: seq<Action>): seq<Option<Role>> {
    Collapse(Roles(RankedSteps(h)))
  }

  /** The steps `returns` counts: at the deepest rung, coming from nowhere or from a shallower one. */
  predicate IsArrival(s: Step) {
    AtDeepest(s) && (s.prevRung.None? || SqlLess(s.prevRung, s.deepest))
  }

  function Arrivals(h: seq<Action>): nat {
    |Where(RankedSteps(h), IsArrival)|
  }

  function Occurrences<T(==)>(xs: seq<T>, x: T): nat {
    if xs == [] then 0
    else Occurrences(xs[..|xs| - 1], x) + (if xs[|xs| - 1] == x then 1 else 0)
  }

  lemma {:induction false} CollapseOfPrefix<T>(xs: seq<Option<T>>, ys: seq<Option<T>>, n: nat)
    requires n <= |xs| && n <= |ys|
    requires forall i :: 0 <= i < n ==> xs[i] == ys[i]
    ensures CollapseTo(xs, n) == CollapseTo(ys, n)
  {
    if n > 0 {
      CollapseOfPrefix(xs, ys, n - 1);
    }
  }

  /** With no nulls, a collapse starts and ends like its input, repeats nothing and loses no value. */
  lemma {:induction false} CollapseKeepsValues<T>(xs: seq<Option<T>>, n: nat)
    requires AllKnown(xs) && n <= |xs|
    ensures var c := CollapseTo(xs, n);
      && AllKnown(c) && NoEqualNeighbours(c)
      && (n > 0 ==> c != [] && c[|c| - 1] == xs[n - 1] && c[0] == xs[0])
    ensures forall x :: x in CollapseTo(xs, n) <==> exists i :: 0 <= i < n && xs[i] == x
  {
    if n > 0 {
      CollapseKeepsValues(xs, n - 1);
      var c := CollapseTo(xs, n - 1);
      forall x ensures x in CollapseTo(xs, n) <==> exists i :: 0 <= i < n && xs[i] == x {
        assert x in c <==> exists i :: 0 <= i < n - 1 && xs[i] == x;
        assert n > 1 ==> xs[n - 2] in c;
      }
    }
  }

  /** Neither column of a route repeats a level or an office it has just named. */
  lemma {:induction false} RoutesRepeatNothing(h: seq<Action>)
    requires AllKnown(Roles(RankedSteps(h)))
    ensures NoEqualNeighbours(RungRoute(h)) && NoEqualNeighbours(RoleRoute(h))
  {
    RankedStepsAreAllOrNone(h);
    RankedRungsKnown(h);
    CollapseKeepsValues(Rungs(RankedSteps(h)), |RankedSteps(h)|);
    CollapseKeepsValues(Roles(RankedSteps(h)), |RankedSteps(h)|);
  }

  lemma {:induction false} RankedRungsKnown(h: seq<Action>)
    ensures AllKnown(Rungs(RankedSteps(h)))
  {
    RankedStepsAreAllOrNone(h);
  }

  /** `levels_touched` counts the levels of the history itself: collapsing loses none. */
  lemma {:induction false} LevelsTouched(h: seq<Action>)
    requires !HasUnranked(h)
    ensures forall r :: r in RungRoute(h) <==> exists i :: 0 <= i < |h| && h[i].rung == r
  {
    RankedStepsAreAllOrNone(h);
    RankedRungsKnown(h);
    var rungs := Rungs(Steps(h));
    CollapseKeepsValues(rungs, |rungs|);
    forall r ensures r in RungRoute(h) <==> exists i :: 0 <= i < |h| && h[i].rung == r {
      assert r in Collapse(rungs) <==> exists i :: 0 <= i < |rungs| && rungs[i] == r;
      if i :| 0 <= i < |h| && h[i].rung == r {
        assert rungs[i] == r;
      }
    }
  }

  /** Among the first `n` entries: two nulls at the head, or an entry, a null, and the same entry again. */
  ghost predicate RepeatsWithin<T>(xs: seq<Option<T>>, n: nat)
    requires n <= |xs|
  {
    || (n >= 2 && xs[0].None? && xs[1].None?)
    || exists i :: 2 <= i < n && xs[i - 1].None? && xs[i - 2] == xs[i]
  }

  /** What a collapse ends in: a null that follows a value is dropped. */
  lemma {:induction false} CollapseEnds<T>(xs: seq<Option<T>>, n: nat)
    requires 0 < n <= |xs|
    ensures var c := CollapseTo(xs, n);
      c != [] && c[|c| - 1] == if n > 1 && xs[n - 1].None? && xs[n - 2].Some? then xs[n - 2] else xs[n - 1]
  {
    if n > 1 {
      CollapseEnds(xs, n - 1);
    }
  }

  /** The one more entry decides whether there is one more repeat. */
  lemma {:induction false} RepeatsNext<T>(xs: seq<Option<T>>, n: nat)
    requires 2 < n <= |xs|
    ensures RepeatsWithin(xs, n) <==> RepeatsWithin(xs, n - 1) || (xs[n - 2].None? && xs[n - 3] == xs[n - 1])
  {
  }

  lemma {:induction false} CollapseRepeatsWithin<T>(xs: seq<Option<T>>, n: nat)
    requires n <= |xs|
    ensures NoEqualNeighbours(CollapseTo(xs, n)) <==> !RepeatsWithin(xs, n)
  {
    if n > 1 {
      CollapseRepeatsWithin(xs, n - 1);
      CollapseEnds(xs, n - 1);
      NeighboursSnoc(CollapseTo(xs, n - 1), xs[n - 1]);
      if n > 2 {
        RepeatsNext(xs, n);
      }
    }
  }

  lemma {:induction false} NeighboursSnoc<T>(c: seq<T>, x: T)
    requires c != []
    ensures NoEqualNeighbours(c + [x]) <==> NoEqualNeighbours(c) && c[|c| - 1] != x
  {
    var d := c + [x];
    assert d[|d| - 2] == c[|c| - 1] && d[|d| - 1] == x;
    assert forall i :: 0 <= i < |c| ==> d[i] == c[i];
  }

  /**
   * SQL comparisons make a collapsed column repeat itself exactly across nulls: where it begins with two, or where a
   * null stands between two equal entries.
   */
  lemma {:induction false} CollapseRepeatsAcrossNulls<T>(xs: seq<Option<T>>)
    ensures NoEqualNeighbours(Collapse(xs)) <==> !RepeatsWithin(xs, |xs|)
  {
    CollapseRepeatsWithin(xs, |xs|);
  }

  lemma {:induction false} OccurrencesSnoc<T>(xs: seq<T>, y: T, x: T)
    ensures Occurrences(xs + [y], x) == Occurrences(xs, x) + (if y == x then 1 else 0)
  {
    assert (xs + [y])[..|xs|] == xs;
  }

  lemma {:induction false} WhereSnoc(s: seq<Step>, n: nat, keep: Step -> bool)
    requires 0 < n <= |s|
    ensures |Where(s[..n], keep)| == |Where(s[..n - 1], keep)| + (if keep(s[n - 1]) then 1 else 0)
  {
    assert s[..n][..n - 1] == s[..n - 1];
  }

  /** A step arrives when it stands at the deepest rung and the step before it, if any, does not. */
  lemma {:induction false} ArrivesAt(h: seq<Action>, k: nat)
    requires k < |h| && !HasUnranked(h)
    ensures IsArrival(Steps(h)[k]) <==>
      h[k].rung == Deepest(h) && (k > 0 ==> h[k - 1].rung != h[k].rung)
  {
    assert h[k].rung.Some?;
    if k > 0 {
      assert h[k - 1].rung.Some?;
    }
  }

  lemma {:induction false} ArrivalsCountedSoFar(h: seq<Action>, rungs: seq<Option<int>>, n: nat)
    requires n <= |h| && !HasUnranked(h) && rungs == Rungs(Steps(h)) && AllKnown(rungs)
    ensures |Where(Steps(h)[..n], IsArrival)| == Occurrences(CollapseTo(rungs, n), Deepest(h))
  {
    if n > 0 {
      ArrivalsCountedSoFar(h, rungs, n - 1);
      WhereSnoc(Steps(h), n, IsArrival);
      ArrivesAt(h, n - 1);
      assert rungs[n - 1] == h[n - 1].rung && (n > 1 ==> rungs[n - 2] == h[n - 2].rung);
      hide IsArrival;
      hide Deepest;
      hide Where;
      hide Occurrences;
      OccurrencesSnoc(CollapseTo(rungs, n - 1), rungs[n - 1], Deepest(h));
    }
  }

  lemma {:induction false} WhereLength(s: seq<Step>, keep: Step -> bool)
    ensures |Where(s, keep)| >= 1 <==> exists i :: 0 <= i < |s| && keep(s[i])
    ensures |Where(s, keep)| >= 2 ==> exists i, j :: 0 <= i < j < |s| && keep(s[i]) && keep(s[j])
  {
    if s != [] {
      WhereLength(s[..|s| - 1], keep);
    }
  }

  lemma {:induction false} FirstDeepestArrives(h: seq<Action>, d: nat) returns (k: nat)
    requires !HasUnranked(h) && d < |h| && h[d].rung == Deepest(h)
    ensures k <= d && IsArrival(Steps(h)[k])
    decreases d
  {
    if d == 0 || h[d - 1].rung != Deepest(h) {
      k := d;
      if d > 0 {
        assert h[d - 1].rung.Some?;
      }
    } else {
      k := FirstDeepestArrives(h, d - 1);
    }
  }

  /**
   * `arrivals` is how often the deepest rung stands in the collapsed route; every ranked grievance
   * arrives at least once; arriving twice means having been sent back up in between.
   */
  lemma {:induction false} ArrivalsReadOffTheRoute(h: seq<Action>)
    requires InOrder(h) && h != [] && !HasUnranked(h)
    ensures Arrivals(h) == Occurrences(RungRoute(h), Deepest(h))
    ensures Arrivals(h) >= 1
    ensures PhaseBounds(h).Some? && (Arrivals(h) >= 2 ==> PhaseBounds(h).value.returnedUp.Some?)
  {
    RankedStepsAreAllOrNone(h);
    var s := Steps(h);
    ArrivalsOccur(h);
    WhereLength(s, IsArrival);
    SomeArrival(h);
    if Arrivals(h) >= 2 {
      var i, j :| 0 <= i < j < |s| && IsArrival(s[i]) && IsArrival(s[j]);
      SecondArrivalReturned(h, i, j);
    }
  }

  lemma {:induction false} ArrivalsOccur(h: seq<Action>)
    requires !HasUnranked(h)
    ensures Arrivals(h) == Occurrences(RungRoute(h), Deepest(h))
  {
    RankedStepsAreAllOrNone(h);
    RankedRungsKnown(h);
    var rungs := Rungs(Steps(h));
    ArrivalsCountedSoFar(h, rungs, |h|);
    assert Steps(h)[..|h|] == Steps(h);
  }

  lemma {:induction false} SomeArrival(h: seq<Action>)
    requires !HasUnranked(h) && h != []
    ensures exists k :: 0 <= k < |h| && IsArrival(Steps(h)[k])
  {
    assert h[0].rung.Some?;
    var d :| 0 <= d < |h| && h[d].rung == Deepest(h);
    var k := FirstDeepestArrives(h, d);
  }

  /** The step before a second arrival is a return: shallower, and no earlier than the first arrival. */
  lemma {:induction false} StepBeforeSecondArrival(h: seq<Action>, i: nat, j: nat)
    requires InOrder(h) && !HasUnranked(h) && i < j < |h|
    requires AtDeepest(Steps(h)[i]) && IsArrival(Steps(h)[j])
    ensures SqlLess(h[j - 1].rung, Deepest(h)) && h[i].date <= h[j - 1].date
  {
    hide Deepest;
    assert h[j - 1].rung.Some?;
    assert Steps(h)[j].prevRung == h[j - 1].rung;
  }

  lemma {:induction false} SecondArrivalReturned(h: seq<Action>, i: nat, j: nat)
    requires InOrder(h) && !HasUnranked(h) && i < j < |h|
    requires IsArrival(Steps(h)[i]) && IsArrival(Steps(h)[j])
    ensures PhaseBounds(h).Some? && PhaseBounds(h).value.returnedUp.Some?
  {
    hide Deepest;
    hide MaxDate;
    StepBeforeSecondArrival(h, i, j);
    RankedStepsAreAllOrNone(h);
    ReturnIsMarked(h, i, j - 1);
  }

  lemma {:induction false} ReturnIsMarked(h: seq<Action>, i: nat, k: nat)
    requires RankedSteps(h) == Steps(h) && i < |h| && k < |h|
    requires AtDeepest(Steps(h)[i]) && SqlLess(h[k].rung, Deepest(h)) && h[i].date <= h[k].date
    ensures PhaseBounds(h).value.returnedUp.Some?
  {
    var s := Steps(h);
    var reached := MinDate(s, AtDeepest);
    assert s[i].action == h[i] && s[k].action == h[k] && s[k].deepest == Deepest(h);
    var up := Returning(reached);
    assert up(s[k]);
    assert MinDate(s, up).Some?;
  }

  function MapRoles(f: Role -> int, roles: seq<Option<Role>>): (r: seq<Option<int>>)
    ensures |r| == |roles|
    ensures forall i :: 0 <= i < |r| ==> r[i] == if roles[i].Some? then Some(f(roles[i].value)) else None
  {
    seq(|roles|, i requires 0 <= i < |roles| => if roles[i].Some? then Some(f(roles[i].value)) else None)
  }

  lemma {:induction false} CollapseThroughMap(f: Role -> int, roles: seq<Option<Role>>, n: nat)
    requires AllKnown(roles) && n <= |roles|
    ensures CollapseTo(MapRoles(f, roles), n) == Collapse(MapRoles(f, CollapseTo(roles, n)))
  {
    if n > 0 {
      CollapseThroughMap(f, roles, n - 1);
      var c, x := CollapseTo(roles, n - 1), roles[n - 1];
      if n > 1 {
        CollapseKeepsValues(roles, n - 1);
      }
      if n == 1 || roles[n - 2] != x {
        CollapseOfPrefix(MapRoles(f, c), MapRoles(f, c + [x]), |c|);
      }
    }
  }

  /** Where a role fixes its rung, the level route is the collapse of the office route's levels. */
  lemma {:induction false} RungRouteFromRoleRoute(h: seq<Action>, f: Role -> int)
    requires forall i :: 0 <= i < |h| && h[i].rung.Some? ==>
      RouteRole(h[i]).Some? && h[i].rung == Some(f(RouteRole(h[i]).value))
    ensures RungRoute(h) == Collapse(MapRoles(f, RoleRoute(h)))
  {
    RankedStepsAreAllOrNone(h);
    var s := RankedSteps(h);
    assert MapRoles(f, Roles(s)) == Rungs(s);
    CollapseThroughMap(f, Roles(s), |s|);
  }

  // ---------------------------------------------------------------------------------------------
  // install_office_wait

  datatype Wait = Wait(role: Role, place: string, days: int)

  /** One row per action with a successor, where the acting office is named. */
  function OfficeWait(h: seq<Action>): seq<Wait> {
    if |h| <= 1 then []
    else
      (if h[0].role.Some? && h[0].place.Some? && h[0].place.value != ""
       then [Wait(h[0].role.value, h[0].place.value, Day(h[1].date) - Day(h[0].date))] else [])
      + OfficeWait(h[1..])
  }

  function TotalWait(w: seq<Wait>): int {
    if w == [] then 0 else w[0].days + TotalWait(w[1..])
  }

  ghost predicate Named(a: Action) {
    a.role.Some? && a.place.Some? && a.place.value != ""
  }

  /**
   * No wait is negative; together they never exceed the time from first to last action, and they
   * tile it when every office that acted before the last one is named.
   */
  lemma {:induction false} WaitsTile(h: seq<Action>)
    requires InOrder(h) && h != []
    ensures forall w :: w in OfficeWait(h) ==> w.days >= 0
    ensures TotalWait(OfficeWait(h)) <= Day(h[|h| - 1].date) - Day(h[0].date)
    ensures (forall i :: 0 <= i < |h| - 1 ==> Named(h[i])) ==>
      TotalWait(OfficeWait(h)) == Day(h[|h| - 1].date) - Day(h[0].date)
  {
    if |h| > 1 {
      assert Earlier(h[0], h[1]);
      DayMonotone(h[0].date, h[1].date);
      WaitsTile(h[1..]);
      if Named(h[0]) {
        var w := Wait(h[0].role.value, h[0].place.value, Day(h[1].date) - Day(h[0].date));
        assert OfficeWait(h) == [w] + OfficeWait(h[1..]);
        assert ([w] + OfficeWait(h[1..]))[1..] == OfficeWait(h[1..]);
      } else {
        assert OfficeWait(h) == OfficeWait(h[1..]);
      }
      assert forall i :: 0 <= i < |h[1..]| - 1 ==> h[1..][i] == h[i + 1];
    }
  }
}

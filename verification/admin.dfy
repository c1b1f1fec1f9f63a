/**
 * The admin dashboard: fee statistics over all students, the forward-only workflow of
 * driver issues, the notification form (validation, one request per selected route,
 * reset after sending, the route checklist), the balance cell of the fee table and the
 * approved-students toggle.
 */
module Admin {
  import opened Options
  import RouteTable

  // ---------------------------------------------------------------------------------
  // Fee statistics

  /** A student record as the fee view reads it; a missing number is `None`. */
  datatype FeeRecord = FeeRecord(regNo: string, feeStatus: string, feeDue: Option<int>, amountPaid: Option<int>)

  datatype FeeStats = FeeStats(paidInFull: nat, partiallyPaid: nat, pending: nat, totalCollected: int)

  /** `s.amountPaid || 0` */
  function PaidOrZero(s: FeeRecord): (n: int)
    ensures s.amountPaid.Some? ==> n == s.amountPaid.value
    ensures s.amountPaid == None ==> n == 0
  {
    match s.amountPaid
    case None => 0
    case Some(a) => if a != 0 then a else 0
  }

  /** The number of records whose status is exactly `status`. */
  function StatusCount(students: seq<FeeRecord>, status: string): (n: nat)
    ensures n <= |students|
  {
    if students == [] then 0
    else StatusCount(students[..|students| - 1], status)
         + (if students[|students| - 1].feeStatus == status then 1 else 0)
  }

  /** The sum of the amounts paid, a missing amount counting as zero. */
  function Collected(students: seq<FeeRecord>): int
  {
    if students == [] then 0
    else Collected(students[..|students| - 1]) + PaidOrZero(students[|students| - 1])
  }

  /** The statistics `fetchAllStudents` computes: three filters and a sum. */
  function Stats(students: seq<FeeRecord>): FeeStats {
    FeeStats(StatusCount(students, "Paid"), StatusCount(students, "Partially Paid"),
             StatusCount(students, "Pending"), Collected(students))
  }

  /** The three counts are of distinct statuses, so together they never exceed the number
      of students; any other status is in none of them. */
  lemma {:induction false} StatsBounded(students: seq<FeeRecord>)
    ensures Stats(students).paidInFull + Stats(students).partiallyPaid + Stats(students).pending <= |students|
  {
    if students != [] {
      StatsBounded(students[..|students| - 1]);
    }
  }

  /** No amount paid is negative, so neither is the total. */
  lemma {:induction false} CollectedNonNegative(students: seq<FeeRecord>)
    requires forall i :: 0 <= i < |students| ==> students[i].amountPaid == None || students[i].amountPaid.value >= 0
    ensures Stats(students).totalCollected >= 0
  {
    if students != [] {
      CollectedNonNegative(students[..|students| - 1]);
    }
  }

  /** The statistics of two lists together are the sums of their statistics. */
  lemma {:induction false} StatsAdditive(a: seq<FeeRecord>, b: seq<FeeRecord>)
    ensures Stats(a + b) == FeeStats(Stats(a).paidInFull + Stats(b).paidInFull,
                                     Stats(a).partiallyPaid + Stats(b).partiallyPaid,
                                     Stats(a).pending + Stats(b).pending,
                                     Stats(a).totalCollected + Stats(b).totalCollected)
    decreases |b|
  {
    if b != [] {
      assert (a + b)[..|a + b| - 1] == a + b[..|b| - 1];
      assert (a + b)[|a + b| - 1] == b[|b| - 1];
      StatsAdditive(a, b[..|b| - 1]);
    } else {
      assert a + b == a;
    }
  }

  /** An alternative formulation, not the page's own: the statistics computed in one pass
      over the records instead of three filters and a sum, checked against `Stats`. */
  method ComputeStats(students: seq<FeeRecord>) returns (r: FeeStats)
    ensures r == Stats(students)
  {
    var paid, partial, pending, total := 0, 0, 0, 0;
    var i := 0;
    while i < |students|
      invariant 0 <= i <= |students|
      invariant paid == StatusCount(students[..i], "Paid")
      invariant partial == StatusCount(students[..i], "Partially Paid")
      invariant pending == StatusCount(students[..i], "Pending")
      invariant total == Collected(students[..i])
    {
      assert students[..i + 1][..i] == students[..i];
      var s := students[i];
      if s.feeStatus == "Paid" { paid := paid + 1; }
      if s.feeStatus == "Partially Paid" { partial := partial + 1; }
      if s.feeStatus == "Pending" { pending := pending + 1; }
      total := total + PaidOrZero(s);
      i := i + 1;
    }
    assert students[..i] == students;
    r := FeeStats(paid, partial, pending, total);
  }

  // ---------------------------------------------------------------------------------
  // Balance cell

  datatype BalanceCell = Cleared | Owed(amount: int) | NotANumber

  /** The balance column: `feeDue - amountPaid`, shown as CLEARED when it is zero; a
      missing value makes it NaN, which is never zero. */
  function Balance(s: FeeRecord): (c: BalanceCell)
    ensures c == Cleared <==> s.feeDue.Some? && s.amountPaid.Some? && s.feeDue.value == s.amountPaid.value
    ensures c.Owed? ==> s.feeDue.Some? && s.amountPaid.Some? && c.amount == s.feeDue.value - s.amountPaid.value && c.amount != 0
    ensures c == NotANumber <==> s.feeDue == None || s.amountPaid == None
  {
    if s.feeDue == None || s.amountPaid == None then NotANumber
    else
      var balance := s.feeDue.value - s.amountPaid.value;
      if balance == 0 then Cleared else Owed(balance)
  }

  // ---------------------------------------------------------------------------------
  // Driver issues

  /** Where an issue is in its workflow; 0 to 3 for the four known statuses. */
  function Rank(status: string): (n: Option<nat>)
    ensures n.Some? ==> n.value <= 3
  {
    if status == "pending" then Some(0)
    else if status == "in-progress" then Some(1)
    else if status == "resolved" then Some(2)
    else if status == "closed" then Some(3)
    else None
  }

  /** The one action button an issue row offers, as the status it sets. */
  function NextAction(status: string): (r: Option<string>)
    ensures r.Some? <==> status == "pending" || status == "in-progress" || status == "resolved"
    ensures r.Some? ==> Rank(status).Some? && Rank(r.value) == Some(Rank(status).value + 1)
  {
    if status == "pending" then Some("in-progress")
    else if status == "in-progress" then Some("resolved")
    else if status == "resolved" then Some("closed")
    else None
  }

  /** The status after pressing the offered button `n` times (or fewer, once none is
      offered). */
  function Advance(status: string, n: nat): string
    decreases n
  {
    if n == 0 then status
    else match NextAction(status)
      case None => status
      case Some(next) => Advance(next, n - 1)
  }

  /** The workflow only goes forward: from a known status, pressing buttons never lowers
      the rank, and after at most three presses no button is left. */
  lemma {:induction false} ForwardOnly(status: string, n: nat)
    requires Rank(status).Some?
    ensures Rank(Advance(status, n)).Some?
    ensures Rank(Advance(status, n)).value >= Rank(status).value
    ensures Rank(Advance(status, n)).value == if Rank(status).value + n <= 3 then Rank(status).value + n else 3
    ensures n >= 3 ==> NextAction(Advance(status, n)) == None
    decreases n
  {
    if n > 0 && NextAction(status).Some? {
      ForwardOnly(NextAction(status).value, n - 1);
    }
  }

  // ---------------------------------------------------------------------------------
  // Notifications

  datatype Audience = Everyone | Drivers | Students | RouteSpecific

  datatype NoticeForm = NoticeForm(title: string, message: string, audience: Audience,
                                   routes: seq<string>, priority: string, kind: string)

  const DefaultForm: NoticeForm := NoticeForm("", "", Everyone, [], "normal", "info")

  datatype FormProblem = MissingText | NoRouteSelected {
    function Message(): string {
      match this
      case MissingText => "Title and message are required"
      case NoRouteSelected => "Please select at least one route for route-specific notifications"
    }
  }

  /** The checks `handleSendNotification` makes before sending anything. */
  function Validate(f: NoticeForm): (r: Option<FormProblem>)
    ensures r == Some(MissingText) <==> f.title == "" || f.message == ""
    ensures r == Some(NoRouteSelected) <==> f.title != "" && f.message != "" && f.audience == RouteSpecific && f.routes == []
    ensures r == None <==> f.title != "" && f.message != "" && (f.audience == RouteSpecific ==> f.routes != [])
  {
    if f.title == "" || f.message == "" then Some(MissingText)
    else if f.audience == RouteSpecific && |f.routes| == 0 then Some(NoRouteSelected)
    else None
  }

  /** One notification request: the form's fields with at most one target route. */
  datatype Request = Request(title: string, message: string, audience: Audience,
                             priority: string, kind: string, targetRoute: Option<string>)

  function RequestFor(f: NoticeForm, route: Option<string>): Request {
    Request(f.title, f.message, f.audience, f.priority, f.kind, route)
  }

  /** The requests a send issues: one per selected route, each carrying that route, for
      a route-specific notice; a single request without a route otherwise. */
  function FanOut(f: NoticeForm): (r: seq<Request>)
    ensures f.audience == RouteSpecific && f.routes != [] ==>
      |r| == |f.routes| && forall i :: 0 <= i < |r| ==> r[i] == RequestFor(f, Some(f.routes[i]))
    ensures !(f.audience == RouteSpecific && f.routes != []) ==> r == [RequestFor(f, None)]
  {
    if f.audience == RouteSpecific && |f.routes| > 0 then
      seq(|f.routes|, i requires 0 <= i < |f.routes| => RequestFor(f, Some(f.routes[i])))
    else [RequestFor(f, None)]
  }

  /** How the sending went: a request threw (the network failed), or every request was
      answered; for a single request the server's verdict and message are read. */
  datatype Outcome = Threw | Answered(success: bool, serverMessage: string)

  datatype Feedback =
    | Invalid(problem: FormProblem)
    | SentToRoutes(count: nat)
    | Sent
    | ServerRefused(text: string)
    | SendFailed

  /** `handleSendNotification`: a form failing validation sends nothing and stays as it
      is; otherwise the requests go out and, unless one threw, the form is reset, even
      when the server refused a single notification. */
  function Send(f: NoticeForm, outcome: Outcome): (r: (NoticeForm, Feedback, seq<Request>))
    ensures Validate(f).Some? ==> r == (f, Invalid(Validate(f).value), [])
    ensures Validate(f) == None ==> r.2 == FanOut(f)
    ensures Validate(f) == None && outcome != Threw ==> r.0 == DefaultForm
    ensures outcome == Threw ==> r.0 == f
    ensures Validate(f) == None && outcome.Answered? && f.audience == RouteSpecific ==> r.1 == SentToRoutes(|f.routes|)
    ensures Validate(f) == None && outcome == Threw ==> r.1 == SendFailed
    ensures Validate(f) == None && outcome.Answered? && f.audience != RouteSpecific ==>
      r.1 == (if outcome.success then Sent else ServerRefused(outcome.serverMessage))
  {
    match Validate(f)
    case Some(p) => (f, Invalid(p), [])
    case None =>
      var requests := FanOut(f);
      match outcome
      case Threw => (f, SendFailed, requests)
      case Answered(ok, text) =>
        var feedback :=
          if f.audience == RouteSpecific && |f.routes| > 0 then SentToRoutes(|f.routes|)
          else if ok then Sent
          else ServerRefused(text);
        (DefaultForm, feedback, requests)
  }

  /** An accepted route-specific notice sends one request per selected route, the i-th to
      the i-th route, so each route is reached exactly as often as it is selected; some
      request reaches a route iff it is selected. */
  lemma FanOutCoversRoutes(f: NoticeForm, route: string)
    requires Validate(f) == None && f.audience == RouteSpecific
    ensures |Send(f, Threw).2| == |f.routes|
    ensures forall i :: 0 <= i < |f.routes| ==> Send(f, Threw).2[i].targetRoute == Some(f.routes[i])
    ensures (exists i :: 0 <= i < |Send(f, Threw).2| && Send(f, Threw).2[i].targetRoute == Some(route))
            <==> route in f.routes
  {
    var r := Send(f, Threw).2;
    if route in f.routes {
      var i :| 0 <= i < |f.routes| && f.routes[i] == route;
      assert r[i].targetRoute == Some(route);
    }
  }

  /** After a successful send the form is back to its initial values. */
  lemma ResetIsInitial(f: NoticeForm, ok: bool, text: string)
    requires Validate(f) == None
    ensures var g := Send(f, Answered(ok, text)).0;
      g.title == "" && g.message == "" && g.audience == Everyone && g.routes == []
      && g.priority == "normal" && g.kind == "info"
    ensures Validate(Send(f, Answered(ok, text)).0) == Some(MissingText)
  {
  }

  /** `routes.filter(r => r !== route)` */
  function RemoveRoute(routes: seq<string>, route: string): (r: seq<string>)
    ensures route !in r
    ensures forall x :: x in r <==> x in routes && x != route
    ensures |r| <= |routes|
  {
    if routes == [] then []
    else (if routes[0] == route then [] else [routes[0]]) + RemoveRoute(routes[1..], route)
  }

  lemma {:induction false} RemoveRouteAppend(a: seq<string>, b: seq<string>, route: string)
    ensures RemoveRoute(a + b, route) == RemoveRoute(a, route) + RemoveRoute(b, route)
  {
    if a == [] {
      assert a + b == b;
    } else {
      assert (a + b)[0] == a[0];
      assert (a + b)[1..] == a[1..] + b;
      RemoveRouteAppend(a[1..], b, route);
    }
  }

  lemma {:induction false} RemoveAbsentRoute(routes: seq<string>, route: string)
    requires route !in routes
    ensures RemoveRoute(routes, route) == routes
  {
    if routes != [] {
      RemoveAbsentRoute(routes[1..], route);
      assert [routes[0]] + routes[1..] == routes;
    }
  }

  /** A checkbox of the route checklist: checking appends the route, unchecking removes
      it and keeps the other routes in their order. */
  function ToggleRoute(f: NoticeForm, route: string, checked: bool): (r: NoticeForm)
    ensures r == f.(routes := r.routes)
    ensures checked ==> r.routes == f.routes + [route]
    ensures !checked ==> r.routes == RemoveRoute(f.routes, route)
  {
    if checked then f.(routes := f.routes + [route])
    else f.(routes := RemoveRoute(f.routes, route))
  }

  /** Checking a route that was not selected and unchecking it again gives back the
      original selection. */
  lemma CheckThenUncheck(f: NoticeForm, route: string)
    requires route !in f.routes
    ensures ToggleRoute(ToggleRoute(f, route, true), route, false) == f
  {
    RemoveRouteAppend(f.routes, [route], route);
    RemoveAbsentRoute(f.routes, route);
    assert RemoveRoute([route], route) == [];
  }

  predicate Distinct(routes: seq<string>) {
    forall i, j :: 0 <= i < j < |routes| ==> routes[i] != routes[j]
  }

  /** A checkbox is checked exactly when its route is selected, so checking happens only
      for an unselected route: the selection never holds a route twice, and a
      route-specific send issues one request per distinct route. */
  lemma ChecklistKeepsDistinct(f: NoticeForm, route: string, checked: bool)
    requires Distinct(f.routes)
    requires checked ==> route !in f.routes
    ensures Distinct(ToggleRoute(f, route, checked).routes)
  {
    if !checked {
      RemoveRouteDistinct(f.routes, route);
    }
  }

  lemma {:induction false} RemoveRouteDistinct(routes: seq<string>, route: string)
    requires Distinct(routes)
    ensures Distinct(RemoveRoute(routes, route))
  {
    if routes != [] {
      RemoveRouteDistinct(routes[1..], route);
      var rest := RemoveRoute(routes[1..], route);
      assert routes[0] !in routes[1..];
      assert routes[0] !in rest;
    }
  }

  /** Changing the audience clears the route selection. */
  function ChangeAudience(f: NoticeForm, a: Audience): (r: NoticeForm)
    ensures r.audience == a && r.routes == []
    ensures r.title == f.title && r.message == f.message && r.priority == f.priority && r.kind == f.kind
  {
    f.(audience := a, routes := [])
  }

  /** Every route the checklist offers has an entry in the route table. */
  lemma ChecklistRoutesAreKeys(route: string)
    requires route in RouteTable.SignupRoutes
    ensures RouteTable.IsKey(route)
  {
    RouteTable.SignupRoutesAreKeys();
  }

  // ---------------------------------------------------------------------------------
  // Approved students

  /** `handleToggleStudents`: flips the list's visibility and fetches the approved
      students only when the list was hidden. */
  function ToggleStudents(shown: bool): (r: (bool, bool))
    ensures r.0 == !shown
    ensures r.1 <==> !shown
    ensures r.1 <==> r.0
  {
    (!shown, !shown)
  }

  /** Showing then hiding the list returns it hidden and fetches once. */
  lemma ShowThenHide()
    ensures ToggleStudents(false) == (true, true)
    ensures ToggleStudents(ToggleStudents(false).0) == (false, false)
  {
  }
}

/**
 * The student dashboard outside the payment dialog: how a notification is classified
 * for display, how many the home summary shows, which view each tab renders, how the
 * stored student record becomes the dashboard's student, and the pickup-point update.
 */
module StudentView {
  import opened Options

  // ---------------------------------------------------------------------------------
  // Notifications

  datatype Severity = SuccessNote | Emergency | WarningNote | Announcement

  /** `getNotificationType(priority, type)`: a success type wins over everything, then a
      high priority or an urgent type, then a warning type; anything else is an
      announcement. */
  function Classify(priority: string, kind: string): (r: Severity)
    ensures r == SuccessNote <==> kind == "success"
    ensures r == Emergency <==> kind != "success" && (priority == "high" || kind == "urgent")
    ensures r == WarningNote <==> kind == "warning" && priority != "high"
    ensures r == Announcement <==>
      kind != "success" && kind != "urgent" && kind != "warning" && priority != "high"
  {
    if kind == "success" then SuccessNote
    else if priority == "high" || kind == "urgent" then Emergency
    else if kind == "warning" then WarningNote
    else Announcement
  }

  /** A high-priority notification of type success is still shown as a success, and a
      high-priority warning is shown as an emergency. */
  lemma SuccessBeatsHighPriority()
    ensures Classify("high", "success") == SuccessNote
    ensures Classify("high", "warning") == Emergency
  {
  }

  datatype Notification = Notification(title: string, message: string, priority: string, kind: string)

  /** The notifications a list renders: the first two in the home summary, all of them
      on the notifications tab. */
  function Visible(ns: seq<Notification>, summary: bool): (r: seq<Notification>)
    ensures summary ==> |r| <= 2
    ensures summary ==> |r| == if |ns| < 2 then |ns| else 2
    ensures !summary ==> r == ns
    ensures r == ns[..|r|]
  {
    ns[..if summary && |ns| > 2 then 2 else |ns|]
  }

  // ---------------------------------------------------------------------------------
  // The student record

  /** The student record kept after login, as far as the dashboard reads it. A missing or
      null entry is `None`. */
  datatype StoredStudent = StoredStudent(
    regNo: string,
    fullName: string,
    studyingYear: string,
    email: string,
    preferredRoute: Option<string>,
    pickupPoint: Option<string>,
    pickupPointId: Option<int>,
    routeFee: Option<int>,
    feeStatus: Option<string>,
    amountPaid: Option<int>)

  /** The dashboard's student. Display-only constants (driver, timings) are left out. */
  datatype Student = Student(
    isRegistered: bool,
    regNo: string,
    name: string,
    year: string,
    route: string,
    pickupPoint: Option<string>,
    pickupPointId: Option<int>,
    feeDue: int,
    feeStatus: string,
    amountPaid: int,
    hasPaid: bool)

  const DefaultFee: int := 35000
  const NoRoute: string := "Route not assigned"

  /** `x || fallback` for a string entry: absent and empty are both falsy. */
  function OrString(x: Option<string>, fallback: string): (r: string)
    ensures x.Some? && x.value != "" ==> r == x.value
    ensures x == None || x == Some("") ==> r == fallback
  {
    if x.Some? && x.value != "" then x.value else fallback
  }

  /** `x || fallback` for a number entry: absent and zero are both falsy. */
  function OrInt(x: Option<int>, fallback: int): (r: int)
    ensures x.Some? && x.value != 0 ==> r == x.value
    ensures x == None || x == Some(0) ==> r == fallback
  {
    if x.Some? && x.value != 0 then x.value else fallback
  }

  /** `x || null` for a string entry. */
  function OrNullString(x: Option<string>): (r: Option<string>)
    ensures r == None <==> x == None || x == Some("")
    ensures r.Some? ==> r == x
  {
    if x.Some? && x.value != "" then x else None
  }

  /** `x || null` for a number entry. */
  function OrNullInt(x: Option<int>): (r: Option<int>)
    ensures r == None <==> x == None || x == Some(0)
    ensures r.Some? ==> r == x
  {
    if x.Some? && x.value != 0 then x else None
  }

  /** The transformation the dashboard applies to the stored record, both on mount and
      after a successful payment. `hasPaid` is read from the stored status, before the
      'Pending' default is applied. */
  function Load(s: StoredStudent): (r: Student)
    ensures r.isRegistered
    ensures r.regNo == s.regNo && r.name == s.fullName && r.year == s.studyingYear
    ensures r.route != ""
    ensures r.feeStatus != ""
    ensures r.hasPaid <==> s.feeStatus == Some("Paid")
    ensures s.preferredRoute.Some? && s.preferredRoute.value != "" ==> r.route == s.preferredRoute.value
    ensures s.preferredRoute == None || s.preferredRoute == Some("") ==> r.route == NoRoute
    ensures s.routeFee.Some? && s.routeFee.value != 0 ==> r.feeDue == s.routeFee.value
    ensures s.routeFee == None || s.routeFee == Some(0) ==> r.feeDue == DefaultFee
    ensures s.feeStatus.Some? && s.feeStatus.value != "" ==> r.feeStatus == s.feeStatus.value
    ensures s.feeStatus == None || s.feeStatus == Some("") ==> r.feeStatus == "Pending"
    ensures s.amountPaid.Some? ==> r.amountPaid == s.amountPaid.value
    ensures s.amountPaid == None ==> r.amountPaid == 0
    ensures s.pickupPoint.Some? && s.pickupPoint.value != "" ==> r.pickupPoint == s.pickupPoint
    ensures s.pickupPoint == None || s.pickupPoint == Some("") ==> r.pickupPoint == None
    ensures s.pickupPointId.Some? && s.pickupPointId.value != 0 ==> r.pickupPointId == s.pickupPointId
    ensures s.pickupPointId == None || s.pickupPointId == Some(0) ==> r.pickupPointId == None
    ensures r.pickupPoint == None || r.pickupPoint.value != ""
  {
    Student(
      true,
      s.regNo,
      s.fullName,
      s.studyingYear,
      OrString(s.preferredRoute, NoRoute),
      OrNullString(s.pickupPoint),
      OrNullInt(s.pickupPointId),
      OrInt(s.routeFee, DefaultFee),
      OrString(s.feeStatus, "Pending"),
      OrInt(s.amountPaid, 0),
      s.feeStatus == Some("Paid"))
  }

  /** On a loaded student, `hasPaid` agrees with the displayed status: the 'Pending'
      default can never read as 'Paid'. */
  lemma HasPaidMatchesStatus(s: StoredStudent)
    ensures Load(s).hasPaid <==> Load(s).feeStatus == "Paid"
  {
  }

  // ---------------------------------------------------------------------------------
  // Tabs

  datatype Tab = Home | RouteTab | LiveTrack | Fees | NotificationsTab | OtherTab(name: string)

  datatype View =
    | RegistrationPrompt
    | PaymentRequired
    | HomeSummary
    | RouteDetails
    | LiveTracking
    | FeesAndPayments
    | NotificationList

  predicate RequiresPayment(t: Tab) {
    t == RouteTab || t == LiveTrack || t == NotificationsTab
  }

  /** `renderContent()`: an unregistered student is sent to registration from every tab
      but home and route; the route, live-tracking and notifications tabs need a paid
      fee; otherwise each tab shows its own view, an unknown tab the home summary. */
  function RenderContent(isRegistered: bool, hasPaid: bool, t: Tab): (v: View)
    ensures v == RegistrationPrompt <==> !isRegistered && t != Home && t != RouteTab
    ensures v == PaymentRequired <==> RequiresPayment(t) && !hasPaid && (isRegistered || t == RouteTab)
    ensures isRegistered && t == Fees ==> v == FeesAndPayments
    ensures v == RouteDetails || v == LiveTracking || v == NotificationList ==> hasPaid
    ensures v == HomeSummary ==> t == Home || t.OtherTab?
    ensures t == Home ==> v == HomeSummary
    ensures t == RouteTab && hasPaid ==> v == RouteDetails
    ensures isRegistered && hasPaid && t == LiveTrack ==> v == LiveTracking
    ensures isRegistered && hasPaid && t == NotificationsTab ==> v == NotificationList
    ensures isRegistered && t.OtherTab? ==> v == HomeSummary
  {
    if !isRegistered && t != Home && t != RouteTab then RegistrationPrompt
    else if RequiresPayment(t) && !hasPaid then PaymentRequired
    else match t
      case Home => HomeSummary
      case RouteTab => RouteDetails
      case LiveTrack => LiveTracking
      case Fees => FeesAndPayments
      case NotificationsTab => NotificationList
      case OtherTab(_) => HomeSummary
  }

  /** A student loaded from the stored record is registered, so never sees the
      registration prompt; the paid-only views open exactly when the stored fee status
      is 'Paid'. */
  lemma LoadedStudentGates(s: StoredStudent, t: Tab)
    ensures RenderContent(Load(s).isRegistered, Load(s).hasPaid, t) != RegistrationPrompt
    ensures RequiresPayment(t) ==>
      (RenderContent(Load(s).isRegistered, Load(s).hasPaid, t) == PaymentRequired <==> s.feeStatus != Some("Paid"))
  {
  }

  // ---------------------------------------------------------------------------------
  // Pickup point

  /** `handlePickupPointUpdate`: the dashboard's student takes the new pickup point and
      its id; the stored record, when there is one, is updated the same way. */
  function PickupUpdate(st: Student, stored: Option<StoredStudent>, point: string, id: int)
    : (r: (Student, Option<StoredStudent>))
    ensures r.0 == st.(pickupPoint := Some(point), pickupPointId := Some(id))
    ensures stored == None <==> r.1 == None
    ensures stored.Some? ==>
      r.1 == Some(stored.value.(pickupPoint := Some(point), pickupPointId := Some(id)))
  {
    var next := st.(pickupPoint := Some(point), pickupPointId := Some(id));
    match stored
    case None => (next, None)
    case Some(s) => (next, Some(s.(pickupPoint := Some(point), pickupPointId := Some(id))))
  }

  /** Reloading after a pickup update (as the payment-success handler does) keeps the
      new pickup point, provided it is neither an empty name nor a zero id, and changes
      nothing else the dashboard derived from the record. */
  lemma PickupSurvivesReload(st: Student, s: StoredStudent, point: string, id: int)
    requires point != "" && id != 0
    ensures var r := PickupUpdate(st, Some(s), point, id);
      r.1.Some? && Load(r.1.value) == Load(s).(pickupPoint := Some(point), pickupPointId := Some(id))
  {
  }

  /** An empty pickup name is shown until the next reload and then read back as none. */
  lemma EmptyPickupLostOnReload(st: Student, s: StoredStudent, id: int)
    ensures PickupUpdate(st, Some(s), "", id).0.pickupPoint == Some("")
    ensures Load(PickupUpdate(st, Some(s), "", id).1.value).pickupPoint == None
  {
  }
}

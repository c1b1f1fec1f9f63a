# College transport front end — a Dafny model of its page rules

The college transport system's web front end has pages for students, drivers and the
administrator. Most of the code is rendering and calls to a back end. Embedded in the
pages, though, are small deterministic rules. This project models those rules as pure
Dafny functions over immutable records and proves what the pages rely on.

- **Signup** (`Signup`): field edits, and the ordered checks run before a registration
  is sent.
- **Driver sign-in** (`DriverLogin`): the built-in account table, and credential matching.
  The id is trimmed and compared ignoring case. The password is trimmed and compared
  exactly.
- **Route table** (`RouteTable`): the stops of every route, the lookup, and the fallback
  route.
- **Student dashboard**:
  - `StudentView`: the notification classifier, the summary's two-item limit, the tab
    gate, loading the stored student record, and the pickup-point update.
  - `Payment`: the amount guard shared by the three payment buttons, the card dialog's
    formatters for card number, expiry and CVV, and card validation.
- **Driver dashboard**:
  - `Attendance`: flattening the grouped student list, the status filter and its
    counts, and marking a student.
  - `Trip`: stop progression, per-stop status, trip-flag coupling, and the
    unread-notification badge.
- **Admin dashboard** (`Admin`): fee statistics, the issue workflow, the notification
  form (validation, one request per route, reset, route checklist), the balance cell and
  the approved-students toggle.
- **Shared modules**: `Text` holds the string operations the pages use and `Options`
  holds the optional value.
  - `Text` models JavaScript's whitespace class `\s`, which is also what `trim()`
    removes, code point by code point.
  - `\d` is the ASCII digits.
  - `String.length` counts UTF-16 code units.

Browser storage is modelled as plain values handed in and returned. Examples are the
stored student record, the driver's attendance record and the viewed-notification set.
Server replies are parameters.

Two behaviours of the code worth noting:
- Signup measures the password in UTF-16 code units, as the code does. Three characters
  outside the Basic Multilingual Plane therefore pass the 6-character minimum.
- The admin form is also reset when the server refuses a single (non-route) notification.
  Only a thrown request keeps the form.

## Model

| member | source | states |
|---|---|---|
| Text.RemoveSpaces | src/pages/StudentDashboard.tsx:1647 | removing `\s` leaves no whitespace, never lengthens, and leaves a whitespace-free string unchanged |
| Text.RemoveSpacesChars | src/pages/StudentDashboard.tsx:1647 | a character occurs in the result iff it occurs in the input and is not whitespace; with RemoveSpacesAppend this pins the removal |
| Text.RemoveSpacesAppend | src/pages/StudentDashboard.tsx:1647 | removing whitespace distributes over concatenation |
| Text.KeepDigits | src/pages/StudentDashboard.tsx:1677 | removing `\D` leaves only ASCII digits and leaves an all-digit string unchanged |
| Text.KeepDigitsChars | src/pages/StudentDashboard.tsx:1677 | a character occurs in the result iff it occurs in the input and is a digit; with KeepDigitsAppend this pins the removal |
| Text.KeepDigitsAppend | src/pages/StudentDashboard.tsx:1694 | keeping digits distributes over concatenation |
| Text.Trim | src/pages/DriverLogin.tsx:158-159 | the trimmed string is no longer than the input and neither starts nor ends with whitespace |
| Text.TrimShape | src/pages/DriverLogin.tsx:158-159 | what trimming cuts off on either side is whitespace, and what it keeps is the middle of the input in place |
| Text.TrimPadded | src/pages/DriverLogin.tsx:158-159 | trimming whitespace padding around an unpadded core gives back exactly the core |
| Text.TrimIdempotent | src/pages/DriverLogin.tsx:158-159 | trimming twice is trimming once |
| Text.ToLower | src/pages/DriverLogin.tsx:158 | lower-casing keeps the length and maps each character separately |
| Text.Utf16Length | src/pages/Signup.tsx:76 | JavaScript length lies between the character count and twice the count |
| Text.Utf16LengthBmp | src/pages/Signup.tsx:76 | for characters in the Basic Multilingual Plane the JavaScript length is the character count |
| RouteTable.GetRouteCoordinates | src/config/routeCoordinates.ts:89-91 | a known route gives exactly its table entry, which is well formed; an unknown name gives no stops |
| RouteTable.StopsOrFallback | src/pages/DriverDashboard.tsx:1021 | the lookup with fallback always yields a well-formed route: the route's own stops, or else the fallback route's |
| RouteTable.TableWellFormed | src/config/routeCoordinates.ts:11-86 | every route has at least 4 stops, ends at the college and does not start there |
| RouteTable.KeysDistinct | src/config/routeCoordinates.ts:11-86 | route names are pairwise distinct |
| RouteTable.FallbackIsKey | src/config/routeCoordinates.ts:12 | the fallback route 'Tenali - MG Road - College' is in the table |
| RouteTable.SignupRoutesAreKeys | src/pages/Signup.tsx:41-52 | every route offered at signup (and in the admin checklist) has a table entry |
| RouteTable.SignupRoutesInTable | src/pages/Signup.tsx:41-52 | the k-th signup route is the table entry at the same position, skipping the table's 'Guntur - Mangalagiri - College', which signup does not offer |
| RouteTable.SignupRoutesDistinct | src/pages/Signup.tsx:41-52 | no route is offered twice at signup |
| DriverLogin.FirstMatch | src/pages/DriverLogin.tsx:162-164 | the index found is the first account accepting the credentials, or none accepts them |
| DriverLogin.FindFrom | src/pages/DriverLogin.tsx:162-164 | the search returns the first position from its start that passes the test, or the end when none does |
| DriverLogin.Submit | src/pages/DriverLogin.tsx:152-175 | login succeeds iff some account matches; on success the first match is stored; on failure storage is unchanged and the error is set |
| DriverLogin.EditId | src/pages/DriverLogin.tsx:144-150 | editing the id replaces only the id and clears the error |
| DriverLogin.EditPassword | src/pages/DriverLogin.tsx:144-150 | editing the password replaces only the password and clears the error |
| DriverLogin.ToLowerIdempotent | src/pages/DriverLogin.tsx:158 | lower-casing twice is lower-casing once |
| DriverLogin.AccountIdsDistinct | src/pages/DriverLogin.tsx:31-142 | account ids are pairwise distinct even ignoring case |
| DriverLogin.AccountRoutes | src/pages/DriverLogin.tsx:31-142 | account k drives the k-th signup route, so account routes are distinct and all in the route table |
| DriverLogin.AccountPasswords | src/pages/DriverLogin.tsx:31-142 | every account's password is "driver123" |
| DriverLogin.PaddedCredentialsMatch | src/pages/DriverLogin.tsx:158-163 | an account accepts its id in any case and its password, both padded with whitespace |
| DriverLogin.LoginSelectsMatching | src/pages/DriverLogin.tsx:162-170 | with ids distinct ignoring case, the account whose credentials were typed is the one logged in |
| DriverLogin.AccountTableUsable | src/pages/DriverLogin.tsx:31-142 | the built-in table has case-insensitively distinct ids and no padded password |
| DriverLogin.LoginToleratesCaseAndPadding | src/pages/DriverLogin.tsx:158-170 | padding and the case of the id do not change which account logs in |
| DriverLogin.PasswordCaseSensitive | src/pages/DriverLogin.tsx:159-174 | the right id with "Driver123" is refused and storage is unchanged |
| DriverLogin.RefusedWithoutPassword | src/pages/DriverLogin.tsx:159-174 | when no account has the typed password (after trimming), the login is refused |
| Signup.Edit | src/pages/Signup.tsx:56-63 | editing changes exactly the edited field and clears both message lines |
| Signup.Check | src/pages/Signup.tsx:71-89 | each problem is reported iff it fails and every earlier check passed; no problem iff all four checks pass |
| Signup.Submit | src/pages/Signup.tsx:65-136 | a failing check shows its message and sends nothing; otherwise a request is sent; acceptance empties the form and shows success; refusal or no connection keeps the form and shows the server's message (or the fallback when it is empty) or the connection error |
| Signup.MismatchBeforeLength | src/pages/Signup.tsx:71-79 | mismatched short passwords report the mismatch |
| Signup.LengthBoundary | src/pages/Signup.tsx:76 | 6 matching characters pass the length check, 5 fail, 3 astral characters pass |
| Signup.SubmitSendsOnlyValidForms | src/pages/Signup.tsx:94-108 | a request is sent iff every check passes, carrying the typed fields without the confirmation |
| Signup.ResetOnSuccess | src/pages/Signup.tsx:112-124 | after acceptance every field is empty |
| Payment.Prefix | src/pages/StudentDashboard.tsx:1648 | `slice(0, n)` is the prefix of length min(n, length) |
| Payment.Group4 | src/pages/StudentDashboard.tsx:1649 | grouping adds one separator per full group of four: length |s| + (|s|-1)/4 |
| Payment.Group4Shape | src/pages/StudentDashboard.tsx:1649 | position i of the grouped string is a separator iff i % 5 == 4, and otherwise is input character i - i/5 |
| Payment.Group4RemoveSpaces | src/pages/StudentDashboard.tsx:1649 | removing the separators from a grouped space-free string gives the input back |
| Payment.Group4Facts | src/pages/StudentDashboard.tsx:1649 | separators are exactly every fifth position, never trailing, and removing them restores the input |
| Payment.PrefixNoSpaces | src/pages/StudentDashboard.tsx:1647-1648 | cutting a whitespace-free string keeps it whitespace-free |
| Payment.FormatCardNumber | src/pages/StudentDashboard.tsx:1645-1650 | without its spaces the output is the first 16 non-space input characters; at most 19 long; spaces exactly at every fifth position and no other whitespace anywhere; no trailing space |
| Payment.FormatCardNumberIdempotent | src/pages/StudentDashboard.tsx:1645-1650 | formatting a formatted number changes nothing |
| Payment.FormatExpiry | src/pages/StudentDashboard.tsx:1676-1682 | the output is at most 5 long, digits everywhere but index 2, a '/' at index 2 when longer than 2, and its digits are the first four typed; from two typed digits on the slash is always there, and with fewer the digits are returned as they are |
| Payment.FormatExpiryIdempotent | src/pages/StudentDashboard.tsx:1676-1682 | formatting a formatted expiry changes nothing |
| Payment.UpdateCvv | src/pages/StudentDashboard.tsx:1693-1698 | the CVV stays at most four digits; more than four typed digits keep the previous value |
| Payment.CvvAlwaysDigits | src/pages/StudentDashboard.tsx:1693-1698 | after any sequence of edits from empty, the CVV is at most four digits |
| Payment.DigitsInBmp | src/pages/StudentDashboard.tsx:1201 | for an all-digit string the JavaScript length is the character count |
| Payment.ValidateCard | src/pages/StudentDashboard.tsx:1192-1236 | each error is reported iff its check fails after all earlier ones pass; acceptance iff all pass, recording the last 4 digits of the cleaned number |
| Payment.CheckAmount | src/pages/StudentDashboard.tsx:1033-1045 | an amount is invalid iff unparsable or at most 0; it exceeds the balance iff positive and above feeDue - amountPaid, quoting that balance; it is accepted otherwise |
| Payment.StartPayment | src/pages/StudentDashboard.tsx:1033-1186 | a payment button goes ahead iff 0 < amount <= feeDue - amountPaid |
| Payment.GuardIdentical | src/pages/StudentDashboard.tsx:1036-1186 | all three entry points (guards at 1036-1045, 1094-1103 and 1177-1186) accept the same amounts and refuse the rest with the same verdict |
| Payment.BalanceBoundary | src/pages/StudentDashboard.tsx:1041-1042 | paying exactly the balance is accepted; one more is refused with that balance |
| Payment.FormattedCardAccepted | src/pages/StudentDashboard.tsx:1645-1698 | fields produced by the dialog's own formatters pass the validation of lines 1192-1216 once enough digits were typed, with the 13th-16th number digits recorded |
| StudentView.Classify | src/pages/StudentDashboard.tsx:140-145 | success iff type success; emergency iff not success and (high priority or urgent); warning iff type warning and not high; announcement otherwise |
| StudentView.SuccessBeatsHighPriority | src/pages/StudentDashboard.tsx:141-142 | a high-priority success is a success; a high-priority warning is an emergency |
| StudentView.Visible | src/pages/StudentDashboard.tsx:215 | the summary shows the first min(2, n) notifications, the full list all of them |
| StudentView.OrString | src/pages/StudentDashboard.tsx:1924-1925 | `x || d` on a string: the value unless absent or empty |
| StudentView.OrInt | src/pages/StudentDashboard.tsx:1933 | `x || d` on a number: the value unless absent or zero |
| StudentView.OrNullString | src/pages/StudentDashboard.tsx:1926 | `x || null`: absent exactly when missing or empty |
| StudentView.OrNullInt | src/pages/StudentDashboard.tsx:1927 | `x || null` on a number: absent exactly when missing or zero |
| StudentView.Load | src/pages/StudentDashboard.tsx:1919-1938 | the loaded student is registered; route, fee, status, amount paid and pickup point and id are the stored values when truthy, else 'Route not assigned', 35000, 'Pending', 0 and none; hasPaid holds iff the stored status is 'Paid' |
| StudentView.HasPaidMatchesStatus | src/pages/StudentDashboard.tsx:1934-1938 | on a loaded student, hasPaid holds iff the displayed status is 'Paid' |
| StudentView.RenderContent | src/pages/StudentDashboard.tsx:2047-2073 | registration prompt iff unregistered away from home/route; payment prompt iff a paid-only tab without payment; otherwise home shows the summary, route the route details, fees the fee view, live tracking and notifications their views, and an unknown tab the summary; paid-only views need hasPaid |
| StudentView.LoadedStudentGates | src/pages/StudentDashboard.tsx:2047-2058 | a loaded student never sees the registration prompt; paid-only tabs are blocked iff the stored status is not 'Paid' |
| StudentView.PickupUpdate | src/pages/StudentDashboard.tsx:1970-1986 | the dashboard student and the stored record, when present, take the new pickup; nothing else changes |
| StudentView.PickupSurvivesReload | src/pages/StudentDashboard.tsx:1970-2014 | reloading after an update keeps the new pickup and changes nothing else |
| StudentView.EmptyPickupLostOnReload | src/pages/StudentDashboard.tsx:1970-2002 | an empty pickup name shows until the next reload, which reads it as none |
| Attendance.StatusOf | src/pages/DriverDashboard.tsx:1518-1532 | a student's status is the recorded one, or 'Waiting' |
| Attendance.SlotsSize | src/pages/DriverDashboard.tsx:1510-1522 | the grouped part has as many entries as the groups have students |
| Attendance.Flatten | src/pages/DriverDashboard.tsx:1506-1535 | the list has sum-of-groups + without-pickup entries, ids 1..n in order, statuses from the record defaulting to 'Waiting', and each student without a pickup, after the grouped ones and in order, with its own name, regNo, phone and fee status and 'Not Selected'/'N/A' |
| Attendance.SlotsIndex | src/pages/DriverDashboard.tsx:1508-1521 | student k of group g comes right after the students of the groups before g, with g's pickup point and timing |
| Attendance.FlattenGrouped | src/pages/DriverDashboard.tsx:1508-1521 | the row for student k of group g holds that student's name, regNo, phone and fee status and the group's pickup point and timing |
| Attendance.FlattenStudents | src/pages/DriverDashboard.tsx:1506-1535 | the nested loop with its running id builds exactly that list |
| Attendance.Count | src/pages/DriverDashboard.tsx:1540-1541 | a status count is positive iff some row has that status |
| Attendance.CountAppend | src/pages/DriverDashboard.tsx:1540-1541 | counts add over concatenation |
| Attendance.CountsPartition | src/pages/DriverDashboard.tsx:439-442 | the Waiting, Boarded and Absent counts add up to the list length |
| Attendance.FilterRows | src/pages/DriverDashboard.tsx:410-412 | 'All' is the whole list; a status gives exactly the rows with that status |
| Attendance.FilterAppend | src/pages/DriverDashboard.tsx:410-412 | filtering keeps the order: it distributes over concatenation |
| Attendance.ChipCountIsFilterSize | src/pages/DriverDashboard.tsx:442 | a chip's number is the length of the list that chip shows |
| Attendance.TripAfterFetch | src/pages/DriverDashboard.tsx:1540-1547 | after a fetch the trip is 'In Progress' iff someone boarded; present and absent are the Boarded and Absent list sizes |
| Attendance.FindId | src/pages/DriverDashboard.tsx:1737 | `find` gives the first row with the id, or none when no row has it |
| Attendance.SetStatus | src/pages/DriverDashboard.tsx:1746-1748 | rows with the id take the new status; all other rows are unchanged |
| Attendance.CountMarked | src/pages/DriverDashboard.tsx:1751-1752 | the recount is bounded by the list length |
| Attendance.MarkAttendance | src/pages/DriverDashboard.tsx:1735-1753 | an unknown id changes nothing; otherwise the record changes at the student's regNo, only that student's row changes, and the phase is kept |
| Attendance.MarkTouchesOneKey | src/pages/DriverDashboard.tsx:1455-1461 | every other key of the attendance record is unchanged |
| Attendance.CountMarkedAppend | src/pages/DriverDashboard.tsx:1751-1752 | the as-written recount adds over concatenation |
| Attendance.CountMarkedOthers | src/pages/DriverDashboard.tsx:1751-1752 | rows without the marked id count the same in the recount |
| Attendance.SetStatusAppend | src/pages/DriverDashboard.tsx:1746-1748 | the row update distributes over concatenation |
| Attendance.MarkCounts | src/pages/DriverDashboard.tsx:1746-1752 | with distinct ids, both the recount and the true count differ from the old count by the marked row alone |
| Attendance.MarkCountsRightExactlyWhen | src/pages/DriverDashboard.tsx:1751-1752 | with distinct ids, the counts after marking are right iff the student was Waiting or already had the new status |
| Attendance.BoardedToAbsentDoubleCounts | src/pages/DriverDashboard.tsx:1751-1752 | one boarded student marked absent is counted present once and absent once |
| Attendance.MarkAttendanceCorrected | src/pages/DriverDashboard.tsx:1735-1753 | the same update with counts taken from the updated list, which always agree with it |
| Attendance.CorrectedAgreesWhenRight | src/pages/DriverDashboard.tsx:1751-1752 | where the original recount is right, the corrected update is identical to it |
| Attendance.CountsStayConsistent | src/pages/DriverDashboard.tsx:1735-1753 | the corrected update keeps the counts in agreement with the list |
| Attendance.FetchCountsMatch | src/pages/DriverDashboard.tsx:1540-1547 | a fetch leaves the counts in agreement with the list |
| Attendance.FlattenStatusOnly | src/pages/DriverDashboard.tsx:1506-1535 | fetches under two attendance records differ only in statuses |
| Attendance.MarkThenReload | src/pages/DriverDashboard.tsx:1455-1535 | with distinct regNos, fetching again after a (corrected) marking shows the same list as the in-place update |
| Trip.Track | src/pages/DriverDashboard.tsx:884-947 | switching off resets to stop 0 and 'Waiting to start...'; switching on with the map ready starts at the first stop with the interval running |
| Trip.Tick | src/pages/DriverDashboard.tsx:984-998 | a tick moves one stop forward, or at the last stop stops the interval and announces the arrival; the stop index never passes the last stop |
| Trip.Ticks | src/pages/DriverDashboard.tsx:984-998 | any number of ticks keeps the panel's invariant |
| Trip.Progress | src/pages/DriverDashboard.tsx:945-998 | after n ticks the bus is at stop min(n, stops-1), and the interval runs iff n < number of stops |
| Trip.StopStatus | src/pages/DriverDashboard.tsx:1023-1028 | completed iff started and before the current stop; current iff started and at it; pending iff not started or after it |
| Trip.Timeline | src/pages/DriverDashboard.tsx:1023-1028 | at most one stop is current, and exactly min(current, n) are completed once started (none before) |
| Trip.StatusChange | src/pages/DriverDashboard.tsx:1797-1804 | after a status change, active iff the status is 'In Progress' |
| Trip.ActiveChange | src/pages/DriverDashboard.tsx:1806-1813 | after an active change the flag is as set and the status is 'In Progress' iff active, otherwise 'Completed' |
| Trip.StartTrip | src/pages/DriverDashboard.tsx:1791-1795 | starting the trip makes it active and 'In Progress' |
| Trip.ToggleSwitch | src/pages/DriverDashboard.tsx:1013-1066 | the switch flips the trip, keeps active iff 'In Progress', and on start shows "Near" the route's (or the fallback's) first stop |
| Trip.ToggleThenTrack | src/pages/DriverDashboard.tsx:884-1066 | the tracking effect after a toggle completes the panel: switching off ends idle, switching on with the map ready starts at the first stop, and the panel invariant holds again |
| Trip.FetchCanDecouple | src/pages/DriverDashboard.tsx:1540-1547 | a fetch with a boarded student reports an inactive trip as 'In Progress' |
| Trip.CountUnread | src/pages/DriverDashboard.tsx:1435-1438 | counts the notices whose `id` is missing or not viewed; never more than the list; zero iff none is unread |
| Trip.ViewKey | src/pages/DriverDashboard.tsx:1728 | the stored key is `_id` when truthy, else `id` when truthy, else none |
| Trip.Keys | src/pages/DriverDashboard.tsx:1728 | the keys collected are exactly the truthy keys of the notifications |
| Trip.MarkViewed | src/pages/DriverDashboard.tsx:1429-1433 | the viewed set only grows, by exactly the notifications' keys |
| Trip.OpenTab | src/pages/DriverDashboard.tsx:1620-1733 | moving to the notifications tab marks the listed notifications viewed when there are any; the badge is zeroed iff the list is not empty or the driver has a route (or it was already zero); any other tab leaves the badge alone |
| Trip.ClearedAfterFailedFetch | src/pages/DriverDashboard.tsx:1620-1721 | after a failed fetch emptied the list, opening the tab with a route clears the badge, and without a route leaves it |
| Trip.BadgeReturnsAfterRefetch | src/pages/DriverDashboard.tsx:1620-1713 | opening the tab clears the badge, and the refetch of the page's id-less notifications sets it straight back to their number |
| Trip.Refresh | src/pages/DriverDashboard.tsx:1708-1713 | the next fetch recounts against the viewed set |
| Trip.ViewedByIdStayRead | src/pages/DriverDashboard.tsx:1429-1438 | notifications carrying only `id` stay read after the tab is opened |
| Trip.UnidentifiedAlwaysUnread | src/pages/DriverDashboard.tsx:1676-1701 | the notifications the page builds carry no `id`, so all of them count as unread after every fetch |
| Trip.ViewedByUnderscoreIdComesBack | src/pages/DriverDashboard.tsx:1429-1438 | a notification with only `_id` is stored as viewed (key taken at line 1728) yet counted unread again |
| Trip.CountUnreadByKey | src/pages/DriverDashboard.tsx:1435-1438 | counted by the stored key, zero iff every notification's key is viewed |
| Trip.ViewedStayReadByKey | src/pages/DriverDashboard.tsx:1429-1438 | with the key-based count every identified notification stays read after viewing |
| Trip.ByKeyAgreesWithoutUnderscoreId | src/pages/DriverDashboard.tsx:1435-1438 | the two counts agree on notifications without `_id` |
| Admin.PaidOrZero | src/pages/AdminDashboard.tsx:121 | a missing amount counts as 0 |
| Admin.StatusCount | src/pages/AdminDashboard.tsx:118-120 | a status count never exceeds the number of students |
| Admin.StatsBounded | src/pages/AdminDashboard.tsx:118-120 | paid-in-full + partially-paid + pending <= number of students |
| Admin.CollectedNonNegative | src/pages/AdminDashboard.tsx:121 | with no negative payment the total collected is non-negative |
| Admin.StatsAdditive | src/pages/AdminDashboard.tsx:118-121 | the statistics of a concatenation are the sums of the parts' statistics |
| Admin.ComputeStats | src/pages/AdminDashboard.tsx:118-121 | an alternative one-pass formulation (the page uses three filters and a sum) computes exactly the same three counts and total |
| Admin.Balance | src/pages/AdminDashboard.tsx:1248 | shown as CLEARED (line 1284) iff both numbers present and equal; otherwise the non-zero difference, or NaN when one is missing |
| Admin.Rank | src/pages/AdminDashboard.tsx:808-865 | the four known issue statuses rank 0..3 |
| Admin.NextAction | src/pages/AdminDashboard.tsx:808-865 | an action is offered iff the status is pending, in-progress or resolved, and it moves exactly one rank forward |
| Admin.ForwardOnly | src/pages/AdminDashboard.tsx:808-865 | pressing the offered buttons never lowers the rank, reaches min(rank + n, 3), and leaves no action after three presses |
| Admin.Validate | src/pages/AdminDashboard.tsx:286-294 | rejected iff title or message empty, or route-specific with no route; accepted otherwise |
| Admin.FanOut | src/pages/AdminDashboard.tsx:299-326 | route-specific: one request per selected route carrying that route; otherwise a single request without a route |
| Admin.Send | src/pages/AdminDashboard.tsx:285-350 | an invalid form sends nothing and is kept; a valid one sends the fan-out and is reset unless a request threw; the feedback is the route count for a route-specific send, success or the server's own message for a single request, and the failure message when a request threw |
| Admin.FanOutCoversRoutes | src/pages/AdminDashboard.tsx:299-313 | one request per selected route, the i-th to the i-th route, so each route is reached as often as it is selected; some request targets a route iff it is selected |
| Admin.ResetIsInitial | src/pages/AdminDashboard.tsx:336-343 | after sending, the form holds the initial defaults and would itself fail validation |
| Admin.RemoveRoute | src/pages/AdminDashboard.tsx:1007 | unchecking removes every copy of the route and keeps the others |
| Admin.RemoveRouteAppend | src/pages/AdminDashboard.tsx:1007 | the removal keeps order: it distributes over concatenation |
| Admin.RemoveAbsentRoute | src/pages/AdminDashboard.tsx:1007 | removing an unselected route changes nothing |
| Admin.ToggleRoute | src/pages/AdminDashboard.tsx:998-1009 | checking appends the route; unchecking removes it in order; nothing else changes |
| Admin.CheckThenUncheck | src/pages/AdminDashboard.tsx:998-1009 | checking then unchecking an unselected route restores the selection |
| Admin.ChecklistKeepsDistinct | src/pages/AdminDashboard.tsx:996-1009 | since a box is checked iff its route is selected, the selection never holds a route twice |
| Admin.RemoveRouteDistinct | src/pages/AdminDashboard.tsx:1007 | removal keeps a duplicate-free selection duplicate-free |
| Admin.ChangeAudience | src/pages/AdminDashboard.tsx:950 | changing the audience clears the routes and keeps the text fields |
| Admin.ChecklistRoutesAreKeys | src/pages/AdminDashboard.tsx:981-992 | every checklist route is in the route table |
| Admin.ToggleStudents | src/pages/AdminDashboard.tsx:204-209 | the toggle flips visibility and fetches iff the list was hidden |
| Admin.ShowThenHide | src/pages/AdminDashboard.tsx:204-209 | showing then hiding fetches once and ends hidden |

## Left out

- Every request to the back end, with its JSON bodies and its replies beyond success, message or failure. Replies are parameters (`Signup.Reply`, `Admin.Outcome`).
- Browser-storage serialisation. Stored values are plain Dafny values.
- Rendering, styling, navigation and every timer. The tick is a discrete step (`Trip.Tick`). The signup redirect after 3 seconds, location updates, the attendance clean-up by date, and dates and locale formatting are also left out.
- The maps loader and all map, marker and direction code. Coordinates are left out; a stop is its name.
- The admin login page, the generic student login page, the landing page and the application's route list. They are a hard-coded comparison, a request, or static content.
- Admin.Balance, Admin.PaidOrZero: amounts are integers, and a missing value is an absent field, never JSON null. The page's arithmetic treats null as 0 in `feeDue - amountPaid`, while an absent field gives NaN; the null case and fractional amounts (which `parseFloat` lets through on the payment side) with their floating-point sums are not modelled. The same holds for `Admin.Stats`, `Admin.StatusCount` and `Admin.ComputeStats`.
- Signup.Submit: the browser's own check of the `type="email"` field, which blocks submission of a non-empty malformed address before the submit handler runs, is not modelled. The model sends whatever email was typed once the four checks pass.
- Payment.CheckAmount: amounts are integers. `parseFloat` is abstracted to an optional integer, with "does not parse" as `None`. Fractional amounts and floating-point rounding are not modelled.
- The percentage paid and the attendance rate, which are computed in floating point.
- Text.ToLower: only 'A'–'Z' and the Kelvin sign are lower-cased. That is exact for comparisons against the all-ASCII account ids, but other characters' case mappings are not modelled.
- Payment.FormatCardNumber: characters outside the Basic Multilingual Plane are treated as one character. The page's `slice` and `.{1,4}` count UTF-16 code units.
- The browser's `maxLength` limits on the card fields.
- The card holder's upper-casing.
- The UPI link and the card transaction id, which use the clock and randomness.
- The student dashboard's `handleRegistration` mock. It only sets a display status and switches tab.
- The display-only parts of the driver profile: the bus number default, the upper-cased driver id and the `stopPoints || 4` stop chip.
  - The chip's numbers are not derived from the route table and do not match its stop counts.
  - Account 1's route has 4 stops but the account says 3.
- The driver dashboard's conversion of issues into notifications (titles and texts). Only the fact that the result has no identifier is modelled.
- Route-table lookups with names such as `constructor`, which an object lookup in JavaScript would resolve through the prototype. Every name the pages use is a plain key.
- Attendance statuses other than Waiting, Boarded and Absent in the stored record. The page writes only Boarded and Absent.
- Trip.OpenTab: models a change of the active tab. The bell clicked while the notifications tab is already open does not re-run the tab effect, so with an empty list it leaves the badge; that case is not modelled.
- Trip phases other than 'Not Started', 'In Progress' and 'Completed'. No other status is ever passed.

## Findings

| source | as written | input that shows it | evidently intended | confidence | as-written member | corrected member |
|---|---|---|---|---|---|---|
| src/pages/DriverDashboard.tsx:1751-1752 | present and absent counts after marking are recomputed from the list before the update, adding the marked student for the new status | one student, Boarded, marked Absent: present 1, absent 1 | counts of the updated list: present 0, absent 1 | high (not executed) | Attendance.MarkAttendance, Attendance.BoardedToAbsentDoubleCounts, Attendance.MarkCountsRightExactlyWhen | Attendance.MarkAttendanceCorrected, Attendance.CountsStayConsistent |
| src/pages/DriverDashboard.tsx:1435-1438 | the unread count looks up `notif.id`, viewing stores `n._id \|\| n.id` (line 1728), and the notifications the page builds (lines 1676-1681 and 1697-1702) carry neither, so nothing is ever recorded for them | any fetch of one or more notifications: opening the tab clears the badge, and the refetch sets it back to the number fetched; a notification with only `_id` (which this page does not build) would be stored as viewed and still counted unread | the notifications keep the server's identifier, and the count uses the key that viewing stores, so viewed notifications stay read | medium (not executed) | Trip.CountUnread, Trip.BadgeReturnsAfterRefetch, Trip.UnidentifiedAlwaysUnread, Trip.ViewedByUnderscoreIdComesBack | Trip.CountUnreadByKey, Trip.ViewedStayReadByKey |

/**
 * The driver's trip: the simulated progression of the bus along its route's stops, the
 * status each stop shows on the timeline, the coupling between the trip's active flag
 * and its status, and the unread count of the driver's notifications.
 */
module Trip {
  import opened Options
  import opened Attendance
  import RouteTable

  // ---------------------------------------------------------------------------------
  // Stop progression

  const WaitingText: string := "Waiting to start..."
  const ArrivedText: string := "Arrived at Vignan's Foundation for Science, Technology & Research, Vadlamudi"

  /** The tracking panel: whether the trip switch is on, the current stop's index, the
      location line, and whether the per-stop interval is running. */
  datatype Tracker = Tracker(started: bool, index: nat, location: string, moving: bool)

  const Idle: Tracker := Tracker(false, 0, WaitingText, false)

  /** What the tracking panel keeps true between events. */
  predicate Good(t: Tracker, stops: seq<string>) {
    && (t.index < |stops| || t.index == 0)
    && (t.moving ==> t.started && t.index < |stops| && t.location == stops[t.index])
  }

  /** The tracking effect, run whenever the switch or the route changes: with the switch
      off it resets the panel; with it on and the map ready it puts the bus at the first
      stop and starts the interval (an empty route leaves things as they are). */
  function Track(t: Tracker, stops: seq<string>, mapReady: bool): (r: Tracker)
    ensures !t.started ==> r == Idle
    ensures t.started && mapReady && stops != [] ==> r == Tracker(true, 0, stops[0], true)
    ensures Good(t, stops) ==> Good(r, stops)
  {
    if !t.started then Idle
    else if !mapReady || stops == [] then t
    else Tracker(true, 0, stops[0], true)
  }

  /** One interval tick: move to the next stop, or at the last stop stop the interval
      and announce the arrival. */
  function Tick(t: Tracker, stops: seq<string>): (r: Tracker)
    requires Good(t, stops)
    ensures Good(r, stops)
    ensures r.started == t.started
    ensures t.moving && t.index + 1 < |stops| ==> r.index == t.index + 1 && r.moving
    ensures t.moving && t.index + 1 >= |stops| ==> r.index == t.index && !r.moving && r.location == ArrivedText
    ensures !t.moving ==> r == t
  {
    if !t.moving then t
    else if t.index < |stops| - 1 then t.(index := t.index + 1, location := stops[t.index + 1])
    else t.(moving := false, location := ArrivedText)
  }

  function Ticks(t: Tracker, stops: seq<string>, n: nat): (r: Tracker)
    requires Good(t, stops)
    ensures Good(r, stops)
  {
    if n == 0 then t else Tick(Ticks(t, stops, n - 1), stops)
  }

  /** After the trip starts and `n` ticks pass, the bus is at stop `min(n, |stops| - 1)`,
      and the interval is still running exactly while `n < |stops|`: one tick per stop,
      then one more that finds the last stop and stops. */
  lemma {:induction false} Progress(stops: seq<string>, n: nat)
    requires stops != []
    ensures var t := Ticks(Tracker(true, 0, stops[0], true), stops, n);
      && t.index == (if n < |stops| - 1 then n else |stops| - 1)
      && (t.moving <==> n < |stops|)
      && (!t.moving ==> t.location == ArrivedText)
  {
    if n > 0 {
      Progress(stops, n - 1);
    }
  }

  datatype StopState = Passed | AtStop | Ahead

  /** `getStopStatus(index)`: 'completed' (`Passed`), 'current' (`AtStop`) or
      'pending' (`Ahead`). */
  function StopStatus(started: bool, current: nat, index: nat): (r: StopState)
    ensures r == Passed <==> started && index < current
    ensures r == AtStop <==> started && index == current
    ensures r == Ahead <==> !started || index > current
  {
    if !started then Ahead
    else if index < current then Passed
    else if index == current then AtStop
    else Ahead
  }

  /** The number of completed stops among the first `n` of the timeline. */
  function PassedCount(started: bool, current: nat, n: nat): nat
  {
    if n == 0 then 0
    else PassedCount(started, current, n - 1) + (if StopStatus(started, current, n - 1) == Passed then 1 else 0)
  }

  /** The timeline: no stop is current or completed before the trip starts; once it has,
      only the bus's stop is current and exactly the stops before it are completed. */
  lemma {:induction false} Timeline(started: bool, current: nat, n: nat)
    ensures forall i :: 0 <= i < n && StopStatus(started, current, i) == AtStop ==> i == current
    ensures PassedCount(started, current, n) == if !started then 0 else if current < n then current else n
  {
    if n > 0 {
      Timeline(started, current, n - 1);
    }
  }

  // ---------------------------------------------------------------------------------
  // Trip flags

  /** The dashboard's two views of the trip: the active flag and the summary's phase. */
  datatype Flags = Flags(active: bool, phase: TripPhase)

  predicate Coupled(f: Flags) {
    f.active <==> f.phase == InProgress
  }

  /** `handleTripStatusChange(status)` */
  function StatusChange(f: Flags, phase: TripPhase): (r: Flags)
    ensures r.phase == phase
    ensures Coupled(r)
  {
    match phase
    case InProgress => Flags(true, phase)
    case Completed => Flags(false, phase)
    case NotStarted => Flags(false, phase)
  }

  /** `handleTripActiveChange(active)` */
  function ActiveChange(f: Flags, active: bool): (r: Flags)
    ensures r.active == active
    ensures Coupled(r)
    ensures !active ==> r.phase == Completed
  {
    Flags(active, if active then InProgress else Completed)
  }

  /** The dashboard's own `handleStartTrip`. */
  function StartTrip(f: Flags): (r: Flags)
    ensures r.active && r.phase == InProgress
  {
    Flags(true, InProgress)
  }

  /** The trip switch on the tracking tab: turning it off reports the trip inactive and
      completed; turning it on reports it active and in progress and shows the bus near
      the first stop of the route (or of the fallback route). */
  function ToggleSwitch(t: Tracker, f: Flags, route: string): (r: (Tracker, Flags))
    ensures r.0.started == !t.started
    ensures r.1.active == r.0.started
    ensures Coupled(r.1)
    ensures !t.started ==> r.0.location == "Near " + RouteTable.StopsOrFallback(route)[0]
    ensures t.started ==> r.1.phase == Completed
  {
    if t.started then
      (t.(started := false), StatusChange(ActiveChange(f, false), Completed))
    else
      var stops := RouteTable.StopsOrFallback(route);
      (t.(started := true, location := "Near " + stops[0]), StatusChange(ActiveChange(f, true), InProgress))
  }

  /** The switch alone leaves the panel half-updated (switching off keeps the stop index
      and the interval flag); the tracking effect that follows completes it: off gives the
      idle panel, and on, with the map ready, starts the bus at the route's first stop. */
  lemma ToggleThenTrack(t: Tracker, f: Flags, route: string, mapReady: bool)
    ensures var stops := RouteTable.StopsOrFallback(route);
      var next := Track(ToggleSwitch(t, f, route).0, stops, mapReady);
      && (t.started ==> next == Idle)
      && (!t.started && mapReady ==> next == Tracker(true, 0, stops[0], true))
      && (t.started || mapReady ==> Good(next, stops))
  {
  }

  /** The summary a fetch computes replaces the phase but not the active flag, so a
      fetch can leave an inactive trip reported as in progress. */
  lemma FetchCanDecouple(row: Row)
    requires row.status == Boarded
    ensures var f := Flags(false, TripAfterFetch([row]).phase);
      !Coupled(f)
  {
  }

  // ---------------------------------------------------------------------------------
  // Unread notifications

  /** A driver notification as far as the unread count reads it: its two possible
      identifiers, either of which may be missing. */
  datatype Notice = Notice(underscoreId: Option<string>, id: Option<string>, title: string)

  /** `!viewed.has(notif.id)`: a notice without an `id` is never in the viewed set. */
  predicate UnreadById(n: Notice, viewed: set<string>) {
    n.id == None || n.id.value !in viewed
  }

  /** `countUnreadNotifications` as written: the notices whose `id` has not been viewed. */
  function CountUnread(ns: seq<Notice>, viewed: set<string>): (c: nat)
    ensures c <= |ns|
    ensures c == 0 <==> forall i :: 0 <= i < |ns| ==> !UnreadById(ns[i], viewed)
  {
    if ns == [] then 0
    else (if UnreadById(ns[0], viewed) then 1 else 0) + CountUnread(ns[1..], viewed)
  }

  /** `n._id || n.id`, dropping falsy results: the key a viewed notice is stored under. */
  function ViewKey(n: Notice): (k: Option<string>)
    ensures k.Some? ==> k.value != ""
    ensures n.underscoreId.Some? && n.underscoreId.value != "" ==> k == n.underscoreId
    ensures k == None <==> (n.underscoreId == None || n.underscoreId == Some("")) && (n.id == None || n.id == Some(""))
  {
    if n.underscoreId.Some? && n.underscoreId.value != "" then n.underscoreId
    else if n.id.Some? && n.id.value != "" then n.id
    else None
  }

  function Keys(ns: seq<Notice>): (ks: set<string>)
    ensures forall i :: 0 <= i < |ns| && ViewKey(ns[i]).Some? ==> ViewKey(ns[i]).value in ks
    ensures forall k :: k in ks ==> exists i :: 0 <= i < |ns| && ViewKey(ns[i]) == Some(k)
  {
    if ns == [] then {}
    else
      var rest := Keys(ns[1..]);
      assert forall k :: k in rest ==> exists i :: 1 <= i < |ns| && ViewKey(ns[i]) == Some(k) by {
        forall k | k in rest ensures exists i :: 1 <= i < |ns| && ViewKey(ns[i]) == Some(k) {
          var j :| 0 <= j < |ns[1..]| && ViewKey(ns[1..][j]) == Some(k);
          assert ns[j + 1] == ns[1..][j];
        }
      }
      (if ViewKey(ns[0]).Some? then {ViewKey(ns[0]).value} else {}) + rest
  }

  /** `markNotificationsAsViewed`: the viewed set gains the keys of the given notices
      and loses nothing. */
  function MarkViewed(viewed: set<string>, ns: seq<Notice>): (r: set<string>)
    ensures viewed <= r
    ensures forall i :: 0 <= i < |ns| && ViewKey(ns[i]).Some? ==> ViewKey(ns[i]).value in r
    ensures forall k :: k in r && k !in viewed ==> exists i :: 0 <= i < |ns| && ViewKey(ns[i]) == Some(k)
  {
    viewed + Keys(ns)
  }

  /** The badge state: the viewed set and the unread count shown. */
  datatype Badge = Badge(viewed: set<string>, unread: nat)

  /** A change of the active tab, by the tab bar or by the bell icon. Moving to the
      notifications tab marks every notice in the current list viewed and clears the
      badge when the list is not empty (the two handlers); independently, the effect
      that watches the active tab clears the badge and starts a refetch whenever the
      driver has a route, whatever the list holds. Any other tab leaves the badge alone. */
  function OpenTab(b: Badge, notificationsTab: bool, hasRoute: bool, ns: seq<Notice>): (r: Badge)
    ensures b.viewed <= r.viewed
    ensures notificationsTab && ns != [] ==> r.viewed == MarkViewed(b.viewed, ns)
    ensures !(notificationsTab && ns != []) ==> r.viewed == b.viewed
    ensures r.unread == 0 <==> (notificationsTab && (ns != [] || hasRoute)) || b.unread == 0
    ensures !(notificationsTab && (ns != [] || hasRoute)) ==> r.unread == b.unread
  {
    var viewed := if notificationsTab && ns != [] then MarkViewed(b.viewed, ns) else b.viewed;
    var unread := if notificationsTab && (ns != [] || hasRoute) then 0 else b.unread;
    Badge(viewed, unread)
  }

  /** A failed fetch empties the list but keeps the badge; opening the notifications tab
      with a route still clears it, and a refetch that fails again leaves it cleared. */
  lemma ClearedAfterFailedFetch(viewed: set<string>, unread: nat)
    ensures OpenTab(Badge(viewed, unread), true, true, []) == Badge(viewed, 0)
    ensures OpenTab(Badge(viewed, unread), true, false, []) == Badge(viewed, unread)
  {
  }

  /** The recount after the next fetch. */
  function Refresh(b: Badge, ns: seq<Notice>): (r: Badge)
    ensures r.viewed == b.viewed && r.unread == CountUnread(ns, b.viewed)
  {
    Badge(b.viewed, CountUnread(ns, b.viewed))
  }

  /** Notices identified by `id` alone are all read once the tab has been opened. */
  lemma ViewedByIdStayRead(b: Badge, hasRoute: bool, ns: seq<Notice>)
    requires ns != []
    requires forall i :: 0 <= i < |ns| ==> ns[i].underscoreId == None && ns[i].id.Some? && ns[i].id.value != ""
    ensures Refresh(OpenTab(b, true, hasRoute, ns), ns).unread == 0
  {
  }

  /** The notices the dashboard builds carry no identifier: opening the tab clears the
      badge, but the refetch the effect starts puts it straight back to the number of
      notices fetched. */
  lemma {:induction false} BadgeReturnsAfterRefetch(b: Badge, ns: seq<Notice>, fetched: seq<Notice>)
    requires forall i :: 0 <= i < |fetched| ==> fetched[i].id == None
    ensures OpenTab(b, true, true, ns).unread == 0
    ensures Refresh(OpenTab(b, true, true, ns), fetched).unread == |fetched|
  {
    UnidentifiedAlwaysUnread(fetched, OpenTab(b, true, true, ns).viewed);
  }

  /** The notices the dashboard builds from issues and admin messages carry no
      identifier at all, so every one of them counts as unread after every fetch,
      whatever has been viewed. */
  lemma {:induction false} UnidentifiedAlwaysUnread(ns: seq<Notice>, viewed: set<string>)
    requires forall i :: 0 <= i < |ns| ==> ns[i].id == None
    ensures CountUnread(ns, viewed) == |ns|
  {
    if ns != [] {
      UnidentifiedAlwaysUnread(ns[1..], viewed);
    }
  }

  /** A notice identified by `_id` alone is stored under `_id` but counted by `id`, so it
      is unread again on the next fetch after being viewed. */
  lemma ViewedByUnderscoreIdComesBack(b: Badge, hasRoute: bool)
    ensures var ns := [Notice(Some("n1"), None, "Route change")];
      && "n1" in OpenTab(b, true, hasRoute, ns).viewed
      && Refresh(OpenTab(b, true, hasRoute, ns), ns).unread == 1
  {
  }

  /** The count keyed the way viewed notices are stored. */
  predicate UnreadByKey(n: Notice, viewed: set<string>) {
    ViewKey(n) == None || ViewKey(n).value !in viewed
  }

  function CountUnreadByKey(ns: seq<Notice>, viewed: set<string>): (c: nat)
    ensures c <= |ns|
    ensures c == 0 <==> forall i :: 0 <= i < |ns| ==> !UnreadByKey(ns[i], viewed)
  {
    if ns == [] then 0
    else (if UnreadByKey(ns[0], viewed) then 1 else 0) + CountUnreadByKey(ns[1..], viewed)
  }

  /** With the corrected count, every notice that has either identifier stays read after
      the tab has been opened. */
  lemma ViewedStayReadByKey(b: Badge, hasRoute: bool, ns: seq<Notice>)
    requires ns != []
    requires forall i :: 0 <= i < |ns| ==> ViewKey(ns[i]).Some?
    ensures CountUnreadByKey(ns, OpenTab(b, true, hasRoute, ns).viewed) == 0
  {
  }

  /** The corrected count agrees with the as-written one on notices with no `_id`. */
  lemma {:induction false} ByKeyAgreesWithoutUnderscoreId(ns: seq<Notice>, viewed: set<string>)
    requires forall i :: 0 <= i < |ns| ==> ns[i].underscoreId == None && ns[i].id != Some("")
    ensures CountUnreadByKey(ns, viewed) == CountUnread(ns, viewed)
  {
    if ns != [] {
      ByKeyAgreesWithoutUnderscoreId(ns[1..], viewed);
    }
  }
}

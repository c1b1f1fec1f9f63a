/**
 * The static route table shared by the driver and student dashboards: for every
 * route name, its stops in travelling order. Coordinates are not modelled; a stop
 * is its name.
 */
module RouteTable {

  datatype Route = Route(name: string, stops: seq<string>)

  const College: string := "Vignan's Foundation for Science, Technology & Research, Vadlamudi"

  /** The key the driver dashboard falls back to when a route has no entry. */
  const FallbackRoute: string := "Tenali - MG Road - College"

  /** The table, in the order its keys are declared. */
  const Routes: seq<Route> := [
    Route("Tenali - MG Road - College",
      ["Tenali Bus Stand", "MG Road Junction", "Kothapet", College]),
    Route("Tenali - Bus Stand - College",
      ["Tenali Bus Stand Main", "Old Bus Stand", "Kolluru Road", College]),
    Route("Guntur - Arundalpet - College",
      ["Arundalpet Bus Stop", "Lakshmipuram Junction", "Guntur Railway Station", "Kothapeta Center", College]),
    Route("Guntur - Brodipet - College",
      ["Brodipet Main Road", "Nagarampalem", "Amaravathi Road", College]),
    Route("Guntur - Pattabhipuram - College",
      ["Pattabhipuram Circle", "Vasavi College Road", "Syamala Nagar", College]),
    Route("Guntur - Mangalagiri - College",
      ["Guntur Bus Stand", "Mangalagiri", "Tadepalli Circle", College]),
    Route("Vijayawada - Benz Circle - College",
      ["Vijayawada Railway Station", "Benz Circle", "Tadepalli Junction", College]),
    Route("Vijayawada - Governorpet - College",
      ["Governorpet Center", "Eluru Road", "Gunadala", College]),
    Route("Vijayawada - Auto Nagar - College",
      ["Auto Nagar Main", "Kanuru", "Vijayawada Junction", College]),
    Route("Vijayawada - Patamata - College",
      ["Patamata Bus Stop", "Krishna Lanka", "Ibrahimpatnam Road", College]),
    Route("Tenali - Guntur - Mangalagiri - College",
      ["Tenali Bypass", "Guntur Collectorate", "Mangalagiri Town", "Mangalagiri Bus Stand", College]),
    Route("Namburu - Pedakakani - College",
      ["Namburu", "Pedakakani", "Mangalagiri Road", College])
  ]

  predicate IsKey(name: string) {
    exists i :: 0 <= i < |Routes| && Routes[i].name == name
  }

  /** A route is usable by the dashboards: at least four stops (so its first and last
      stops differ and the waypoints strictly between them are non-empty) and it ends
      at the college. */
  predicate WellFormed(stops: seq<string>) {
    |stops| >= 4 && stops[|stops| - 1] == College && stops[0] != College
  }

  /** Position of the first entry of `table` named `name`, searching from `from` on;
      |table| when there is none. */
  function IndexFrom(table: seq<Route>, name: string, from: nat): (i: nat)
    requires from <= |table|
    ensures from <= i <= |table|
    ensures i < |table| ==> table[i].name == name
    ensures forall j :: from <= j < i ==> table[j].name != name
    decreases |table| - from
  {
    if from == |table| then from
    else if table[from].name == name then from
    else IndexFrom(table, name, from + 1)
  }

  /** `getRouteCoordinates(name)`: the table's stops for a key, and no stops otherwise. */
  function GetRouteCoordinates(name: string): (stops: seq<string>)
    ensures IsKey(name) ==> WellFormed(stops) && exists i :: 0 <= i < |Routes| && Routes[i] == Route(name, stops)
    ensures !IsKey(name) ==> stops == []
  {
    var i := IndexFrom(Routes, name, 0);
    if i < |Routes| then
      TableWellFormed();
      Routes[i].stops
    else []
  }

  /** `routeCoordinates[name] || routeCoordinates[FallbackRoute]`, the lookup both
      dashboards use when they need stops for a driver's route. */
  function StopsOrFallback(name: string): (stops: seq<string>)
    ensures WellFormed(stops)
    ensures IsKey(name) ==> stops == GetRouteCoordinates(name)
    ensures !IsKey(name) ==> stops == GetRouteCoordinates(FallbackRoute)
  {
    var s := GetRouteCoordinates(name);
    if s != [] then s else (FallbackIsKey(); GetRouteCoordinates(FallbackRoute))
  }

  /** Every entry of the table is well formed. */
  lemma TableWellFormed()
    ensures forall i :: 0 <= i < |Routes| ==> WellFormed(Routes[i].stops)
  {
  }

  /** The table's keys are pairwise distinct, so the lookup is a function of the key. */
  lemma KeysDistinct()
    ensures forall i, j :: 0 <= i < j < |Routes| ==> Routes[i].name != Routes[j].name
  {
  }

  lemma FallbackIsKey()
    ensures IsKey(FallbackRoute)
  {
    assert Routes[0].name == FallbackRoute;
  }

  /** The routes offered on the signup form and in the admin route checklist. */
  const SignupRoutes: seq<string> := [
    "Tenali - MG Road - College",
    "Tenali - Bus Stand - College",
    "Guntur - Arundalpet - College",
    "Guntur - Brodipet - College",
    "Guntur - Pattabhipuram - College",
    "Vijayawada - Benz Circle - College",
    "Vijayawada - Governorpet - College",
    "Vijayawada - Auto Nagar - College",
    "Vijayawada - Patamata - College",
    "Tenali - Guntur - Mangalagiri - College"
  ]

  /** Position in the table of the k-th signup route: the table lists
      "Guntur - Mangalagiri - College" sixth, which signup does not offer. */
  function TableIndex(k: nat): nat {
    if k < 5 then k else k + 1
  }

  lemma SignupRoutesInTable()
    ensures forall k :: 0 <= k < |SignupRoutes| ==> TableIndex(k) < |Routes| && SignupRoutes[k] == Routes[TableIndex(k)].name
  {
  }

  /** Every route a student can pick at signup has an entry in the table. */
  lemma SignupRoutesAreKeys()
    ensures forall r :: r in SignupRoutes ==> IsKey(r)
  {
    SignupRoutesInTable();
    forall r | r in SignupRoutes
      ensures IsKey(r)
    {
      var k :| 0 <= k < |SignupRoutes| && SignupRoutes[k] == r;
      assert Routes[TableIndex(k)].name == r;
    }
  }

  /** No route is offered twice at signup. */
  lemma SignupRoutesDistinct()
    ensures forall i, j :: 0 <= i < j < |SignupRoutes| ==> SignupRoutes[i] != SignupRoutes[j]
  {
    SignupRoutesInTable();
    KeysDistinct();
    forall i, j | 0 <= i < j < |SignupRoutes|
      ensures SignupRoutes[i] != SignupRoutes[j]
    {
      assert TableIndex(i) < TableIndex(j);
    }
  }
}

/** `plan_optimized_route`: geocode the start, the destination and every
    house, then try the three strategies in a fixed order and keep the
    first non-empty plan. Geocoding is a parameter. */
module Routing {
  import opened Records
  import GreedyOptimizer
  import RoutesApi
  import RouteOptimizationApi

  const ALL_FAILED_MESSAGE := "All route optimization methods failed"

  /** Python's message for `houses[0]` on an empty list. */
  const NO_HOUSES_MESSAGE := "list index out of range"

  /** `geocode_address`: an address to a coordinate, or the exception it raised. */
  type Geocoder = string -> Attempt<Coord>

  /** The arguments every strategy receives. */
  datatype Request = Request(locations: seq<Location>, start: Coord, destination: Option<Coord>, startTs: int)

  /** A route-optimisation function, as `optimize_func(locations, start, destination, start_ts)`. */
  type Strategy = Request -> Attempt<seq<Stop>>

  datatype Named = Named(name: string, run: Strategy)

  /** The planner's return value, `{"route": route_plan}`. */
  datatype RoutePlan = RoutePlan(route: seq<Stop>)

  /** A strategy that raised or returned an empty plan; the loop moves on. */
  predicate Fails(s: Named, req: Request) {
    var r := s.run(req);
    r.Raised? || |r.value| == 0
  }

  /** The position of the first strategy that does not fail, if any. */
  function FirstSuccess(strategies: seq<Named>, req: Request): (w: Option<nat>)
    ensures w.Some? ==> w.value < |strategies| && !Fails(strategies[w.value], req)
    ensures w.Some? ==> forall j :: 0 <= j < w.value ==> Fails(strategies[j], req)
    ensures w.None? <==> forall j :: 0 <= j < |strategies| ==> Fails(strategies[j], req)
  {
    if |strategies| == 0 then None
    else if !Fails(strategies[0], req) then Some(0)
    else
      match FirstSuccess(strategies[1..], req)
      case None => None
      case Some(w) => Some(w + 1)
  }

  /** The `for method_name, optimize_func in optimization_methods` loop: the
      first non-empty plan is returned; an exception or an empty plan moves
      on to the next strategy; when none is left the loop raises one fixed
      message, which carries none of the strategies' own errors. */
  function TryStrategies(strategies: seq<Named>, req: Request): (r: Attempt<RoutePlan>)
    ensures r.Raised? ==> r.message == ALL_FAILED_MESSAGE
    ensures r.Ok? ==> 0 < |r.value.route|
  {
    if |strategies| == 0 then Raised(ALL_FAILED_MESSAGE)
    else
      match strategies[0].run(req)
      case Ok(plan) =>
        if |plan| > 0 then Ok(RoutePlan(plan)) else TryStrategies(strategies[1..], req)
      case Raised(_) => TryStrategies(strategies[1..], req)
  }

  /** The location record for house `i` at `coord`: window in epoch seconds,
      visit in seconds, and its position in the input. */
  function LocationFor(house: House, coord: Coord, i: nat): Location {
    Location(coord, house.startTime, house.endTime, house.durationMinutes * 60, i, house)
  }

  /** The geocoding loop from house `i` on; the first failure aborts it. */
  function BuildLocations(houses: seq<House>, geocode: Geocoder, i: nat): (r: Attempt<seq<Location>>)
    requires i <= |houses|
    decreases |houses| - i
    ensures r.Ok? <==> forall j :: i <= j < |houses| ==> geocode(houses[j].address).Ok?
    ensures r.Ok? ==> |r.value| == |houses| - i
  {
    if i == |houses| then Ok([])
    else
      match geocode(houses[i].address)
      case Raised(m) => Raised(m)
      case Ok(coord) =>
        match BuildLocations(houses, geocode, i + 1)
        case Raised(m) => Raised(m)
        case Ok(rest) => Ok([LocationFor(houses[i], coord, i)] + rest)
  }

  /** The destination to geocode: a given, non-empty address. */
  predicate HasDestination(destinationAddress: Option<string>) {
    destinationAddress.Some? && destinationAddress.value != ""
  }

  /** `plan_optimized_route` over a given strategy list: geocode the start,
      the destination when one is given, then the houses; the day starts at
      the first house's window; then the strategies in order. */
  function PlanWith(
    houses: seq<House>, startAddress: string, destinationAddress: Option<string>,
    geocode: Geocoder, strategies: seq<Named>)
    : (r: Attempt<RoutePlan>)
    ensures geocode(startAddress).Raised? ==> r == Raised(geocode(startAddress).message)
    ensures r.Ok? ==> 0 < |houses| && 0 < |r.value.route|
  {
    match geocode(startAddress)
    case Raised(m) => Raised(m)
    case Ok(start) =>
      var destination :=
        if HasDestination(destinationAddress) then
          match geocode(destinationAddress.value)
          case Raised(m) => Raised(m)
          case Ok(c) => Ok(Some(c))
        else Ok(None);
      match destination
      case Raised(m) => Raised(m)
      case Ok(dest) =>
        match BuildLocations(houses, geocode, 0)
        case Raised(m) => Raised(m)
        case Ok(locations) =>
          if |houses| == 0 then Raised(NO_HOUSES_MESSAGE)
          else TryStrategies(strategies, Request(locations, start, dest, houses[0].startTime))
  }

  /** What the three strategies need from outside: the Route Optimization
      project, token and HTTP call, the Routes HTTP call, and the distance. */
  datatype Services = Services(
    projectId: string,
    token: Option<string>,
    tourPost: RouteOptimizationApi.TourPost,
    routesCall: RoutesApi.RoutesCall,
    dist: GreedyOptimizer.Distance)

  const TOUR_NAME := "Google Route Optimization API"
  const ROUTES_NAME := "Google Routes API"
  const GREEDY_NAME := "Greedy Algorithm"

  /** `optimization_methods`, in order of preference. */
  function Methods(env: Services): (ms: seq<Named>)
    ensures |ms| == 3
    ensures ms[0].name == TOUR_NAME && ms[1].name == ROUTES_NAME && ms[2].name == GREEDY_NAME
  {
    [ Named(TOUR_NAME, (req: Request) =>
          RouteOptimizationApi.OptimizeRoute(
            req.locations, req.start, req.destination, req.startTs, env.projectId, env.token, env.tourPost)),
      Named(ROUTES_NAME, (req: Request) =>
          RoutesApi.OptimizeRoute(req.locations, req.start, req.destination, req.startTs, env.routesCall)),
      Named(GREEDY_NAME, (req: Request) =>
          GreedyOptimizer.OptimizeRoute(req.locations, req.start, req.destination, req.startTs, env.dist)) ]
  }

  /** `plan_optimized_route`: a plan, when there is one, is never empty and
      only exists when there is at least one house. */
  function PlanOptimizedRoute(
    houses: seq<House>, startAddress: string, destinationAddress: Option<string>,
    geocode: Geocoder, env: Services)
    : (r: Attempt<RoutePlan>)
    ensures geocode(startAddress).Raised? ==> r == Raised(geocode(startAddress).message)
    ensures r.Ok? ==> 0 < |houses| && 0 < |r.value.route|
  {
    PlanWith(houses, startAddress, destinationAddress, geocode, Methods(env))
  }

  // ---------------------------------------------------------------------------
  // The strategy chain.

  /** The chain returns the plan of the first strategy that does not fail,
      and raises the fixed message exactly when every strategy fails. */
  lemma {:induction false} TryStrategiesPicksFirstSuccess(strategies: seq<Named>, req: Request)
    ensures var r := TryStrategies(strategies, req);
            match FirstSuccess(strategies, req)
            case None => r == Raised(ALL_FAILED_MESSAGE)
            case Some(w) => r == Ok(RoutePlan(strategies[w].run(req).value))
  {
    if |strategies| > 0 && Fails(strategies[0], req) {
      TryStrategiesPicksFirstSuccess(strategies[1..], req);
      assert TryStrategies(strategies, req) == TryStrategies(strategies[1..], req);
    }
  }

  /** Strategies after the first success are never consulted: replacing them
      changes nothing. */
  lemma LaterStrategiesIrrelevant(strategies: seq<Named>, others: seq<Named>, req: Request, w: nat)
    requires w < |strategies| && FirstSuccess(strategies, req) == Some(w)
    ensures TryStrategies(strategies[..w + 1] + others, req) == TryStrategies(strategies, req)
  {
    var mixed := strategies[..w + 1] + others;
    assert forall j :: 0 <= j <= w ==> mixed[j] == strategies[j];
    FirstSuccessPrefix(strategies, mixed, req, w);
    TryStrategiesPicksFirstSuccess(strategies, req);
    TryStrategiesPicksFirstSuccess(mixed, req);
  }

  lemma {:induction false} FirstSuccessPrefix(a: seq<Named>, b: seq<Named>, req: Request, w: nat)
    requires w < |a| && w < |b|
    requires forall j :: 0 <= j <= w ==> a[j] == b[j]
    requires FirstSuccess(a, req) == Some(w)
    decreases w
    ensures FirstSuccess(b, req) == Some(w)
  {
    if w > 0 {
      assert Fails(a[0], req);
      FirstSuccessPrefix(a[1..], b[1..], req, w - 1);
    }
  }

  // ---------------------------------------------------------------------------
  // Geocoding.

  /** Each location is its house's record at the geocoded coordinate, with
      its input position as original index. */
  lemma {:induction false} BuildLocationsContents(houses: seq<House>, geocode: Geocoder, i: nat)
    requires i <= |houses|
    requires BuildLocations(houses, geocode, i).Ok?
    decreases |houses| - i
    ensures var r := BuildLocations(houses, geocode, i).value;
            forall k :: 0 <= k < |r| ==> r[k] == LocationFor(houses[i + k], geocode(houses[i + k].address).value, i + k)
  {
    if i < |houses| {
      BuildLocationsContents(houses, geocode, i + 1);
      var r := BuildLocations(houses, geocode, i).value;
      var rest := BuildLocations(houses, geocode, i + 1).value;
      assert r == [LocationFor(houses[i], geocode(houses[i].address).value, i)] + rest;
      forall k | 1 <= k < |r|
        ensures r[k] == LocationFor(houses[i + k], geocode(houses[i + k].address).value, i + k)
      {
        assert r[k] == rest[k - 1];
        assert (i + 1) + (k - 1) == i + k;
      }
    }
  }

  /** A failed geocoding loop raises the error of the first house that fails. */
  lemma {:induction false} BuildLocationsFirstFailure(houses: seq<House>, geocode: Geocoder, i: nat)
    requires i <= |houses|
    requires BuildLocations(houses, geocode, i).Raised?
    decreases |houses| - i
    ensures exists j :: i <= j < |houses|
              && geocode(houses[j].address) == Raised(BuildLocations(houses, geocode, i).message)
              && forall l :: i <= l < j ==> geocode(houses[l].address).Ok?
  {
    if geocode(houses[i].address).Ok? {
      BuildLocationsFirstFailure(houses, geocode, i + 1);
      var j :| i + 1 <= j < |houses|
              && geocode(houses[j].address) == Raised(BuildLocations(houses, geocode, i + 1).message)
              && forall l :: i + 1 <= l < j ==> geocode(houses[l].address).Ok?;
      assert BuildLocations(houses, geocode, i) == BuildLocations(houses, geocode, i + 1);
    }
  }

  /** Every address the planner geocodes resolves. */
  predicate GeocodingSucceeds(houses: seq<House>, startAddress: string, destinationAddress: Option<string>, geocode: Geocoder) {
    && geocode(startAddress).Ok?
    && (HasDestination(destinationAddress) ==> geocode(destinationAddress.value).Ok?)
    && forall j :: 0 <= j < |houses| ==> geocode(houses[j].address).Ok?
  }

  /** The request the strategies receive once geocoding succeeds. */
  function RequestFor(houses: seq<House>, destinationAddress: Option<string>, start: Coord, geocode: Geocoder): Request
    requires 0 < |houses|
    requires forall j :: 0 <= j < |houses| ==> geocode(houses[j].address).Ok?
    requires HasDestination(destinationAddress) ==> geocode(destinationAddress.value).Ok?
  {
    var dest := if HasDestination(destinationAddress) then Some(geocode(destinationAddress.value).value) else None;
    Request(BuildLocations(houses, geocode, 0).value, start, dest, houses[0].startTime)
  }

  /** With every address resolved, an empty house list raises IndexError;
      otherwise the strategies run on the houses' locations, the start,
      the destination (if one was given) and the first house's window start. */
  lemma PlanWithSpec(
    houses: seq<House>, startAddress: string, destinationAddress: Option<string>,
    geocode: Geocoder, strategies: seq<Named>)
    requires GeocodingSucceeds(houses, startAddress, destinationAddress, geocode)
    ensures var r := PlanWith(houses, startAddress, destinationAddress, geocode, strategies);
            && (|houses| == 0 ==> r == Raised(NO_HOUSES_MESSAGE))
            && (0 < |houses| ==>
                  r == TryStrategies(strategies, RequestFor(houses, destinationAddress, geocode(startAddress).value, geocode)))
  {
  }

  /** A failing destination or house address aborts the planner with that
      error before any strategy runs: the destination's, or else the first
      failing house's. */
  lemma GeocodingFailureAborts(
    houses: seq<House>, startAddress: string, destinationAddress: Option<string>,
    geocode: Geocoder, strategies: seq<Named>)
    requires geocode(startAddress).Ok?
    requires !GeocodingSucceeds(houses, startAddress, destinationAddress, geocode)
    ensures var r := PlanWith(houses, startAddress, destinationAddress, geocode, strategies);
            && r.Raised?
            && (HasDestination(destinationAddress) && geocode(destinationAddress.value).Raised? ==>
                  r == Raised(geocode(destinationAddress.value).message))
            && (!HasDestination(destinationAddress) || geocode(destinationAddress.value).Ok? ==>
                  exists j :: 0 <= j < |houses|
                    && geocode(houses[j].address) == Raised(r.message)
                    && forall l :: 0 <= l < j ==> geocode(houses[l].address).Ok?)
  {
    if !HasDestination(destinationAddress) || geocode(destinationAddress.value).Ok? {
      BuildLocationsFirstFailure(houses, geocode, 0);
    }
  }

  // ---------------------------------------------------------------------------
  // The three strategies.

  /** The greedy strategy never fails on a non-empty request, so once every
      address resolves and there is a house, the planner returns a plan. */
  lemma GreedyIsBackstop(
    houses: seq<House>, startAddress: string, destinationAddress: Option<string>, geocode: Geocoder, env: Services)
    requires GeocodingSucceeds(houses, startAddress, destinationAddress, geocode)
    requires 0 < |houses|
    ensures PlanOptimizedRoute(houses, startAddress, destinationAddress, geocode, env).Ok?
  {
    var req := RequestFor(houses, destinationAddress, geocode(startAddress).value, geocode);
    var ms := Methods(env);
    assert !Fails(ms[2], req);
    PlanWithSpec(houses, startAddress, destinationAddress, geocode, ms);
    TryStrategiesPicksFirstSuccess(ms, req);
  }

  /** The Route Optimization API's plan is returned whenever it has one. */
  lemma TourPlanPreferred(
    houses: seq<House>, startAddress: string, destinationAddress: Option<string>, geocode: Geocoder, env: Services)
    requires GeocodingSucceeds(houses, startAddress, destinationAddress, geocode)
    requires 0 < |houses|
    requires !Fails(Methods(env)[0], RequestFor(houses, destinationAddress, geocode(startAddress).value, geocode))
    ensures var req := RequestFor(houses, destinationAddress, geocode(startAddress).value, geocode);
            var r := PlanOptimizedRoute(houses, startAddress, destinationAddress, geocode, env);
            && r.Ok?
            && r.value.route == Methods(env)[0].run(req).value
            && forall k :: 0 <= k < |r.value.route| ==>
                 r.value.route[k].methodTag == Some(RouteOptimizationApi.TOUR_TAG)
                 && r.value.route[k].violation == Some(false)
  {
    var req := RequestFor(houses, destinationAddress, geocode(startAddress).value, geocode);
    var ms := Methods(env);
    PlanWithSpec(houses, startAddress, destinationAddress, geocode, ms);
    TryStrategiesPicksFirstSuccess(ms, req);
    RouteOptimizationApi.OptimizeRouteSpec(
      req.locations, req.start, req.destination, req.startTs, env.projectId, env.token, env.tourPost);
  }

  /** When the Route Optimization API fails, the Routes plan is returned if
      there is one, validated with the Routes tag; otherwise the greedy plan is. */
  lemma RoutesPlanSecond(
    houses: seq<House>, startAddress: string, destinationAddress: Option<string>, geocode: Geocoder, env: Services)
    requires GeocodingSucceeds(houses, startAddress, destinationAddress, geocode)
    requires 0 < |houses|
    requires Fails(Methods(env)[0], RequestFor(houses, destinationAddress, geocode(startAddress).value, geocode))
    ensures var req := RequestFor(houses, destinationAddress, geocode(startAddress).value, geocode);
            var routes := Methods(env)[1];
            var r := PlanOptimizedRoute(houses, startAddress, destinationAddress, geocode, env);
            && r.Ok?
            && (!Fails(routes, req) ==> r.value.route == routes.run(req).value)
            && forall k :: 0 <= k < |r.value.route| ==>
                 r.value.route[k].methodTag == Some(if Fails(routes, req) then GreedyOptimizer.GREEDY_TAG else RoutesApi.ROUTES_TAG)
                 && r.value.route[k].optimizedOrder == Some(k)
  {
    var req := RequestFor(houses, destinationAddress, geocode(startAddress).value, geocode);
    var ms := Methods(env);
    PlanWithSpec(houses, startAddress, destinationAddress, geocode, ms);
    TryStrategiesPicksFirstSuccess(ms, req);
    assert !Fails(ms[2], req);
  }

  /** The original indices a plan's stops record. */
  function OriginalOrders(route: seq<Stop>): set<int> {
    set k | 0 <= k < |route| :: route[k].originalOrder
  }

  /** Every one of the indices `0 .. n-1` is recorded by some stop of `route`,
      and no stop records anything else. */
  predicate RecordsIndices(route: seq<Stop>, n: nat) {
    && (forall i :: 0 <= i < n ==> i in OriginalOrders(route))
    && (forall k :: 0 <= k < |route| ==> 0 <= route[k].originalOrder < n)
  }

  /** Locations numbered by their position, as the geocoding loop builds them. */
  predicate NumberedInOrder(locations: seq<Location>) {
    forall i :: 0 <= i < |locations| ==> locations[i].originalIndex == i
  }

  /** Stops that copy the original indices of a rearrangement of numbered
      locations record each index once. */
  lemma RearrangementRecordsIndices(route: seq<Stop>, visited: seq<Location>, locations: seq<Location>)
    requires NumberedInOrder(locations)
    requires multiset(visited) == multiset(locations)
    requires |route| == |visited|
    requires forall k :: 0 <= k < |route| ==> route[k].originalOrder == visited[k].originalIndex
    ensures RecordsIndices(route, |locations|)
  {
    forall i | 0 <= i < |locations|
      ensures i in OriginalOrders(route)
    {
      assert locations[i] in multiset(visited);
      var k :| 0 <= k < |visited| && visited[k] == locations[i];
      assert route[k].originalOrder == i;
    }
    forall k | 0 <= k < |route|
      ensures 0 <= route[k].originalOrder < |locations|
    {
      assert visited[k] in multiset(locations);
      var i :| 0 <= i < |locations| && locations[i] == visited[k];
    }
  }

  /** The greedy plan of numbered locations has one stop per location and
      records every original index once. */
  lemma GreedyCoversEveryHouse(
    locations: seq<Location>, start: Coord, destination: Option<Coord>, startTs: int, dist: GreedyOptimizer.Distance)
    requires NumberedInOrder(locations)
    ensures var route := GreedyOptimizer.OptimizeRoute(locations, start, destination, startTs, dist).value;
            |route| == |locations| && RecordsIndices(route, |locations|)
  {
    var route := GreedyOptimizer.OptimizeRoute(locations, start, destination, startTs, dist).value;
    var plan := GreedyOptimizer.GreedyLoop(start, locations, startTs, [], dist);
    GreedyOptimizer.OptimizeRouteSpec(locations, start, destination, startTs, dist);
    RearrangementRecordsIndices(route, Route(plan), locations);
  }

  /** When both Google strategies fail, the greedy strategy's plan is returned:
      one stop per house, greedy-tagged, recording every house's original index once. */
  lemma GreedyPlanLast(
    houses: seq<House>, startAddress: string, destinationAddress: Option<string>, geocode: Geocoder, env: Services)
    requires GeocodingSucceeds(houses, startAddress, destinationAddress, geocode)
    requires 0 < |houses|
    requires Fails(Methods(env)[0], RequestFor(houses, destinationAddress, geocode(startAddress).value, geocode))
    requires Fails(Methods(env)[1], RequestFor(houses, destinationAddress, geocode(startAddress).value, geocode))
    ensures var req := RequestFor(houses, destinationAddress, geocode(startAddress).value, geocode);
            var r := PlanOptimizedRoute(houses, startAddress, destinationAddress, geocode, env);
            && r == Ok(RoutePlan(GreedyOptimizer.OptimizeRoute(req.locations, req.start, req.destination, req.startTs, env.dist).value))
            && |r.value.route| == |houses|
            && (forall k :: 0 <= k < |houses| ==> r.value.route[k].methodTag == Some(GreedyOptimizer.GREEDY_TAG))
            && RecordsIndices(r.value.route, |houses|)
  {
    var req := RequestFor(houses, destinationAddress, geocode(startAddress).value, geocode);
    var ms := Methods(env);
    var greedy := GreedyOptimizer.OptimizeRoute(req.locations, req.start, req.destination, req.startTs, env.dist);
    assert ms[2].run(req) == greedy;
    assert FirstSuccess(ms, req) == Some(2);
    PlanWithSpec(houses, startAddress, destinationAddress, geocode, ms);
    TryStrategiesPicksFirstSuccess(ms, req);
    assert PlanOptimizedRoute(houses, startAddress, destinationAddress, geocode, env) == Ok(RoutePlan(greedy.value));
    BuildLocationsNumbered(houses, geocode);
    GreedyCoversEveryHouse(req.locations, req.start, req.destination, req.startTs, env.dist);
  }

  /** The geocoding loop numbers the houses by their input position. */
  lemma BuildLocationsNumbered(houses: seq<House>, geocode: Geocoder)
    requires BuildLocations(houses, geocode, 0).Ok?
    ensures NumberedInOrder(BuildLocations(houses, geocode, 0).value)
  {
    var r := BuildLocations(houses, geocode, 0).value;
    BuildLocationsContents(houses, geocode, 0);
    forall i | 0 <= i < |r|
      ensures r[i].originalIndex == i
    {
      assert r[i] == LocationFor(houses[0 + i], geocode(houses[0 + i].address).value, 0 + i);
    }
  }
}

/** The Google Routes API strategy: a waypoint-optimisation request, the
    reordering of the houses by the returned waypoint order with provisional
    times from the legs, and a validator that replaces those times with a
    fixed fifteen-minute travel estimate. The HTTP call is a parameter. */
module RoutesApi {
  import opened Records
  import opened Lists
  import opened Text
  import TimeWindows

  const ROUTES_TAG := "routes_api"

  /** The validator's travel estimate between consecutive stops, fifteen minutes. */
  const ESTIMATED_TRAVEL_SEC := 15 * 60

  const NO_PLAN_MESSAGE := "No route plan generated from Routes API"

  /** The request body of `computeRoutes`; the departure time is kept as
      epoch seconds rather than its ISO-8601 text. */
  datatype RoutesPayload = RoutesPayload(
    origin: Coord,
    destination: Coord,
    intermediates: seq<Coord>,
    routingPreference: string,
    departureTime: int,
    computeAlternativeRoutes: bool,
    avoidTolls: bool,
    avoidHighways: bool,
    languageCode: string,
    units: string,
    travelMode: int,
    optimizeWaypointOrder: bool)

  /** One leg of the returned route; `duration` is text such as "754s". */
  datatype Leg = Leg(duration: Option<string>)

  datatype RoutesRoute = RoutesRoute(optimizedIntermediateWaypointIndex: Option<seq<int>>, legs: Option<seq<Leg>>)

  /** The parsed JSON response; a missing `routes` key is `None`. */
  datatype RoutesResponse = RoutesResponse(routes: Option<seq<RoutesRoute>>)

  /** `call_api`: the HTTP request, which may raise. */
  type RoutesCall = RoutesPayload -> Attempt<RoutesResponse>

  /** `build_payload`: origin at the start, destination at the given
      destination or back at the start, one intermediate waypoint per house
      in input order, waypoint optimisation on. */
  function BuildPayload(locations: seq<Location>, start: Coord, destination: Option<Coord>, startTs: int)
    : (p: RoutesPayload)
    ensures p.origin == start
    ensures destination.None? ==> p.destination == start
    ensures destination.Some? ==> p.destination == destination.value
    ensures |p.intermediates| == |locations|
    ensures forall i :: 0 <= i < |locations| ==> p.intermediates[i] == locations[i].coord
    ensures p.departureTime == startTs && p.optimizeWaypointOrder && p.travelMode == 1
  {
    RoutesPayload(
      origin := start,
      destination := destination.GetOr(start),
      intermediates := seq(|locations|, i requires 0 <= i < |locations| => locations[i].coord),
      routingPreference := "TRAFFIC_AWARE",
      departureTime := startTs,
      computeAlternativeRoutes := false,
      avoidTolls := false,
      avoidHighways := false,
      languageCode := "en-US",
      units := "METRIC",
      travelMode := 1,
      optimizeWaypointOrder := true)
  }

  /** `list(range(n))`, the waypoint order used when the response gives none. */
  function Identity(n: nat): (r: seq<int>)
    ensures |r| == n && forall i :: 0 <= i < n ==> r[i] == i
  {
    seq(n, i => i)
  }

  /** `[locations[i] for i in order]`: raises IndexError at the first index
      outside the list, before anything else is looked at. */
  function Reorder(locations: seq<Location>, order: seq<int>): (r: Attempt<seq<Location>>)
    ensures r.Ok? <==> forall k :: 0 <= k < |order| ==> PyIndex(|locations|, order[k]).Some?
    ensures r.Ok? ==> |r.value| == |order|
    ensures r.Ok? ==> forall k :: 0 <= k < |order| ==> r.value[k] == locations[PyIndex(|locations|, order[k]).value]
  {
    if |order| == 0 then Ok([])
    else
      match PyIndex(|locations|, order[0])
      case None => Raised("list index out of range")
      case Some(j) =>
        match Reorder(locations, order[1..])
        case Raised(m) => Raised(m)
        case Ok(rest) => Ok([locations[j]] + rest)
  }

  /** `int(leg["duration"].replace("s", ""))`: the leg's seconds, KeyError
      when the duration is missing, ValueError when it does not parse. */
  function LegDuration(leg: Leg): Attempt<int> {
    match leg.duration
    case None => Raised("'duration'")
    case Some(d) => ParseDuration(d)
  }

  /** A leg whose duration is present and parses as an integer. */
  predicate LegParses(leg: Leg) {
    LegDuration(leg).Ok?
  }

  /** Each leg's duration, as the loop would read it. Reading a duration has
      no effect besides its result, so reading them up front and consulting
      the one for leg `i` when the loop reaches it changes nothing. */
  function Durations(legs: seq<Leg>): (ds: seq<Attempt<int>>)
    ensures |ds| == |legs|
    ensures forall j :: 0 <= j < |legs| ==> ds[j] == LegDuration(legs[j])
  {
    seq(|legs|, j requires 0 <= j < |legs| => LegDuration(legs[j]))
  }

  /** The record `process_response` appends for `loc` as stop `i`, with the
      running clock as its arrival and the location data kept for validation. */
  function Provisional(loc: Location, clock: int, i: nat): Stop {
    Stop(
      address := loc.house.address,
      arrival := clock,
      departure := clock + loc.visitDurationSec,
      originalOrder := loc.originalIndex,
      optimizedOrder := Some(i),
      violation := None,
      methodTag := None,
      locationData := Some(loc),
      travelDurationSec := None)
  }

  /** The number of stops the legs loop emits from leg `i` on: one per leg
      that has a reordered house at its position. */
  function LegsUsed(ordered: nat, legs: nat, i: nat): nat {
    if i < legs && i < ordered then (if legs < ordered then legs else ordered) - i else 0
  }

  /** The `for i, leg in enumerate(route["legs"])` loop from leg `i` on, over
      the legs' durations; a leg past the last house is skipped without
      reading its duration. */
  function PlanLegs(ordered: seq<Location>, durations: seq<Attempt<int>>, i: nat, clock: int): (r: Attempt<seq<Stop>>)
    requires i <= |durations|
    decreases |durations| - i
    ensures r.Ok? <==> forall j :: i <= j < |durations| && j < |ordered| ==> durations[j].Ok?
    ensures r.Ok? ==> |r.value| == LegsUsed(|ordered|, |durations|, i)
    ensures r.Ok? ==> ProvisionalFrom(ordered, i, r.value)
  {
    if i == |durations| then Ok([])
    else if i >= |ordered| then PlanLegs(ordered, durations, i + 1, clock)
    else
      match durations[i]
      case Raised(m) => Raised(m)
      case Ok(secs) =>
        var loc := ordered[i];
        match PlanLegs(ordered, durations, i + 1, clock + secs + loc.visitDurationSec)
        case Raised(m) => Raised(m)
        case Ok(rest) =>
          ProvisionalCons(ordered, i, Provisional(loc, clock, i), rest);
          Ok([Provisional(loc, clock, i)] + rest)
  }

  /** `s` is the provisional record of the reordered house at position `p`. */
  predicate ProvisionalAt(ordered: seq<Location>, p: int, s: Stop) {
    0 <= p < |ordered| && s == Provisional(ordered[p], s.arrival, p)
  }

  /** Stops `i, i+1, ...` are the provisional records of the reordered houses
      at those positions, each with its own arrival. */
  predicate ProvisionalFrom(ordered: seq<Location>, i: nat, stops: seq<Stop>) {
    forall k :: 0 <= k < |stops| ==> ProvisionalAt(ordered, i + k, stops[k])
  }

  lemma ProvisionalCons(ordered: seq<Location>, i: nat, s: Stop, rest: seq<Stop>)
    requires ProvisionalAt(ordered, i, s)
    requires ProvisionalFrom(ordered, i + 1, rest)
    ensures ProvisionalFrom(ordered, i, [s] + rest)
  {
    var r := [s] + rest;
    forall k | 0 <= k < |r|
      ensures ProvisionalAt(ordered, i + k, r[k])
    {
      if k > 0 {
        assert ProvisionalAt(ordered, i + 1 + (k - 1), rest[k - 1]);
        assert r[k] == rest[k - 1];
      }
    }
  }

  /** The waypoint order of a route: the returned one, or the input order. */
  function WaypointOrder(route: RoutesRoute, n: nat): seq<int> {
    route.optimizedIntermediateWaypointIndex.GetOr(Identity(n))
  }

  /** `process_response`: nothing when the response has no routes; otherwise
      the first route's houses in waypoint order, one per leg that has one. */
  function ProcessResponse(raw: RoutesResponse, locations: seq<Location>, startTs: int): (r: Attempt<seq<Stop>>)
    ensures raw.routes.None? || |raw.routes.value| == 0 ==> r == Ok([])
    ensures r.Ok? ==> HasLocations(r.value)
    ensures r.Ok? ==> forall k :: 0 <= k < |r.value| ==> r.value[k].optimizedOrder == Some(k)
  {
    match raw.routes
    case None => Ok([])
    case Some(routes) =>
      if |routes| == 0 then Ok([])
      else
        var route := routes[0];
        match Reorder(locations, WaypointOrder(route, |locations|))
        case Raised(m) => Raised(m)
        case Ok(ordered) =>
          match route.legs
          case None => Raised("'legs'")
          case Some(legs) =>
            var r := PlanLegs(ordered, Durations(legs), 0, startTs);
            assert r.Ok? ==> forall k :: 0 <= k < |r.value| ==> r.value[k].optimizedOrder == Some(0 + k);
            r
  }

  /** The Routes module's own `validate_time_windows`: arrivals start at the
      start time and each later one is the previous departure plus fifteen
      minutes; a stop without location data raises KeyError. */
  function ValidateTimeWindows(plan: seq<Stop>, startTs: int): (r: Attempt<seq<Stop>>)
    ensures r.Ok? <==> HasLocations(plan)
    ensures r.Ok? ==> |r.value| == |plan|
    ensures r.Ok? ==> forall k :: 0 <= k < |plan| ==>
              r.value[k].optimizedOrder == Some(k) && r.value[k].methodTag == Some(ROUTES_TAG)
  {
    ValidateFrom(plan, 0, startTs)
  }

  function ValidateFrom(plan: seq<Stop>, i: nat, clock: int): (r: Attempt<seq<Stop>>)
    requires i <= |plan|
    decreases |plan| - i
    ensures r.Ok? <==> forall k :: i <= k < |plan| ==> plan[k].locationData.Some?
    ensures r.Ok? ==> |r.value| == |plan| - i
    ensures r.Ok? ==> forall k :: 0 <= k < |r.value| ==>
              r.value[k].optimizedOrder == Some(i + k) && r.value[k].methodTag == Some(ROUTES_TAG)
  {
    if i == |plan| then Ok([])
    else
      match plan[i].locationData
      case None => Raised("'location_data'")
      case Some(loc) =>
        var travel := if i < |plan| - 1 then ESTIMATED_TRAVEL_SEC else 0;
        match ValidateFrom(plan, i + 1, clock + loc.visitDurationSec + travel)
        case Raised(m) => Raised(m)
        case Ok(rest) => Ok([TimeWindows.Validated(loc, clock, i, ROUTES_TAG)] + rest)
  }

  /** `optimize_route` of the Routes module: request, process, refuse an
      empty plan, validate. */
  function OptimizeRoute(
    locations: seq<Location>, start: Coord, destination: Option<Coord>, startTs: int, callApi: RoutesCall)
    : (r: Attempt<seq<Stop>>)
    ensures r.Ok? ==> 0 < |r.value|
    ensures r.Ok? ==> forall k :: 0 <= k < |r.value| ==>
              r.value[k].optimizedOrder == Some(k) && r.value[k].methodTag == Some(ROUTES_TAG)
  {
    match callApi(BuildPayload(locations, start, destination, startTs))
    case Raised(m) => Raised(m)
    case Ok(raw) =>
      match ProcessResponse(raw, locations, startTs)
      case Raised(m) => Raised(m)
      case Ok(plan) =>
        if |plan| == 0 then Raised(NO_PLAN_MESSAGE) else ValidateTimeWindows(plan, startTs)
  }

  // ---------------------------------------------------------------------------
  // The provisional plan.

  /** Stop `k + 1` of a provisional plan arrives when stop `k` departs plus
      the duration of leg `i + k`, the leg stop `k` was emitted for. */
  predicate ChainsAfter(r: seq<Stop>, durations: seq<Attempt<int>>, i: nat, k: nat)
    requires k + 1 < |r| && i + k < |durations|
  {
    durations[i + k].Ok? && r[k + 1].arrival == r[k].departure + durations[i + k].value
  }

  /** Every stop of `r` after the first follows its predecessor by that
      predecessor's leg, counting legs from `i`. */
  predicate ChainsFrom(r: seq<Stop>, durations: seq<Attempt<int>>, i: nat) {
    forall k :: 0 <= k < |r| - 1 ==> i + k < |durations| && ChainsAfter(r, durations, i, k)
  }

  /** The provisional times chain: the first arrival is the start, each
      departure is the arrival plus the visit, and each later arrival is the
      previous departure plus the previous stop's own leg. */
  lemma {:induction false} ProvisionalTimesChain(ordered: seq<Location>, durations: seq<Attempt<int>>, i: nat, clock: int)
    requires i <= |durations|
    requires PlanLegs(ordered, durations, i, clock).Ok?
    decreases |durations| - i
    ensures var r := PlanLegs(ordered, durations, i, clock).value;
            && (0 < |r| ==> r[0].arrival == clock)
            && ChainsFrom(r, durations, i)
  {
    if i < |durations| && i < |ordered| {
      var s := Provisional(ordered[i], clock, i);
      var next := s.departure + durations[i].value;
      ProvisionalTimesChain(ordered, durations, i + 1, next);
      var rest := PlanLegs(ordered, durations, i + 1, next).value;
      assert PlanLegs(ordered, durations, i, clock).value == [s] + rest;
      ChainCons(durations, i, s, rest);
    }
  }

  /** The step of the induction: a stop whose departure plus leg `i` is the
      next arrival extends a chain that starts at leg `i + 1`. */
  lemma ChainCons(durations: seq<Attempt<int>>, i: nat, s: Stop, rest: seq<Stop>)
    requires i + |rest| <= |durations|
    requires 0 < |rest| ==> durations[i].Ok? && rest[0].arrival == s.departure + durations[i].value
    requires ChainsFrom(rest, durations, i + 1)
    ensures ChainsFrom([s] + rest, durations, i)
  {
    var r := [s] + rest;
    forall k | 0 <= k < |r| - 1
      ensures i + k < |durations| && ChainsAfter(r, durations, i, k)
    {
      if k > 0 {
        assert ChainsAfter(rest, durations, i + 1, k - 1);
        assert r[k] == rest[k - 1] && r[k + 1] == rest[k];
        assert (i + 1) + (k - 1) == i + k;
      }
    }
  }

  /** On a response with a route, processing succeeds exactly when every
      waypoint index is a valid list index, the route has legs, and every leg
      that has a house at its position carries a parsable duration. */
  lemma ProcessResponseSucceeds(raw: RoutesResponse, locations: seq<Location>, startTs: int)
    requires raw.routes.Some? && 0 < |raw.routes.value|
    ensures var route := raw.routes.value[0];
            var order := WaypointOrder(route, |locations|);
            ProcessResponse(raw, locations, startTs).Ok? <==>
              && (forall k :: 0 <= k < |order| ==> PyIndex(|locations|, order[k]).Some?)
              && route.legs.Some?
              && forall j :: 0 <= j < |route.legs.value| && j < |order| ==> LegParses(route.legs.value[j])
  {
  }

  /** A processed plan lists, for each leg that has one, the house whose
      request waypoint the returned order names at that position: the
      intermediate of the request at `order[k]`, with negative indices
      counting from the end. */
  lemma ProcessedStopsFollowWaypointOrder(
    raw: RoutesResponse, locations: seq<Location>, start: Coord, destination: Option<Coord>, startTs: int)
    requires raw.routes.Some? && 0 < |raw.routes.value|
    requires ProcessResponse(raw, locations, startTs).Ok?
    ensures var route := raw.routes.value[0];
            var order := WaypointOrder(route, |locations|);
            var plan := ProcessResponse(raw, locations, startTs).value;
            var payload := BuildPayload(locations, start, destination, startTs);
            && route.legs.Some?
            && |plan| == LegsUsed(|order|, |route.legs.value|, 0)
            && forall k :: 0 <= k < |plan| ==>
                 && PyIndex(|locations|, order[k]).Some?
                 && plan[k].locationData.value == locations[PyIndex(|locations|, order[k]).value]
                 && plan[k].locationData.value.coord == payload.intermediates[PyIndex(|locations|, order[k]).value]
  {
    var route := raw.routes.value[0];
    var order := WaypointOrder(route, |locations|);
    var ordered := Reorder(locations, order).value;
    var plan := ProcessResponse(raw, locations, startTs).value;
    assert plan == PlanLegs(ordered, Durations(route.legs.value), 0, startTs).value;
    forall k | 0 <= k < |plan|
      ensures plan[k].locationData.value == ordered[k]
    {
      assert plan[k].locationData == Some(ordered[0 + k]);
    }
  }

  /** Without a returned order the houses keep their input order. */
  lemma DefaultOrderKeepsInputOrder(raw: RoutesResponse, locations: seq<Location>, startTs: int)
    requires raw.routes.Some? && 0 < |raw.routes.value|
    requires raw.routes.value[0].optimizedIntermediateWaypointIndex.None?
    requires ProcessResponse(raw, locations, startTs).Ok?
    ensures var plan := ProcessResponse(raw, locations, startTs).value;
            |plan| <= |locations| && Route(plan) == locations[..|plan|]
  {
    var plan := ProcessResponse(raw, locations, startTs).value;
    ProcessedStopsFollowWaypointOrder(raw, locations, Coord(0.0, 0.0), None, startTs);
  }

  // ---------------------------------------------------------------------------
  // Every house exactly once under a permutation order.

  /** Indices that all fall inside a list of length `n`. */
  predicate InRange(idx: seq<int>, n: nat) {
    forall k :: 0 <= k < |idx| ==> 0 <= idx[k] < n
  }

  /** Dropping an index keeps the rest in range. */
  lemma RemoveKeepsInRange(t: seq<int>, x: int, n: nat)
    requires InRange(t, n) && x in t
    ensures InRange(RemoveFirst(t, x), n)
  {
    var j := IndexOf(t, x);
    var r := RemoveFirst(t, x);
    RemoveFirstShifts(t, x);
    forall k | 0 <= k < |r|
      ensures 0 <= r[k] < n
    {
      if k < j { assert r[k] == t[k]; } else { assert r[k] == t[k + 1]; }
    }
  }

  /** The houses picked by a sequence of in-range indices. */
  function Pick(locations: seq<Location>, idx: seq<int>): (r: seq<Location>)
    requires InRange(idx, |locations|)
    ensures |r| == |idx|
  {
    seq(|idx|, k requires 0 <= k < |idx| => locations[idx[k]])
  }

  /** An order that lists every position `0 .. n-1` exactly once. */
  predicate IsPermutation(order: seq<int>, n: nat) {
    multiset(order) == multiset(Identity(n))
  }

  lemma PermutationInRange(order: seq<int>, n: nat)
    requires IsPermutation(order, n)
    ensures |order| == n
    ensures InRange(order, n)
  {
    assert |multiset(order)| == |multiset(Identity(n))|;
    forall k | 0 <= k < |order|
      ensures 0 <= order[k] < n
    {
      assert order[k] in multiset(Identity(n));
    }
  }

  /** Dropping one index drops its house from the picked multiset. */
  lemma PickRemove(locations: seq<Location>, t: seq<int>, x: int)
    requires InRange(t, |locations|)
    requires x in t
    ensures 0 <= x < |locations|
    ensures multiset(Pick(locations, t)) == multiset(Pick(locations, RemoveFirst(t, x))) + multiset{locations[x]}
  {
    var j := IndexOf(t, x);
    var before, after := t[..j], t[j + 1..];
    RemoveAround(t, x);
    PickAround(locations, before, x, after);
    var pb, pa := Pick(locations, before), Pick(locations, after);
    calc {
      multiset(Pick(locations, t));
      multiset(pb + [locations[x]] + pa);
      multiset(pb) + multiset{locations[x]} + multiset(pa);
      multiset(pb + pa) + multiset{locations[x]};
    }
  }

  /** `list.remove` cuts the list around the first occurrence. */
  lemma RemoveAround(t: seq<int>, x: int)
    requires x in t
    ensures var j := IndexOf(t, x);
            && t == t[..j] + [x] + t[j + 1..]
            && RemoveFirst(t, x) == t[..j] + t[j + 1..]
  {
    var j := IndexOf(t, x);
    assert t == t[..j] + [x] + t[j + 1..];
    RemoveFirstShifts(t, x);
  }

  /** Picking around one index: the picks before it, its house, the picks after it. */
  lemma PickAround(locations: seq<Location>, before: seq<int>, x: int, after: seq<int>)
    requires InRange(before + [x] + after, |locations|)
    ensures InRange(before, |locations|) && InRange(after, |locations|) && 0 <= x < |locations|
    ensures Pick(locations, before + [x] + after)
            == Pick(locations, before) + [locations[x]] + Pick(locations, after)
    ensures Pick(locations, before + after) == Pick(locations, before) + Pick(locations, after)
  {
    var t := before + [x] + after;
    assert forall k :: 0 <= k < |before| ==> before[k] == t[k];
    assert forall k :: 0 <= k < |after| ==> after[k] == t[|before| + 1 + k];
    assert t[|before|] == x;
  }

  /** Picking by index sequences with equal multisets picks equal multisets of houses. */
  lemma {:induction false} PickRespectsMultiset(locations: seq<Location>, s: seq<int>, t: seq<int>)
    requires InRange(s, |locations|)
    requires InRange(t, |locations|)
    requires multiset(s) == multiset(t)
    decreases |s|
    ensures multiset(Pick(locations, s)) == multiset(Pick(locations, t))
  {
    if |s| == 0 {
      assert |multiset(t)| == 0;
    } else {
      var x := s[0];
      assert x in multiset(t);
      assert s == [x] + s[1..];
      assert InRange(s[1..], |locations|);
      RemoveKeepsInRange(t, x, |locations|);
      RemoveFirstCounts(t, x);
      PickRespectsMultiset(locations, s[1..], RemoveFirst(t, x));
      PickCons(locations, s, t);
    }
  }

  /** The step of the induction: the first picked house matches the one
      `RemoveFirst` takes out of `t`. */
  lemma PickCons(locations: seq<Location>, s: seq<int>, t: seq<int>)
    requires 0 < |s| && InRange(s, |locations|) && InRange(t, |locations|)
    requires s[0] in t && InRange(RemoveFirst(t, s[0]), |locations|)
    requires multiset(Pick(locations, s[1..])) == multiset(Pick(locations, RemoveFirst(t, s[0])))
    ensures multiset(Pick(locations, s)) == multiset(Pick(locations, t))
  {
    var x := s[0];
    PickRemove(locations, t, x);
    assert Pick(locations, s) == [locations[x]] + Pick(locations, s[1..]);
  }

  /** When the returned order is a permutation of the waypoints and the route
      has a leg for every house, the processed plan visits every house
      exactly once. */
  lemma PermutationOrderVisitsEachOnce(raw: RoutesResponse, locations: seq<Location>, startTs: int)
    requires raw.routes.Some? && 0 < |raw.routes.value|
    requires IsPermutation(WaypointOrder(raw.routes.value[0], |locations|), |locations|)
    requires ProcessResponse(raw, locations, startTs).Ok?
    requires |locations| <= |raw.routes.value[0].legs.GetOr([])|
    ensures multiset(Route(ProcessResponse(raw, locations, startTs).value)) == multiset(locations)
  {
    var order := WaypointOrder(raw.routes.value[0], |locations|);
    var plan := ProcessResponse(raw, locations, startTs).value;
    PermutationInRange(order, |locations|);
    ProcessedStopsFollowWaypointOrder(raw, locations, Coord(0.0, 0.0), None, startTs);
    var id := Identity(|locations|);
    PickRespectsMultiset(locations, order, id);
    assert Pick(locations, id) == locations;
    assert Route(plan) == Pick(locations, order);
  }

  // ---------------------------------------------------------------------------
  // The validator.

  /** The validator's clock before stop `k`, as a sum: the start plus, for
      every earlier stop, its visit and one fifteen-minute estimate. */
  function EstimatedClock(route: seq<Location>, startTs: int, k: nat): int
    requires k <= |route|
  {
    if k == 0 then startTs
    else EstimatedClock(route, startTs, k - 1) + route[k - 1].visitDurationSec + ESTIMATED_TRAVEL_SEC
  }

  /** `out` holds, from position `i` of the route on, the validator's record
      for each house at the estimated clock. */
  ghost predicate EstimatedFrom(route: seq<Location>, startTs: int, i: nat, out: seq<Stop>)
    requires i + |out| <= |route|
  {
    forall k :: 0 <= k < |out| ==>
      out[k] == TimeWindows.Validated(route[i + k], EstimatedClock(route, startTs, i + k), i + k, ROUTES_TAG)
  }

  lemma EstimatedCons(route: seq<Location>, startTs: int, i: nat, rest: seq<Stop>)
    requires i + 1 + |rest| <= |route|
    requires EstimatedFrom(route, startTs, i + 1, rest)
    ensures EstimatedFrom(route, startTs, i,
              [TimeWindows.Validated(route[i], EstimatedClock(route, startTs, i), i, ROUTES_TAG)] + rest)
  {
    var out := [TimeWindows.Validated(route[i], EstimatedClock(route, startTs, i), i, ROUTES_TAG)] + rest;
    forall k | 1 <= k < |out|
      ensures out[k] == TimeWindows.Validated(route[i + k], EstimatedClock(route, startTs, i + k), i + k, ROUTES_TAG)
    {
      assert out[k] == rest[k - 1];
      assert (i + 1) + (k - 1) == i + k;
    }
  }

  lemma {:induction false} ValidateFromEstimates(plan: seq<Stop>, startTs: int, i: nat, clock: int)
    requires HasLocations(plan)
    requires i <= |plan|
    requires i < |plan| ==> clock == EstimatedClock(Route(plan), startTs, i)
    decreases |plan| - i
    ensures var r := ValidateFrom(plan, i, clock);
            r.Ok? && EstimatedFrom(Route(plan), startTs, i, r.value)
  {
    if i < |plan| {
      var route := Route(plan);
      var loc := route[i];
      var travel := if i < |plan| - 1 then ESTIMATED_TRAVEL_SEC else 0;
      var next := clock + loc.visitDurationSec + travel;
      ValidateFromEstimates(plan, startTs, i + 1, next);
      var rest := ValidateFrom(plan, i + 1, next).value;
      ValidateFromStep(plan, i, clock);
      var v := TimeWindows.Validated(loc, clock, i, ROUTES_TAG);
      assert ValidateFrom(plan, i, clock).value == [v] + rest;
      assert v == TimeWindows.Validated(route[i], EstimatedClock(route, startTs, i), i, ROUTES_TAG);
      EstimatedCons(route, startTs, i, rest);
    }
  }

  /** One turn of the validator: the record for stop `i` at the clock, then
      the rest from its departure plus the estimate. */
  lemma ValidateFromStep(plan: seq<Stop>, i: nat, clock: int)
    requires i < |plan| && plan[i].locationData.Some?
    ensures var loc := plan[i].locationData.value;
            var travel := if i < |plan| - 1 then ESTIMATED_TRAVEL_SEC else 0;
            var rest := ValidateFrom(plan, i + 1, clock + loc.visitDurationSec + travel);
            rest.Ok? ==> ValidateFrom(plan, i, clock) == Ok([TimeWindows.Validated(loc, clock, i, ROUTES_TAG)] + rest.value)
  {
  }

  /** Every validated stop is the validator's record for its house at the
      estimated clock. */
  lemma ValidatedAtEstimatedClock(plan: seq<Stop>, startTs: int)
    requires HasLocations(plan)
    ensures var r := ValidateTimeWindows(plan, startTs);
            && r.Ok?
            && forall k :: 0 <= k < |plan| ==>
                 r.value[k] == TimeWindows.Validated(Route(plan)[k], EstimatedClock(Route(plan), startTs, k), k, ROUTES_TAG)
  {
    var r := ValidateTimeWindows(plan, startTs);
    var route := Route(plan);
    ValidateFromEstimates(plan, startTs, 0, startTs);
    forall k | 0 <= k < |plan|
      ensures r.value[k] == TimeWindows.Validated(route[k], EstimatedClock(route, startTs, k), k, ROUTES_TAG)
    {
      assert EstimatedFrom(route, startTs, 0, r.value);
      assert 0 + k == k;
    }
  }

  /** The first validated stop arrives at the start, and each later one
      fifteen minutes after the previous departure. */
  lemma ValidatedArrivals(plan: seq<Stop>, startTs: int)
    requires HasLocations(plan)
    ensures var r := ValidateTimeWindows(plan, startTs);
            && r.Ok?
            && (0 < |plan| ==> r.value[0].arrival == startTs)
            && forall k :: 0 < k < |plan| ==> r.value[k].arrival == r.value[k - 1].departure + ESTIMATED_TRAVEL_SEC
  {
    var r := ValidateTimeWindows(plan, startTs);
    var route := Route(plan);
    ValidatedAtEstimatedClock(plan, startTs);
    forall k | 0 < k < |plan|
      ensures r.value[k].arrival == r.value[k - 1].departure + ESTIMATED_TRAVEL_SEC
    {
      assert r.value[k] == TimeWindows.Validated(route[k], EstimatedClock(route, startTs, k), k, ROUTES_TAG);
      assert r.value[k - 1] == TimeWindows.Validated(route[k - 1], EstimatedClock(route, startTs, k - 1), k - 1, ROUTES_TAG);
    }
  }

  /** The validated route depends only on the houses in the plan and their
      order: the provisional times from the API's legs play no part. */
  lemma ValidationIgnoresLegTimes(plan1: seq<Stop>, plan2: seq<Stop>, startTs: int)
    requires HasLocations(plan1) && HasLocations(plan2)
    requires Route(plan1) == Route(plan2)
    ensures ValidateTimeWindows(plan1, startTs) == ValidateTimeWindows(plan2, startTs)
  {
    ValidatedAtEstimatedClock(plan1, startTs);
    ValidatedAtEstimatedClock(plan2, startTs);
    assert ValidateTimeWindows(plan1, startTs).value == ValidateTimeWindows(plan2, startTs).value;
  }

  /** `optimize_route` succeeds exactly when the call returns, the response
      processes, and the plan is not empty; the result is then the validated
      plan, with the estimated clock for its times. */
  lemma OptimizeRouteSpec(
    locations: seq<Location>, start: Coord, destination: Option<Coord>, startTs: int, callApi: RoutesCall)
    ensures var call := callApi(BuildPayload(locations, start, destination, startTs));
            var r := OptimizeRoute(locations, start, destination, startTs, callApi);
            && (r.Ok? <==> call.Ok? && ProcessResponse(call.value, locations, startTs).Ok?
                              && 0 < |ProcessResponse(call.value, locations, startTs).value|)
            && (r.Ok? ==>
                  var plan := ProcessResponse(call.value, locations, startTs).value;
                  && |r.value| == |plan|
                  && r.value[0].arrival == startTs
                  && forall k :: 0 <= k < |plan| ==>
                       r.value[k] == TimeWindows.Validated(Route(plan)[k], EstimatedClock(Route(plan), startTs, k), k, ROUTES_TAG))
  {
    var call := callApi(BuildPayload(locations, start, destination, startTs));
    if call.Ok? && ProcessResponse(call.value, locations, startTs).Ok? {
      ValidatedAtEstimatedClock(ProcessResponse(call.value, locations, startTs).value, startTs);
    }
  }
}

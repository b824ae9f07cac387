/** The local fallback strategy: greedy nearest-neighbour ordering with a
    speed-model travel estimate, followed by the greedy validator. The
    great-circle distance is a parameter of the model. */
module GreedyOptimizer {
  import opened Records
  import opened Lists
  import TimeWindows

  const GREEDY_TAG := "greedy_algorithm"

  /** The travel-time floor, five minutes. */
  const MIN_TRAVEL_SEC := 300

  /** Distance in kilometres between two coordinates. */
  type Distance = (Coord, Coord) -> real

  /** Seconds to cover `distanceKm` at 40 km/h, truncated, and never below the floor. */
  function TravelEstimate(distanceKm: real): (t: int)
    ensures t >= MIN_TRAVEL_SEC
    ensures t == MIN_TRAVEL_SEC <==> distanceKm * 90.0 < (MIN_TRAVEL_SEC + 1) as real
    ensures t > MIN_TRAVEL_SEC ==> t as real <= distanceKm * 90.0 < t as real + 1.0
  {
    // d / 40 * 3600 == d * 90; truncation and floor differ only below zero,
    // where the floor of five minutes wins either way.
    var secs := (distanceKm * 90.0).Floor;
    if secs > MIN_TRAVEL_SEC then secs else MIN_TRAVEL_SEC
  }

  /** The scan of `find_nearest_neighbor` from position `i` on, `best` being
      the position of the minimum so far; only a strictly smaller distance
      replaces it. */
  function ScanNearest(current: Coord, unvisited: seq<Location>, dist: Distance, i: nat, best: nat): (k: nat)
    requires best < i <= |unvisited|
    requires forall j :: 0 <= j < i ==> dist(current, unvisited[best].coord) <= dist(current, unvisited[j].coord)
    requires forall j :: 0 <= j < best ==> dist(current, unvisited[best].coord) < dist(current, unvisited[j].coord)
    decreases |unvisited| - i
    ensures k < |unvisited|
    ensures forall j :: 0 <= j < |unvisited| ==> dist(current, unvisited[k].coord) <= dist(current, unvisited[j].coord)
    ensures forall j :: 0 <= j < k ==> dist(current, unvisited[k].coord) < dist(current, unvisited[j].coord)
  {
    if i == |unvisited| then best
    else if dist(current, unvisited[i].coord) < dist(current, unvisited[best].coord) then
      ScanNearest(current, unvisited, dist, i + 1, i)
    else
      ScanNearest(current, unvisited, dist, i + 1, best)
  }

  /** `find_nearest_neighbor`: nothing for an empty list, otherwise a location
      of minimum distance, the earliest one on ties. */
  function FindNearest(current: Coord, unvisited: seq<Location>, dist: Distance): (r: Option<Location>)
    ensures r.None? <==> |unvisited| == 0
    ensures r.Some? ==> r.value in unvisited
  {
    // The running minimum starts at infinity, so the first location is always taken.
    if |unvisited| == 0 then None else Some(unvisited[ScanNearest(current, unvisited, dist, 1, 0)])
  }

  /** The location `find_nearest_neighbor` returns is at minimum distance,
      and strictly nearer than every location listed before it. */
  lemma FindNearestIsNearest(current: Coord, unvisited: seq<Location>, dist: Distance)
    requires 0 < |unvisited|
    ensures var nearest := FindNearest(current, unvisited, dist).value;
            && (forall j :: 0 <= j < |unvisited| ==> dist(current, nearest.coord) <= dist(current, unvisited[j].coord))
            && (forall j :: 0 <= j < IndexOf(unvisited, nearest) ==> dist(current, nearest.coord) < dist(current, unvisited[j].coord))
  {
  }

  /** The record the loop appends for `nearest`, with placeholder times that
      continue the running clock. */
  function PlaceholderStop(nearest: Location, clock: int, travel: int, order: nat): Stop {
    Stop(
      address := nearest.house.address,
      arrival := clock + travel,
      departure := clock + travel + nearest.visitDurationSec,
      originalOrder := nearest.originalIndex,
      optimizedOrder := Some(order),
      violation := Some(false),
      methodTag := Some(GREEDY_TAG),
      locationData := Some(nearest),
      travelDurationSec := Some(travel))
  }

  /** The `while unvisited_locations` loop of `optimize_route`: pick the nearest,
      append its stop, move there, advance the clock, remove it. */
  function GreedyLoop(current: Coord, unvisited: seq<Location>, clock: int, plan: seq<Stop>, dist: Distance): (r: seq<Stop>)
    decreases |unvisited|
    ensures |r| == |plan| + |unvisited|
  {
    match FindNearest(current, unvisited, dist)
    case None => plan
    case Some(nearest) =>
      var travel := TravelEstimate(dist(current, nearest.coord));
      GreedyLoop(
        nearest.coord,
        RemoveFirst(unvisited, nearest),
        clock + travel + nearest.visitDurationSec,
        plan + [PlaceholderStop(nearest, clock, travel, |plan|)],
        dist)
  }

  /** `optimize_route`: the greedy loop from the start, then the greedy validator.
      The destination plays no part. */
  function OptimizeRoute(locations: seq<Location>, start: Coord, destination: Option<Coord>, startTs: int, dist: Distance)
    : (r: Attempt<seq<Stop>>)
    ensures r.Ok? && |r.value| == |locations|
    ensures forall k :: 0 <= k < |r.value| ==>
              r.value[k].optimizedOrder == Some(k) && r.value[k].methodTag == Some(GREEDY_TAG)
  {
    var plan := GreedyLoop(start, locations, startTs, [], dist);
    GreedyLoopSpec(locations, start, startTs, dist);
    ValidateTimeWindows(plan, startTs)
  }

  /** The greedy module's own `validate_time_windows`: the clock of
      `compute_schedule_with_time_windows`, with order `i` and the greedy tag; a stop without location data
      raises KeyError. */
  function ValidateTimeWindows(plan: seq<Stop>, startTs: int): (r: Attempt<seq<Stop>>)
    ensures r.Ok? <==> HasLocations(plan)
    ensures r.Ok? ==> |r.value| == |plan|
    ensures r.Ok? ==> forall k :: 0 <= k < |plan| ==>
              r.value[k].optimizedOrder == Some(k) && r.value[k].methodTag == Some(GREEDY_TAG)
  {
    ValidateFrom(plan, 0, startTs)
  }

  function ValidateFrom(plan: seq<Stop>, i: nat, clock: int): (r: Attempt<seq<Stop>>)
    requires i <= |plan|
    decreases |plan| - i
    ensures r.Ok? <==> forall k :: i <= k < |plan| ==> plan[k].locationData.Some?
    ensures r.Ok? ==> |r.value| == |plan| - i
    ensures r.Ok? ==> forall k :: 0 <= k < |r.value| ==>
              r.value[k].optimizedOrder == Some(i + k) && r.value[k].methodTag == Some(GREEDY_TAG)
  {
    if i == |plan| then Ok([])
    else
      match plan[i].locationData
      case None => Raised("'location_data'")
      case Some(loc) =>
        var arrival := clock + plan[i].travelDurationSec.GetOr(0);
        match ValidateFrom(plan, i + 1, arrival + loc.visitDurationSec)
        case Raised(m) => Raised(m)
        case Ok(rest) => Ok([TimeWindows.Validated(loc, arrival, i, GREEDY_TAG)] + rest)
  }

  // ---------------------------------------------------------------------------
  // The greedy validator is `compute_schedule_with_time_windows` under another tag.

  /** On a plan whose stops all carry location data and whose stored orders
      are their positions, the greedy validator computes exactly what
      `compute_schedule_with_time_windows` does with the greedy tag. */
  lemma GreedyValidatorMatchesComputeSchedule(plan: seq<Stop>, startTs: int)
    requires HasLocations(plan)
    requires forall k :: 0 <= k < |plan| ==> plan[k].optimizedOrder.GetOr(k) == k
    ensures ValidateTimeWindows(plan, startTs) == Ok(TimeWindows.ComputeSchedule(plan, startTs, GREEDY_TAG))
  {
    ValidateFromMatches(plan, 0, startTs);
  }

  lemma {:induction false} ValidateFromMatches(plan: seq<Stop>, i: nat, clock: int)
    requires i <= |plan|
    requires HasLocations(plan)
    requires forall k :: 0 <= k < |plan| ==> plan[k].optimizedOrder.GetOr(k) == k
    decreases |plan| - i
    ensures ValidateFrom(plan, i, clock) == Ok(TimeWindows.ScheduleFrom(plan, i, clock, GREEDY_TAG))
  {
    if i < |plan| {
      var loc := plan[i].locationData.value;
      var arrival := clock + plan[i].travelDurationSec.GetOr(0);
      ValidateFromMatches(plan, i + 1, arrival + loc.visitDurationSec);
    }
  }

  // ---------------------------------------------------------------------------
  // What the loop builds.

  /** Where the vehicle stands before stop `k`: the start, or stop `k - 1`. */
  function PrevCoord(start: Coord, route: seq<Location>, k: nat): Coord
    requires k <= |route|
  {
    if k == 0 then start else route[k - 1].coord
  }

  /** The running clock before stop `k`: the start, or stop `k - 1`'s departure. */
  function PrevDeparture(plan: seq<Stop>, startTs: int, k: nat): int
    requires k <= |plan|
  {
    if k == 0 then startTs else plan[k - 1].departure
  }

  /** Stop `k` is the placeholder record for its location: travel estimated
      from where stop `k - 1` left off, times continuing the clock, order `k`. */
  ghost predicate Placed(start: Coord, startTs: int, dist: Distance, plan: seq<Stop>, k: nat)
    requires HasLocations(plan) && k < |plan|
  {
    var route := Route(plan);
    plan[k] == PlaceholderStop(
      route[k], PrevDeparture(plan, startTs, k), TravelEstimate(dist(PrevCoord(start, route, k), route[k].coord)), k)
  }

  /** Every stop of the plan is placed. */
  ghost predicate AllPlaced(start: Coord, startTs: int, dist: Distance, plan: seq<Stop>) {
    HasLocations(plan) && forall k :: 0 <= k < |plan| ==> Placed(start, startTs, dist, plan, k)
  }

  /** Seen from where the route approaches stop `k`, stop `k` is no farther than `l`. */
  ghost predicate NoFartherThan(start: Coord, dist: Distance, route: seq<Location>, k: nat, l: Location)
    requires k < |route|
  {
    var from := PrevCoord(start, route, k);
    dist(from, route[k].coord) <= dist(from, l.coord)
  }

  /** Appending a stop with location data appends its location to the route. */
  lemma AppendToRoute(plan: seq<Stop>, s: Stop)
    requires HasLocations(plan) && s.locationData.Some?
    ensures HasLocations(plan + [s])
    ensures Route(plan + [s]) == Route(plan) + [s.locationData.value]
  {
    assert HasLocations(plan + [s]);
    assert Route(plan + [s]) == Route(plan) + [s.locationData.value];
  }

  /** Between them, the route so far and the unvisited list hold each input
      location exactly as often as the input does. */
  ghost predicate Accounted(locations: seq<Location>, plan: seq<Stop>, unvisited: seq<Location>) {
    HasLocations(plan) && multiset(Route(plan)) + multiset(unvisited) == multiset(locations)
  }

  /** Moving one location from the unvisited list to the plan keeps every
      input location accounted for. */
  lemma MoveToRoute(locations: seq<Location>, plan: seq<Stop>, unvisited: seq<Location>, nearest: Location, s: Stop)
    requires Accounted(locations, plan, unvisited)
    requires nearest in unvisited && s.locationData == Some(nearest)
    ensures Accounted(locations, plan + [s], RemoveFirst(unvisited, nearest))
  {
    AppendToRoute(plan, s);
    var route := Route(plan);
    assert multiset(route + [nearest]) == multiset(route) + multiset{nearest};
    RemoveFirstCounts(unvisited, nearest);
    assert multiset(RemoveFirst(unvisited, nearest)) + multiset{nearest} == multiset(unvisited);
  }

  /** The loop moves every location from the unvisited list to the route exactly once. */
  lemma {:induction false} LoopVisitsEachOnce(
    locations: seq<Location>, dist: Distance, current: Coord, unvisited: seq<Location>, clock: int, plan: seq<Stop>)
    requires Accounted(locations, plan, unvisited)
    decreases |unvisited|
    ensures Accounted(locations, GreedyLoop(current, unvisited, clock, plan, dist), [])
  {
    match FindNearest(current, unvisited, dist)
    case None =>
      assert unvisited == [];
    case Some(nearest) =>
      var travel := TravelEstimate(dist(current, nearest.coord));
      var s := PlaceholderStop(nearest, clock, travel, |plan|);
      MoveToRoute(locations, plan, unvisited, nearest, s);
      LoopVisitsEachOnce(locations, dist, nearest.coord, RemoveFirst(unvisited, nearest),
                         clock + travel + nearest.visitDurationSec, plan + [s]);
  }

  /** Every stop of the plan is placed, and the loop stands at the last stop's
      location and departure. */
  ghost predicate PlacedSoFar(start: Coord, startTs: int, dist: Distance, current: Coord, clock: int, plan: seq<Stop>) {
    && AllPlaced(start, startTs, dist, plan)
    && current == PrevCoord(start, Route(plan), |plan|)
    && clock == PrevDeparture(plan, startTs, |plan|)
  }

  /** One turn of the loop appends a placed stop and leaves the earlier ones placed. */
  lemma PlacementStep(
    start: Coord, startTs: int, dist: Distance, current: Coord, clock: int, plan: seq<Stop>, nearest: Location, s: Stop)
    requires PlacedSoFar(start, startTs, dist, current, clock, plan)
    requires s == PlaceholderStop(nearest, clock, TravelEstimate(dist(current, nearest.coord)), |plan|)
    ensures PlacedSoFar(start, startTs, dist, nearest.coord, s.departure, plan + [s])
  {
    AppendToRoute(plan, s);
    var plan' := plan + [s];
    var route := Route(plan);
    var route' := Route(plan');
    forall k | 0 <= k < |plan'|
      ensures Placed(start, startTs, dist, plan', k)
    {
      if k < |plan| {
        assert Placed(start, startTs, dist, plan, k);
        assert PrevCoord(start, route', k) == PrevCoord(start, route, k);
        assert PrevDeparture(plan', startTs, k) == PrevDeparture(plan, startTs, k);
      } else {
        assert PrevCoord(start, route', k) == current;
      }
    }
    assert nearest.coord == PrevCoord(start, route', |plan'|);
  }

  /** Every stop the loop appends is the placeholder record for its location. */
  lemma {:induction false} LoopPlacesStops(
    start: Coord, startTs: int, dist: Distance, current: Coord, unvisited: seq<Location>, clock: int, plan: seq<Stop>)
    requires PlacedSoFar(start, startTs, dist, current, clock, plan)
    decreases |unvisited|
    ensures AllPlaced(start, startTs, dist, GreedyLoop(current, unvisited, clock, plan, dist))
  {
    match FindNearest(current, unvisited, dist)
    case None =>
    case Some(nearest) =>
      var travel := TravelEstimate(dist(current, nearest.coord));
      var s := PlaceholderStop(nearest, clock, travel, |plan|);
      PlacementStep(start, startTs, dist, current, clock, plan, nearest, s);
      LoopPlacesStops(start, startTs, dist, nearest.coord, RemoveFirst(unvisited, nearest), s.departure, plan + [s]);
  }

  /** No stop of the plan is farther from where it was approached than any later stop. */
  ghost predicate NearestSoFar(start: Coord, dist: Distance, plan: seq<Stop>) {
    && HasLocations(plan)
    && forall k, j :: 0 <= k <= j < |plan| ==> NoFartherThan(start, dist, Route(plan), k, Route(plan)[j])
  }

  /** No stop of the plan is farther from where it was approached than any location in `unvisited`. */
  ghost predicate NoneNearerLeft(start: Coord, dist: Distance, plan: seq<Stop>, unvisited: seq<Location>) {
    && HasLocations(plan)
    && forall k, i :: 0 <= k < |plan| && 0 <= i < |unvisited| ==> NoFartherThan(start, dist, Route(plan), k, unvisited[i])
  }

  /** The plan so far chose each stop as the nearest one left, and the loop
      stands at the last stop's location. */
  ghost predicate ChoosingSoFar(start: Coord, dist: Distance, current: Coord, plan: seq<Stop>, unvisited: seq<Location>) {
    && NearestSoFar(start, dist, plan)
    && NoneNearerLeft(start, dist, plan, unvisited)
    && current == PrevCoord(start, Route(plan), |plan|)
  }

  /** After one turn, no stop is farther than any location still unvisited. */
  lemma NoneNearerLeftStep(
    start: Coord, dist: Distance, current: Coord, unvisited: seq<Location>, plan: seq<Stop>, nearest: Location, s: Stop)
    requires NoneNearerLeft(start, dist, plan, unvisited)
    requires current == PrevCoord(start, Route(plan), |plan|)
    requires FindNearest(current, unvisited, dist) == Some(nearest)
    requires s.locationData == Some(nearest)
    ensures NoneNearerLeft(start, dist, plan + [s], RemoveFirst(unvisited, nearest))
  {
    AppendToRoute(plan, s);
    var route := Route(plan);
    var route' := Route(plan + [s]);
    var unvisited' := RemoveFirst(unvisited, nearest);
    var n := IndexOf(unvisited, nearest);
    RemoveFirstShifts(unvisited, nearest);
    FindNearestIsNearest(current, unvisited, dist);
    forall k, i | 0 <= k < |route'| && 0 <= i < |unvisited'|
      ensures NoFartherThan(start, dist, route', k, unvisited'[i])
    {
      var i0 := if i < n then i else i + 1;
      assert unvisited'[i] == unvisited[i0];
      if k < |route| {
        assert NoFartherThan(start, dist, route, k, unvisited[i0]);
        assert PrevCoord(start, route', k) == PrevCoord(start, route, k);
      } else {
        assert PrevCoord(start, route', k) == current;
      }
    }
  }

  /** After one turn, no stop is farther than any later stop, the new one included. */
  lemma NearestSoFarStep(start: Coord, dist: Distance, unvisited: seq<Location>, plan: seq<Stop>, nearest: Location, s: Stop)
    requires NearestSoFar(start, dist, plan) && NoneNearerLeft(start, dist, plan, unvisited)
    requires nearest in unvisited
    requires s.locationData == Some(nearest)
    ensures NearestSoFar(start, dist, plan + [s])
  {
    AppendToRoute(plan, s);
    var route := Route(plan);
    var route' := Route(plan + [s]);
    var n := IndexOf(unvisited, nearest);
    forall k, j | 0 <= k <= j < |route'|
      ensures NoFartherThan(start, dist, route', k, route'[j])
    {
      if j < |route| {
        assert NoFartherThan(start, dist, route, k, route[j]);
        assert PrevCoord(start, route', k) == PrevCoord(start, route, k);
      } else if k < |route| {
        assert route'[j] == unvisited[n];
        assert NoFartherThan(start, dist, route, k, unvisited[n]);
        assert PrevCoord(start, route', k) == PrevCoord(start, route, k);
      }
    }
  }

  /** One turn of the loop keeps every stop no farther than any later stop
      and any location still unvisited. */
  lemma NearestStep(
    start: Coord, dist: Distance, current: Coord, unvisited: seq<Location>, plan: seq<Stop>, nearest: Location, s: Stop)
    requires ChoosingSoFar(start, dist, current, plan, unvisited)
    requires FindNearest(current, unvisited, dist) == Some(nearest)
    requires s.locationData == Some(nearest)
    ensures ChoosingSoFar(start, dist, nearest.coord, plan + [s], RemoveFirst(unvisited, nearest))
  {
    NoneNearerLeftStep(start, dist, current, unvisited, plan, nearest, s);
    NearestSoFarStep(start, dist, unvisited, plan, nearest, s);
    AppendToRoute(plan, s);
  }

  /** Each stop the loop appends is no farther from the previous position than
      any location it has yet to visit. */
  lemma {:induction false} LoopChoosesNearest(
    start: Coord, dist: Distance, current: Coord, unvisited: seq<Location>, clock: int, plan: seq<Stop>)
    requires ChoosingSoFar(start, dist, current, plan, unvisited)
    decreases |unvisited|
    ensures NearestSoFar(start, dist, GreedyLoop(current, unvisited, clock, plan, dist))
  {
    match FindNearest(current, unvisited, dist)
    case None =>
    case Some(nearest) =>
      var travel := TravelEstimate(dist(current, nearest.coord));
      var s := PlaceholderStop(nearest, clock, travel, |plan|);
      NearestStep(start, dist, current, unvisited, plan, nearest, s);
      LoopChoosesNearest(start, dist, nearest.coord, RemoveFirst(unvisited, nearest),
                         clock + travel + nearest.visitDurationSec, plan + [s]);
  }

  /** The whole loop: one placed stop per location, every location exactly
      once, and no stop farther from its predecessor than any later stop. */
  lemma GreedyLoopSpec(locations: seq<Location>, start: Coord, startTs: int, dist: Distance)
    ensures var plan := GreedyLoop(start, locations, startTs, [], dist);
            && |plan| == |locations|
            && HasLocations(plan)
            && multiset(Route(plan)) == multiset(locations)
            && AllPlaced(start, startTs, dist, plan)
            && NearestSoFar(start, dist, plan)
  {
    assert Route([]) == [];
    assert Accounted(locations, [], locations);
    LoopVisitsEachOnce(locations, dist, start, locations, startTs, []);
    assert PlacedSoFar(start, startTs, dist, start, startTs, []);
    LoopPlacesStops(start, startTs, dist, start, locations, startTs, []);
    assert ChoosingSoFar(start, dist, start, [], locations);
    LoopChoosesNearest(start, dist, start, locations, startTs, []);
  }

  // ---------------------------------------------------------------------------
  // Properties of the loop's plan, one by one.

  /** The locations still unvisited before step `k` are exactly the route's stops from `k` on. */
  lemma RemainingAreLaterStops(locations: seq<Location>, route: seq<Location>, k: nat)
    requires multiset(route) == multiset(locations)
    requires k <= |route|
    ensures multiset(locations) - multiset(route[..k]) == multiset(route[k..])
  {
    assert route == route[..k] + route[k..];
  }

  /** The first stop is a location nearest to the start. */
  lemma FirstStopNearest(locations: seq<Location>, start: Coord, startTs: int, dist: Distance)
    requires 0 < |locations|
    ensures var plan := GreedyLoop(start, locations, startTs, [], dist);
            && HasLocations(plan)
            && forall i :: 0 <= i < |locations| ==>
                 dist(start, Route(plan)[0].coord) <= dist(start, locations[i].coord)
  {
    var plan := GreedyLoop(start, locations, startTs, [], dist);
    GreedyLoopSpec(locations, start, startTs, dist);
    var route := Route(plan);
    forall i | 0 <= i < |locations|
      ensures dist(start, route[0].coord) <= dist(start, locations[i].coord)
    {
      var l := locations[i];
      assert l in multiset(locations);
      assert l in multiset(route);
      var j :| 0 <= j < |route| && route[j] == l;
      assert NoFartherThan(start, dist, route, 0, route[j]);
    }
  }

  /** Every later stop is a location nearest to the previous stop among
      those not yet visited. */
  lemma LaterStopsNearest(locations: seq<Location>, start: Coord, startTs: int, dist: Distance, k: nat)
    requires 0 < k < |locations|
    ensures var plan := GreedyLoop(start, locations, startTs, [], dist);
            && HasLocations(plan)
            && var route := Route(plan);
               forall l :: l in multiset(locations) - multiset(route[..k]) ==>
                 dist(route[k - 1].coord, route[k].coord) <= dist(route[k - 1].coord, l.coord)
  {
    var plan := GreedyLoop(start, locations, startTs, [], dist);
    GreedyLoopSpec(locations, start, startTs, dist);
    var route := Route(plan);
    RemainingAreLaterStops(locations, route, k);
    forall l | l in multiset(locations) - multiset(route[..k])
      ensures dist(route[k - 1].coord, route[k].coord) <= dist(route[k - 1].coord, l.coord)
    {
      assert l in route[k..];
      var j :| k <= j < |route| && route[j] == l;
      assert NoFartherThan(start, dist, route, k, route[j]);
    }
  }

  /** The loop's stops are numbered 0 .. N-1 in route order, carry the greedy
      tag, and take at least five minutes of travel each. */
  lemma LoopOrderAndTravel(locations: seq<Location>, start: Coord, startTs: int, dist: Distance)
    ensures var plan := GreedyLoop(start, locations, startTs, [], dist);
            forall k :: 0 <= k < |plan| ==>
              && plan[k].optimizedOrder == Some(k)
              && plan[k].methodTag == Some(GREEDY_TAG)
              && plan[k].travelDurationSec.Some?
              && plan[k].travelDurationSec.value >= MIN_TRAVEL_SEC
  {
    var plan := GreedyLoop(start, locations, startTs, [], dist);
    GreedyLoopSpec(locations, start, startTs, dist);
    forall k | 0 <= k < |plan|
      ensures plan[k].optimizedOrder == Some(k) && plan[k].methodTag == Some(GREEDY_TAG)
      ensures plan[k].travelDurationSec.Some? && plan[k].travelDurationSec.value >= MIN_TRAVEL_SEC
    {
      assert Placed(start, startTs, dist, plan, k);
    }
  }

  /** A plan whose placeholder times chain: each arrival is the previous
      departure (the start for the first stop) plus the stop's travel, each
      departure the arrival plus the visit. */
  ghost predicate Chained(plan: seq<Stop>, startTs: int) {
    HasLocations(plan) && forall k :: 0 <= k < |plan| ==> ChainedAt(plan, startTs, k)
  }

  ghost predicate ChainedAt(plan: seq<Stop>, startTs: int, k: nat)
    requires HasLocations(plan) && k < |plan|
  {
    && plan[k].travelDurationSec.Some?
    && plan[k].arrival == PrevDeparture(plan, startTs, k) + plan[k].travelDurationSec.value
    && plan[k].departure == plan[k].arrival + plan[k].locationData.value.visitDurationSec
  }

  /** The loop's placeholder times chain. */
  lemma LoopPlanChained(locations: seq<Location>, start: Coord, startTs: int, dist: Distance)
    ensures Chained(GreedyLoop(start, locations, startTs, [], dist), startTs)
  {
    var plan := GreedyLoop(start, locations, startTs, [], dist);
    GreedyLoopSpec(locations, start, startTs, dist);
    forall k | 0 <= k < |plan|
      ensures ChainedAt(plan, startTs, k)
    {
      assert Placed(start, startTs, dist, plan, k);
    }
  }

  /** Re-validating a chained plan reproduces its placeholder times, keeps
      each stop's original index, and flags exactly the arrivals outside
      their windows. */
  lemma ValidationReproducesPlaceholders(plan: seq<Stop>, startTs: int)
    requires Chained(plan, startTs)
    ensures var r := ValidateTimeWindows(plan, startTs);
            && r.Ok?
            && forall k :: 0 <= k < |plan| ==>
                 var loc := plan[k].locationData.value;
                 && r.value[k].arrival == plan[k].arrival
                 && r.value[k].departure == plan[k].departure
                 && r.value[k].originalOrder == loc.originalIndex
                 && r.value[k].violation == Some(plan[k].arrival < loc.startTs || plan[k].arrival > loc.endTs)
  {
    ValidateFromReproduces(plan, startTs, 0);
    var r := ValidateTimeWindows(plan, startTs);
    forall k | 0 <= k < |plan|
      ensures var loc := plan[k].locationData.value;
              && r.value[k].arrival == plan[k].arrival
              && r.value[k].departure == plan[k].departure
              && r.value[k].originalOrder == loc.originalIndex
              && r.value[k].violation == Some(plan[k].arrival < loc.startTs || plan[k].arrival > loc.endTs)
    {
      assert ReproducesFrom(plan, 0, r.value);
      assert 0 + k == k;
      assert ChainedAt(plan, startTs, k);
      assert r.value[k] == TimeWindows.Validated(plan[k].locationData.value, plan[k].arrival, k, GREEDY_TAG);
    }
  }

  /** `out` holds, from position `i` of the plan on, the validator's record
      for each stop at the stop's own placeholder arrival. */
  ghost predicate ReproducesFrom(plan: seq<Stop>, i: nat, out: seq<Stop>)
    requires HasLocations(plan) && i + |out| <= |plan|
  {
    forall k :: 0 <= k < |out| ==>
      out[k] == TimeWindows.Validated(plan[i + k].locationData.value, plan[i + k].arrival, i + k, GREEDY_TAG)
  }

  lemma ReproducesCons(plan: seq<Stop>, i: nat, rest: seq<Stop>)
    requires HasLocations(plan) && i + 1 + |rest| <= |plan|
    requires ReproducesFrom(plan, i + 1, rest)
    ensures ReproducesFrom(plan, i, [TimeWindows.Validated(plan[i].locationData.value, plan[i].arrival, i, GREEDY_TAG)] + rest)
  {
    var out := [TimeWindows.Validated(plan[i].locationData.value, plan[i].arrival, i, GREEDY_TAG)] + rest;
    forall k | 1 <= k < |out|
      ensures out[k] == TimeWindows.Validated(plan[i + k].locationData.value, plan[i + k].arrival, i + k, GREEDY_TAG)
    {
      assert out[k] == rest[k - 1];
      assert (i + 1) + (k - 1) == i + k;
    }
  }

  lemma {:induction false} ValidateFromReproduces(plan: seq<Stop>, startTs: int, i: nat)
    requires Chained(plan, startTs)
    requires i <= |plan|
    decreases |plan| - i
    ensures var r := ValidateFrom(plan, i, PrevDeparture(plan, startTs, i));
            r.Ok? && ReproducesFrom(plan, i, r.value)
  {
    if i < |plan| {
      ValidateFromReproduces(plan, startTs, i + 1);
      var loc := plan[i].locationData.value;
      assert ChainedAt(plan, startTs, i);
      assert PrevDeparture(plan, startTs, i + 1) == plan[i].arrival + loc.visitDurationSec;
      var rest := ValidateFrom(plan, i + 1, PrevDeparture(plan, startTs, i + 1)).value;
      ReproducesCons(plan, i, rest);
      assert PrevDeparture(plan, startTs, i) + plan[i].travelDurationSec.GetOr(0) == plan[i].arrival;
      assert ValidateFrom(plan, i, PrevDeparture(plan, startTs, i))
          == Ok([TimeWindows.Validated(loc, plan[i].arrival, i, GREEDY_TAG)] + rest);
    }
  }

  /** `optimize_route` end to end: the validated route reproduces the loop's
      placeholder times and visits every location exactly once. */
  lemma OptimizeRouteSpec(locations: seq<Location>, start: Coord, destination: Option<Coord>, startTs: int, dist: Distance)
    ensures var plan := GreedyLoop(start, locations, startTs, [], dist);
            var r := OptimizeRoute(locations, start, destination, startTs, dist);
            && HasLocations(plan)
            && multiset(Route(plan)) == multiset(locations)
            && r.Ok?
            && forall k :: 0 <= k < |plan| ==>
                 && r.value[k].arrival == plan[k].arrival
                 && r.value[k].departure == plan[k].departure
                 && r.value[k].originalOrder == Route(plan)[k].originalIndex
  {
    GreedyLoopSpec(locations, start, startTs, dist);
    LoopPlanChained(locations, start, startTs, dist);
    ValidationReproducesPlaceholders(GreedyLoop(start, locations, startTs, [], dist), startTs);
  }
}

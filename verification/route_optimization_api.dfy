/** The Google Route Optimization API strategy: a tour-optimisation request
    with one shipment per house and one vehicle, and the conversion of the
    first returned route's visits into stops. The OAuth token and the HTTP
    call are parameters. */
module RouteOptimizationApi {
  import opened Records
  import opened Lists
  import opened Text

  const TOUR_TAG := "route_optimization_api"

  const NO_PLAN_MESSAGE := "No route plan generated from Route Optimization API"

  const NO_TOKEN_MESSAGE := "No OAuth token available for Route Optimization API"

  /** The ValueError text CPython 3.12 gives for `min()` of an empty iterable;
      CPython 3.11 and earlier word it "min() arg is an empty sequence". */
  const EMPTY_MIN_MESSAGE := "min() iterable argument is empty"

  /** A delivery time window; times are epoch seconds rather than ISO-8601 text. */
  datatype TimeWindow = TimeWindow(startTime: int, endTime: int)

  datatype Delivery = Delivery(arrivalLocation: Coord, timeWindows: seq<TimeWindow>)

  datatype Shipment = Shipment(deliveries: seq<Delivery>, shipmentLabel: string, penaltyCost: int)

  datatype Vehicle = Vehicle(
    startLocation: Coord, endLocation: Coord, travelMode: int, avoidTolls: bool, avoidHighways: bool)

  /** The request body of `optimizeTours`. */
  datatype TourPayload = TourPayload(
    parent: string,
    globalStartTime: int,
    globalEndTime: int,
    shipments: seq<Shipment>,
    vehicles: seq<Vehicle>,
    searchMode: int,
    timeout: string)

  /** One visit of the returned route; a missing key is `None`. The start
      time is already read from its ISO-8601 text. */
  datatype Visit = Visit(shipmentIndex: Option<int>, startTime: Option<int>)

  datatype TourRoute = TourRoute(visits: Option<seq<Visit>>)

  datatype TourResponse = TourResponse(routes: Option<seq<TourRoute>>)

  /** The HTTP POST of `call_api`, which may raise. */
  type TourPost = TourPayload -> Attempt<TourResponse>

  /** The shipment for house `i`: one delivery at the house within its window. */
  function ShipmentFor(loc: Location, i: nat): Shipment {
    Shipment(
      deliveries := [Delivery(loc.coord, [TimeWindow(loc.startTs, loc.endTs)])],
      shipmentLabel := "House " + NatToString(i + 1),
      penaltyCost := 0)
  }

  /** The earliest window start among the houses. */
  function MinStart(locations: seq<Location>): (m: int)
    requires 0 < |locations|
    ensures forall i :: 0 <= i < |locations| ==> m <= locations[i].startTs
    ensures exists i :: 0 <= i < |locations| && m == locations[i].startTs
  {
    if |locations| == 1 then locations[0].startTs
    else
      var rest := MinStart(locations[1..]);
      assert forall i :: 1 <= i < |locations| ==> locations[i] == locations[1..][i - 1];
      if locations[0].startTs <= rest then locations[0].startTs else rest
  }

  /** The latest window end among the houses. */
  function MaxEnd(locations: seq<Location>): (m: int)
    requires 0 < |locations|
    ensures forall i :: 0 <= i < |locations| ==> locations[i].endTs <= m
    ensures exists i :: 0 <= i < |locations| && m == locations[i].endTs
  {
    if |locations| == 1 then locations[0].endTs
    else
      var rest := MaxEnd(locations[1..]);
      assert forall i :: 1 <= i < |locations| ==> locations[i] == locations[1..][i - 1];
      if locations[0].endTs >= rest then locations[0].endTs else rest
  }

  /** `build_payload`: a shipment per house in input order, one vehicle from
      the start to the destination (or back to the start), and a global
      window from the earliest start to the latest end, whose `min()` raises
      on an empty list. The start time plays no part. */
  function BuildPayload(locations: seq<Location>, start: Coord, destination: Option<Coord>, projectId: string)
    : (r: Attempt<TourPayload>)
    ensures r.Ok? <==> 0 < |locations|
    ensures r.Raised? ==> r.message == EMPTY_MIN_MESSAGE
    ensures r.Ok? ==> |r.value.shipments| == |locations| && |r.value.vehicles| == 1
    ensures r.Ok? ==> forall i :: 0 <= i < |locations| ==> r.value.shipments[i] == ShipmentFor(locations[i], i)
    ensures r.Ok? ==> r.value.vehicles[0].startLocation == start
    ensures r.Ok? && destination.None? ==> r.value.vehicles[0].endLocation == start
    ensures r.Ok? && destination.Some? ==> r.value.vehicles[0].endLocation == destination.value
  {
    if |locations| == 0 then Raised(EMPTY_MIN_MESSAGE)
    else
      var vehicle := Vehicle(start, destination.GetOr(start), 1, false, false);
      Ok(TourPayload(
        parent := "projects/" + projectId,
        globalStartTime := MinStart(locations),
        globalEndTime := MaxEnd(locations),
        shipments := seq(|locations|, i requires 0 <= i < |locations| => ShipmentFor(locations[i], i)),
        vehicles := [vehicle],
        searchMode := 1,
        timeout := "60s"))
  }

  /** `call_api`: refuses to post without an OAuth token. */
  function CallApi(token: Option<string>, post: TourPost, payload: TourPayload): (r: Attempt<TourResponse>)
    ensures token.None? || token.value == "" ==> r == Raised(NO_TOKEN_MESSAGE)
    ensures token.Some? && token.value != "" ==> r == post(payload)
  {
    if token.None? || token.value == "" then Raised(NO_TOKEN_MESSAGE) else post(payload)
  }

  /** A visit the loop converts: it names a shipment index below the number
      of houses (negative ones included). */
  predicate Kept(visit: Visit, n: nat) {
    visit.shipmentIndex.Some? && visit.shipmentIndex.value < n
  }

  /** A kept visit converts without raising: its index is a valid list index
      and it has a start time. */
  predicate Readable(visit: Visit, n: nat) {
    Kept(visit, n) ==> PyIndex(n, visit.shipmentIndex.value).Some? && visit.startTime.Some?
  }

  /** The number of kept visits from position `i` on. */
  function CountKept(visits: seq<Visit>, n: nat, i: nat): (c: nat)
    requires i <= |visits|
    decreases |visits| - i
    ensures c <= |visits| - i
    ensures c == 0 <==> forall j :: i <= j < |visits| ==> !Kept(visits[j], n)
  {
    if i == |visits| then 0 else (if Kept(visits[i], n) then 1 else 0) + CountKept(visits, n, i + 1)
  }

  /** The stop a visit at position `p` becomes: arrival at the visit's start,
      order `p`, never flagged. */
  function TourStop(loc: Location, arrival: int, p: nat): Stop {
    Stop(
      address := loc.house.address,
      arrival := arrival,
      departure := arrival + loc.visitDurationSec,
      originalOrder := loc.originalIndex,
      optimizedOrder := Some(p),
      violation := Some(false),
      methodTag := Some(TOUR_TAG),
      locationData := None,
      travelDurationSec := None)
  }

  /** The `for i, visit in enumerate(visits)` loop from position `i` on. */
  function ProcessVisits(visits: seq<Visit>, locations: seq<Location>, i: nat): (r: Attempt<seq<Stop>>)
    requires i <= |visits|
    decreases |visits| - i
    ensures r.Ok? <==> forall j :: i <= j < |visits| ==> Readable(visits[j], |locations|)
    ensures r.Ok? ==> |r.value| == CountKept(visits, |locations|, i)
  {
    if i == |visits| then Ok([])
    else
      var visit := visits[i];
      if !Kept(visit, |locations|) then ProcessVisits(visits, locations, i + 1)
      else
        match PyIndex(|locations|, visit.shipmentIndex.value)
        case None => Raised("list index out of range")
        case Some(j) =>
          match visit.startTime
          case None => Raised("'startTime'")
          case Some(t) =>
            match ProcessVisits(visits, locations, i + 1)
            case Raised(m) => Raised(m)
            case Ok(rest) => Ok([TourStop(locations[j], t, i)] + rest)
  }

  /** The visits of the first route, or none when it has no `visits` key. */
  function RouteVisits(raw: TourResponse): seq<Visit>
    requires raw.routes.Some? && 0 < |raw.routes.value|
  {
    raw.routes.value[0].visits.GetOr([])
  }

  /** `process_response`: nothing when the response has no routes; otherwise
      one stop per kept visit of the first route. */
  function ProcessResponse(raw: TourResponse, locations: seq<Location>): (r: Attempt<seq<Stop>>)
    ensures raw.routes.None? || |raw.routes.value| == 0 ==> r == Ok([])
    ensures raw.routes.Some? && 0 < |raw.routes.value| ==> r == ProcessVisits(RouteVisits(raw), locations, 0)
  {
    if raw.routes.None? || |raw.routes.value| == 0 then Ok([])
    else ProcessVisits(RouteVisits(raw), locations, 0)
  }

  /** `optimize_route` of the Route Optimization module: build, call, process,
      refuse an empty plan. */
  function OptimizeRoute(
    locations: seq<Location>, start: Coord, destination: Option<Coord>, startTs: int,
    projectId: string, token: Option<string>, post: TourPost)
    : (r: Attempt<seq<Stop>>)
    ensures r.Ok? ==> 0 < |r.value|
  {
    match BuildPayload(locations, start, destination, projectId)
    case Raised(m) => Raised(m)
    case Ok(payload) =>
      match CallApi(token, post, payload)
      case Raised(m) => Raised(m)
      case Ok(raw) =>
        match ProcessResponse(raw, locations)
        case Raised(m) => Raised(m)
        case Ok(plan) => if |plan| == 0 then Raised(NO_PLAN_MESSAGE) else Ok(plan)
  }

  // ---------------------------------------------------------------------------
  // The request.

  /** Every shipment's window lies inside the global window, and the global
      window's ends are a house's start and a house's end. */
  lemma GlobalWindowCoversShipments(locations: seq<Location>, start: Coord, destination: Option<Coord>, projectId: string)
    requires 0 < |locations|
    ensures var p := BuildPayload(locations, start, destination, projectId).value;
            && (forall i :: 0 <= i < |p.shipments| ==>
                  var w := p.shipments[i].deliveries[0].timeWindows[0];
                  p.globalStartTime <= w.startTime && w.endTime <= p.globalEndTime)
            && (exists i :: 0 <= i < |locations| && p.globalStartTime == locations[i].startTs)
            && (exists i :: 0 <= i < |locations| && p.globalEndTime == locations[i].endTs)
  {
    var p := BuildPayload(locations, start, destination, projectId).value;
    forall i | 0 <= i < |p.shipments|
      ensures var w := p.shipments[i].deliveries[0].timeWindows[0];
              p.globalStartTime <= w.startTime && w.endTime <= p.globalEndTime
    {
      assert p.shipments[i] == ShipmentFor(locations[i], i);
    }
  }

  /** The label of shipment `i` names house `i + 1`: the text after "House "
      parses back to `i + 1`, so no two shipments share a label. */
  lemma ShipmentLabelNamesHouse(loc: Location, i: nat)
    ensures var name := ShipmentFor(loc, i).shipmentLabel;
            6 <= |name| && name[..6] == "House " && ParseInt(name[6..]) == Ok(i + 1)
  {
    var digits := NatToString(i + 1);
    var name := ShipmentFor(loc, i).shipmentLabel;
    assert name[6..] == digits;
    NatToStringValue(i + 1);
    ParseIntDigits(digits);
  }

  // ---------------------------------------------------------------------------
  // The response.

  /** `s` is the stop of a kept, readable visit at a position from `i` on,
      recording that position as its order. */
  ghost predicate FromVisit(visits: seq<Visit>, locations: seq<Location>, i: nat, s: Stop) {
    && s.optimizedOrder.Some?
    && var p := s.optimizedOrder.value;
    && i <= p < |visits|
    && Kept(visits[p], |locations|)
    && Readable(visits[p], |locations|)
    && s == TourStop(locations[PyIndex(|locations|, visits[p].shipmentIndex.value).value], visits[p].startTime.value, p)
  }

  /** Every processed stop comes from a kept visit: the house its shipment
      index names (negative ones counting from the end), arriving at the
      visit's start time. */
  lemma {:induction false} VisitsBecomeStops(visits: seq<Visit>, locations: seq<Location>, i: nat)
    requires i <= |visits|
    requires ProcessVisits(visits, locations, i).Ok?
    decreases |visits| - i
    ensures var r := ProcessVisits(visits, locations, i).value;
            forall k :: 0 <= k < |r| ==> FromVisit(visits, locations, i, r[k])
  {
    if i < |visits| {
      VisitsBecomeStops(visits, locations, i + 1);
      var r := ProcessVisits(visits, locations, i).value;
      var rest := ProcessVisits(visits, locations, i + 1).value;
      if Kept(visits[i], |locations|) {
        assert r == [r[0]] + rest;
        assert FromVisit(visits, locations, i, r[0]);
        forall k | 1 <= k < |r|
          ensures FromVisit(visits, locations, i, r[k])
        {
          assert r[k] == rest[k - 1];
          assert FromVisit(visits, locations, i + 1, rest[k - 1]);
        }
      } else {
        forall k | 0 <= k < |r|
          ensures FromVisit(visits, locations, i, r[k])
        {
          assert FromVisit(visits, locations, i + 1, r[k]);
        }
      }
    }
  }

  /** Stop `a` carries a smaller recorded order than stop `b`. */
  predicate Precedes(a: Stop, b: Stop) {
    a.optimizedOrder.Some? && b.optimizedOrder.Some? && a.optimizedOrder.value < b.optimizedOrder.value
  }

  /** The recorded orders strictly increase along the plan: stops keep the
      order of the route's visits. */
  lemma {:induction false} VisitOrdersIncrease(visits: seq<Visit>, locations: seq<Location>, i: nat)
    requires i <= |visits|
    requires ProcessVisits(visits, locations, i).Ok?
    decreases |visits| - i
    ensures var r := ProcessVisits(visits, locations, i).value;
            forall a, b :: 0 <= a < b < |r| ==> Precedes(r[a], r[b])
  {
    VisitsBecomeStops(visits, locations, i);
    if i < |visits| {
      VisitOrdersIncrease(visits, locations, i + 1);
      VisitsBecomeStops(visits, locations, i + 1);
      var r := ProcessVisits(visits, locations, i).value;
      var rest := ProcessVisits(visits, locations, i + 1).value;
      if Kept(visits[i], |locations|) {
        assert r == [r[0]] + rest;
        forall a, b | 0 <= a < b < |r|
          ensures Precedes(r[a], r[b])
        {
          assert r[b] == rest[b - 1];
          assert FromVisit(visits, locations, i + 1, rest[b - 1]);
          if a > 0 {
            assert r[a] == rest[a - 1];
          }
        }
      }
    }
  }

  /** Every kept visit from position `i` on appears in the plan. */
  lemma {:induction false} KeptVisitsAppear(visits: seq<Visit>, locations: seq<Location>, i: nat, p: nat)
    requires i <= p < |visits|
    requires ProcessVisits(visits, locations, i).Ok?
    requires Kept(visits[p], |locations|)
    decreases p - i
    ensures var r := ProcessVisits(visits, locations, i).value;
            exists k :: 0 <= k < |r| && r[k].optimizedOrder == Some(p)
  {
    var r := ProcessVisits(visits, locations, i).value;
    if p == i {
      assert r[0].optimizedOrder == Some(p);
    } else {
      KeptVisitsAppear(visits, locations, i + 1, p);
      var rest := ProcessVisits(visits, locations, i + 1).value;
      var k :| 0 <= k < |rest| && rest[k].optimizedOrder == Some(p);
      if Kept(visits[i], |locations|) {
        assert r == [r[0]] + rest;
        assert r[k + 1] == rest[k];
      }
    }
  }

  /** `optimize_route` succeeds exactly when there are houses, a token, a
      response, a readable route and at least one kept visit; every stop
      then comes from a kept visit and is never flagged. */
  lemma OptimizeRouteSpec(
    locations: seq<Location>, start: Coord, destination: Option<Coord>, startTs: int,
    projectId: string, token: Option<string>, post: TourPost)
    ensures var r := OptimizeRoute(locations, start, destination, startTs, projectId, token, post);
            && (|locations| == 0 ==> r == Raised(EMPTY_MIN_MESSAGE))
            && (0 < |locations| && (token.None? || token.value == "") ==> r == Raised(NO_TOKEN_MESSAGE))
            && (r.Ok? <==>
                  && 0 < |locations|
                  && token.Some? && token.value != ""
                  && post(BuildPayload(locations, start, destination, projectId).value).Ok?
                  && var raw := post(BuildPayload(locations, start, destination, projectId).value).value;
                  && ProcessResponse(raw, locations).Ok?
                  && 0 < |ProcessResponse(raw, locations).value|)
            && (r.Ok? ==>
                  var raw := post(BuildPayload(locations, start, destination, projectId).value).value;
                  && raw.routes.Some? && 0 < |raw.routes.value|
                  && |r.value| == CountKept(RouteVisits(raw), |locations|, 0)
                  && forall k :: 0 <= k < |r.value| ==>
                       && FromVisit(RouteVisits(raw), locations, 0, r.value[k])
                       && r.value[k].violation == Some(false)
                       && r.value[k].methodTag == Some(TOUR_TAG))
  {
    var r := OptimizeRoute(locations, start, destination, startTs, projectId, token, post);
    if r.Ok? {
      var raw := post(BuildPayload(locations, start, destination, projectId).value).value;
      VisitsBecomeStops(RouteVisits(raw), locations, 0);
    }
  }
}

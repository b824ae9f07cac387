# RealPlanner scheduling core in Dafny

RealPlanner plans a day of house visits. Its `plan_optimized_route` service:

1. geocodes the start, the optional destination and every house;
2. tries three route strategies in a fixed order, and returns the first one that yields a non-empty plan. The strategies are:
   - the Google Route Optimization API, which plans a tour with time windows;
   - the Google Routes API, which optimises waypoint order;
   - a local greedy nearest-neighbour algorithm.
3. has the Routes and greedy strategies run their plans through a schedule validator of their own; the Route Optimization API's plan, which already respects time windows, is not validated. A validator:
   - starts a clock at the day's start;
   - gives every stop an arrival and a departure;
   - flags arrivals outside the house's time window;
   - stamps the producing method.

This project models that core over integer UTC epoch seconds, one Dafny module per source file:

| module | file | models |
|---|---|---|
| `Records` | `records.dfy` | locations, plan stops, `Option`, and `Attempt` (a value or the message of a raised exception) |
| `Lists` | `lists.dfy` | Python list indexing with negative indices, `list.index`, `list.remove` |
| `Text` | `text.dfy` | `str(n)` and `int(s)` on decimal text, `str.replace(c, "")` |
| `TimeWindows` | `time_windows.dfy` | `compute_schedule_with_time_windows` |
| `GreedyOptimizer` | `greedy_optimizer.dfy` | nearest-neighbour selection, the greedy loop, the greedy validator |
| `RoutesApi` | `routes_api.dfy` | request shaping, response processing, the fifteen-minute validator |
| `RouteOptimizationApi` | `route_optimization_api.dfy` | shipments and the global window, the OAuth guard, visit processing |
| `Routing` | `routing.dfy` | geocoding into location records, and the three-strategy fallback chain |

Each Python function becomes a pure Dafny function:
- an exception becomes `Raised(message)`;
- a missing dictionary key becomes `None`;
- loops become recursion from a position `i`.

The external collaborators are function-typed parameters:
- the great-circle distance;
- the geocoder;
- the two HTTP calls;
- the OAuth token.

Lemmas tie each operation to an independent statement of what it computes:
- the validator's running clock against a prefix sum;
- the greedy loop against "every location once, each one the nearest left";
- the Routes reordering against a multiset argument over a permutation;
- the strategy chain against the position of its first successful strategy.

### Behaviour of the code worth knowing

- When every strategy fails, the planner raises one fixed message, "All route optimization methods failed". It carries none of the strategies' own errors (`Routing.TryStrategies`).
- The Routes strategy's validator does not use the returned leg durations. Each arrival is the previous departure plus a fixed 900 seconds, so the times computed from the legs are discarded (`RoutesApi.ValidationIgnoresLegTimes`).
- The validator of `time_windows.py` takes a stop's `optimized_order` when the stop has one and falls back to its position `i` only otherwise (`TimeWindows.ComputeScheduleSpec`).
- No strategy calls the validator of `time_windows.py`: `routing.py` imports only the three strategies, and `routes_api.py` and `greedy_optimizer.py` each define their own `validate_time_windows`. The only link the model proves is that on the greedy loop's plans the greedy validator computes the same schedule as `time_windows.py`'s (`GreedyOptimizer.GreedyValidatorMatchesComputeSchedule`).
- The Route Optimization payload ignores the day's start time. Its global window runs from the earliest house window start to the latest house window end (`RouteOptimizationApi.BuildPayload`).
- The Route Optimization plan is not validated: every stop has the violation flag `false`. Its `optimized_order` is the visit's position in the response, which may have gaps where visits were skipped (`RouteOptimizationApi.VisitOrdersIncrease`).
- The Route Optimization guard `shipment_index < len(locations)` admits negative indices, which Python then reads from the end of the list (`RouteOptimizationApi.VisitsBecomeStops`).

## Model

| member | source | states |
|---|---|---|
| Lists.PyIndex | backend/app/services/routes_api.py:163 | a Python list index is valid exactly for `-n .. n-1`; negative indices count from the end |
| Lists.IndexOf | backend/app/services/greedy_optimizer.py:95 | the position found holds the element, and no earlier position does |
| Lists.RemoveFirst | backend/app/services/greedy_optimizer.py:95 | `list.remove` shortens the list by exactly one |
| Lists.RemoveFirstCounts | backend/app/services/greedy_optimizer.py:95 | `list.remove` takes exactly one copy of the element out of the list's multiset |
| Lists.RemoveFirstShifts | backend/app/services/greedy_optimizer.py:95 | the elements before the removed one stay in place, and those after it move up one position |
| Text.NatToString | backend/app/services/route_optimization_api.py:54 | `str(n)` is a non-empty run of digits with no leading zero |
| Text.NatToStringValue | backend/app/services/route_optimization_api.py:54 | the digits of `str(n)` denote `n` |
| Text.ParseInt | backend/app/services/routes_api.py:170 | `int()` succeeds only on non-empty text |
| Text.ScanDigitsValue | backend/app/services/routes_api.py:170 | the digit scanner accepts exactly the non-empty runs of digits, with the number they denote |
| Text.ParseIntDigits | backend/app/services/routes_api.py:170 | `int()` succeeds exactly on an optional sign followed by a non-empty digit run, and a bare digit run parses to its value |
| Text.RemoveAll | backend/app/services/routes_api.py:170 | `replace(c, "")` leaves no `c`, and leaves text without `c` unchanged |
| Text.RemoveAllKeepsOthers | backend/app/services/routes_api.py:170 | `replace(c, "")` keeps every other character, as often as it occurs |
| Text.RemoveAllAppend | backend/app/services/routes_api.py:170 | `replace(c, "")` distributes over concatenation |
| Text.DurationRoundTrip | backend/app/services/routes_api.py:170 | a leg duration written `"{n}s"` parses back to `n` seconds |
| TimeWindows.Classify | backend/app/services/time_windows.py:42-54 | an arrival is on time exactly when it lies within the window, bounds included; it is early exactly when it precedes the window start, a condition the code checks before lateness |
| TimeWindows.ComputeSchedule | backend/app/services/time_windows.py:19-32 | one output stop per input stop, each carrying the method tag; a stop without location data is copied through with an unknown violation flag |
| TimeWindows.ScheduleFrom | backend/app/services/time_windows.py:23-71 | the same from any position of the loop on |
| TimeWindows.ComputeScheduleSpec | backend/app/services/time_windows.py:20-71 | every output stop is as a prefix clock dictates: arrival = start + earlier travel and visits + own travel (0 when missing); departure = arrival + visit; flagged exactly when outside the window; order from the stop, otherwise its position; the original index of the house |
| TimeWindows.ScheduleFromSpec | backend/app/services/time_windows.py:23-71 | the running clock of the loop equals the prefix clock at every position |
| TimeWindows.ClockSkipsPassThrough | backend/app/services/time_windows.py:24-32 | stops without location data do not advance the clock |
| TimeWindows.ConsecutiveArrivals | backend/app/services/time_windows.py:56-71 | for consecutive validated stops, the later arrival is the earlier departure plus the later stop's travel, whatever pass-through stops lie between |
| TimeWindows.FirstArrival | backend/app/services/time_windows.py:20-36 | the first validated stop arrives at the start plus its own travel |
| TimeWindows.ClockMonotone | backend/app/services/time_windows.py:70-71 | with non-negative durations, the clock never runs backwards |
| TimeWindows.ArrivalsNonDecreasing | backend/app/services/time_windows.py:20-71 | with non-negative durations, every arrival is at or after the start, and arrivals never decrease along the route |
| TimeWindows.WideWindowsNoViolations | backend/app/services/time_windows.py:42-54 | windows that open by the start and close after the final clock produce no flag |
| GreedyOptimizer.TravelEstimate | backend/app/services/greedy_optimizer.py:69 | the estimate is at least 300 s; it is exactly 300 s when the distance at 40 km/h is under 301 s, and otherwise the truncated seconds |
| GreedyOptimizer.ScanNearest | backend/app/services/greedy_optimizer.py:30-37 | the scan ends on a location at minimum distance, strictly nearer than every location before it |
| GreedyOptimizer.FindNearest | backend/app/services/greedy_optimizer.py:22-39 | nothing exactly for an empty list; otherwise a member of the list |
| GreedyOptimizer.FindNearestIsNearest | backend/app/services/greedy_optimizer.py:30-39 | the chosen location is at minimum distance, and ties go to the earliest one |
| GreedyOptimizer.GreedyLoop | backend/app/services/greedy_optimizer.py:57-95 | the loop appends one stop per unvisited location |
| GreedyOptimizer.OptimizeRoute | backend/app/services/greedy_optimizer.py:41-101 | the greedy strategy never raises and returns one stop per location, numbered 0 .. N-1 and tagged `greedy_algorithm` |
| GreedyOptimizer.ValidateTimeWindows | backend/app/services/greedy_optimizer.py:107-160 | the greedy validator succeeds exactly when every stop has location data (otherwise KeyError); its output is numbered by position and tagged `greedy_algorithm` |
| GreedyOptimizer.ValidateFrom | backend/app/services/greedy_optimizer.py:118-154 | the same from any position of the loop on |
| GreedyOptimizer.GreedyValidatorMatchesComputeSchedule | backend/app/services/greedy_optimizer.py:118-154 | on located stops whose stored order is their position, the greedy validator equals `compute_schedule_with_time_windows` with the greedy tag |
| GreedyOptimizer.ValidateFromMatches | backend/app/services/greedy_optimizer.py:118-154 | the same from any position with any clock |
| GreedyOptimizer.MoveToRoute | backend/app/services/greedy_optimizer.py:78-95 | moving the chosen location from the unvisited list to the plan keeps every input location accounted for exactly once |
| GreedyOptimizer.LoopVisitsEachOnce | backend/app/services/greedy_optimizer.py:52-95 | the loop's route is a permutation of the input locations |
| GreedyOptimizer.PlacementStep | backend/app/services/greedy_optimizer.py:62-92 | one turn appends the placeholder stop for the chosen location, and leaves the loop at its coordinate and departure |
| GreedyOptimizer.LoopPlacesStops | backend/app/services/greedy_optimizer.py:51-95 | every stop is the placeholder for its location: travel estimated from the previous stop, times continuing the clock, order `k` |
| GreedyOptimizer.NoneNearerLeftStep | backend/app/services/greedy_optimizer.py:58-95 | after a turn, no stop is farther from where it was approached than any location still unvisited |
| GreedyOptimizer.NearestSoFarStep | backend/app/services/greedy_optimizer.py:58-95 | after a turn, no stop is farther from where it was approached than any later stop |
| GreedyOptimizer.NearestStep | backend/app/services/greedy_optimizer.py:58-95 | one turn keeps both nearest-choice invariants and moves to the chosen location |
| GreedyOptimizer.LoopChoosesNearest | backend/app/services/greedy_optimizer.py:51-95 | every stop of the loop's plan is no farther from its predecessor than any later stop |
| GreedyOptimizer.GreedyLoopSpec | backend/app/services/greedy_optimizer.py:51-95 | the loop's plan has one placed stop per location, visits every location once, and always takes a nearest location |
| GreedyOptimizer.FirstStopNearest | backend/app/services/greedy_optimizer.py:51-58 | the first stop is a location nearest to the start |
| GreedyOptimizer.LaterStopsNearest | backend/app/services/greedy_optimizer.py:57-95 | each later stop is nearest to the previous stop among the locations not yet visited |
| GreedyOptimizer.LoopOrderAndTravel | backend/app/services/greedy_optimizer.py:69-88 | the loop's stops are numbered 0 .. N-1 in route order, tagged greedy, with travel of at least 300 s |
| GreedyOptimizer.LoopPlanChained | backend/app/services/greedy_optimizer.py:54-92 | the placeholder times chain: each arrival is the previous departure (or the start) plus the travel, each departure the arrival plus the visit |
| GreedyOptimizer.ValidationReproducesPlaceholders | backend/app/services/greedy_optimizer.py:115-154 | re-validating a chained plan reproduces its placeholder arrivals and departures, keeps the original indices, and flags exactly the arrivals outside their windows |
| GreedyOptimizer.ValidateFromReproduces | backend/app/services/greedy_optimizer.py:118-154 | the same from any position, the clock being the previous placeholder departure |
| GreedyOptimizer.OptimizeRouteSpec | backend/app/services/greedy_optimizer.py:41-101 | the greedy result visits every location exactly once and carries the loop's placeholder times |
| RoutesApi.BuildPayload | backend/app/services/routes_api.py:9-64 | the origin is the start; the destination is the given one, otherwise the start; one intermediate per house in input order; departure at the start time; waypoint optimisation on |
| RoutesApi.Identity | backend/app/services/routes_api.py:159 | the default waypoint order lists `0 .. n-1` |
| RoutesApi.Reorder | backend/app/services/routes_api.py:163 | reordering succeeds exactly when every index is a valid Python index, and then picks the house each index names |
| RoutesApi.PlanLegs | backend/app/services/routes_api.py:165-181 | the legs loop succeeds exactly when every leg with a house at its position has a parsable duration; it emits one stop per leg that has a reordered house at its position, each the provisional record of that house |
| RoutesApi.ProcessResponse | backend/app/services/routes_api.py:152-184 | no routes gives an empty plan; every emitted stop keeps its location data and is numbered by position |
| RoutesApi.ValidateTimeWindows | backend/app/services/routes_api.py:93-150 | the Routes validator succeeds exactly when every stop has location data; its output is numbered by position and tagged `routes_api` |
| RoutesApi.ValidateFrom | backend/app/services/routes_api.py:104-144 | the same from any position of the loop on |
| RoutesApi.OptimizeRoute | backend/app/services/routes_api.py:186-207 | a Routes plan is never empty, numbered by position and tagged `routes_api` |
| RoutesApi.ProvisionalTimesChain | backend/app/services/routes_api.py:165-181 | the provisional times chain: the first arrival is the start, and each later arrival is the previous departure plus the previous stop's leg duration |
| RoutesApi.ProcessResponseSucceeds | backend/app/services/routes_api.py:155-170 | on a response with a route, processing succeeds exactly when the waypoint indices are valid, the route has legs, and every used leg's duration parses |
| RoutesApi.ProcessedStopsFollowWaypointOrder | backend/app/services/routes_api.py:155-181 | stop `k` is the house at the request intermediate named by `order[k]`, and the plan has one stop per leg that has a house |
| RoutesApi.DefaultOrderKeepsInputOrder | backend/app/services/routes_api.py:159-163 | without a returned order, the houses keep their input order |
| RoutesApi.PickRespectsMultiset | backend/app/services/routes_api.py:163 | index sequences with equal multisets pick equal multisets of houses |
| RoutesApi.PermutationOrderVisitsEachOnce | backend/app/services/routes_api.py:159-181 | a permutation order with a leg per house yields every house exactly once |
| RoutesApi.ValidateFromEstimates | backend/app/services/routes_api.py:100-144 | the running clock of the Routes validator equals the start plus, for each earlier stop, its visit and 900 s |
| RoutesApi.ValidatedAtEstimatedClock | backend/app/services/routes_api.py:100-144 | every validated stop is the record for its house at that estimated clock |
| RoutesApi.ValidatedArrivals | backend/app/services/routes_api.py:101-144 | the first arrival is the start, and each later arrival is the previous departure plus 900 s |
| RoutesApi.ValidationIgnoresLegTimes | backend/app/services/routes_api.py:104-144 | two plans with the same houses in the same order validate identically, whatever provisional times they carry |
| RoutesApi.OptimizeRouteSpec | backend/app/services/routes_api.py:186-207 | the Routes strategy succeeds exactly when the call returns, the response processes and the plan is non-empty; the result is the validated plan starting at the start time |
| RouteOptimizationApi.MinStart | backend/app/services/route_optimization_api.py:83 | the global start is a house's window start, and no house's is earlier |
| RouteOptimizationApi.MaxEnd | backend/app/services/route_optimization_api.py:84 | the global end is a house's window end, and no house's is later |
| RouteOptimizationApi.BuildPayload | backend/app/services/route_optimization_api.py:31-98 | it fails exactly on an empty house list, with the `min()` error; otherwise one shipment per house in input order, one vehicle from the start to the destination or back to the start |
| RouteOptimizationApi.CallApi | backend/app/services/route_optimization_api.py:100-121 | without a token the call raises the fixed message and nothing is posted; with one, the result is the post's |
| RouteOptimizationApi.CountKept | backend/app/services/route_optimization_api.py:139-142 | at most one kept visit per visit, and none exactly when no visit names a shipment below the house count |
| RouteOptimizationApi.ProcessVisits | backend/app/services/route_optimization_api.py:139-158 | the visits loop succeeds exactly when every kept visit has a valid index and a start time, and emits one stop per kept visit |
| RouteOptimizationApi.ProcessResponse | backend/app/services/route_optimization_api.py:132-161 | no routes gives an empty plan; otherwise the first route's visits are processed |
| RouteOptimizationApi.OptimizeRoute | backend/app/services/route_optimization_api.py:163-181 | a Route Optimization plan is never empty |
| RouteOptimizationApi.GlobalWindowCoversShipments | backend/app/services/route_optimization_api.py:42-86 | every shipment's window lies inside the global window, whose ends are a house's start and a house's end |
| RouteOptimizationApi.ShipmentLabelNamesHouse | backend/app/services/route_optimization_api.py:54 | the label of shipment `i` is "House " followed by text that parses to `i + 1` |
| RouteOptimizationApi.VisitsBecomeStops | backend/app/services/route_optimization_api.py:139-158 | every stop comes from a kept visit: the house its shipment index names (negative ones from the end), arriving at the visit's start, departing after the visit, never flagged |
| RouteOptimizationApi.VisitOrdersIncrease | backend/app/services/route_optimization_api.py:139-155 | the recorded orders strictly increase along the plan |
| RouteOptimizationApi.KeptVisitsAppear | backend/app/services/route_optimization_api.py:139-158 | every kept visit appears in the plan under its position |
| RouteOptimizationApi.OptimizeRouteSpec | backend/app/services/route_optimization_api.py:163-181 | no houses raises the `min()` error and no token the token error; the strategy succeeds exactly when there are houses and a token, the post returns, the response processes and at least one stop results; a plan has one stop per kept visit, each from its visit, unflagged and tagged `route_optimization_api` |
| Routing.FirstSuccess | backend/app/services/routing.py:58-71 | the position found is of a strategy that does not fail, all earlier ones fail, and there is none exactly when all fail |
| Routing.TryStrategies | backend/app/services/routing.py:58-74 | the chain either returns a non-empty plan or raises the fixed exhaustion message |
| Routing.BuildLocations | backend/app/services/routing.py:33-47 | geocoding the houses succeeds exactly when every house address resolves, with one location per house |
| Routing.PlanWith | backend/app/services/routing.py:16-78 | a start that fails to geocode aborts with its error; a plan exists only with at least one house and is never empty |
| Routing.Methods | backend/app/services/routing.py:52-56 | the strategies, in order: Route Optimization API, Routes API, Greedy |
| Routing.PlanOptimizedRoute | backend/app/services/routing.py:9-78 | the planner over the three strategies: a start geocoding error aborts; a returned plan is never empty |
| Routing.TryStrategiesPicksFirstSuccess | backend/app/services/routing.py:58-74 | the chain returns the plan of the first strategy that does not fail, and raises the fixed message exactly when all fail |
| Routing.LaterStrategiesIrrelevant | backend/app/services/routing.py:58-65 | strategies after the first success are never consulted: replacing them changes nothing |
| Routing.BuildLocationsContents | backend/app/services/routing.py:34-46 | location `k` is house `k` at its coordinate, with its window, its visit in seconds (minutes * 60) and original index `k` |
| Routing.BuildLocationsFirstFailure | backend/app/services/routing.py:35-37 | a failed geocoding loop raises the error of the first house that fails |
| Routing.PlanWithSpec | backend/app/services/routing.py:19-61 | with every address resolved, no houses raises IndexError; otherwise the strategies run on the houses' locations, the start, the destination if one was given, and the first house's start time |
| Routing.GeocodingFailureAborts | backend/app/services/routing.py:25-37 | a failing destination or house address aborts the planner with that error, the destination's first, before any strategy runs |
| Routing.GreedyIsBackstop | backend/app/services/routing.py:52-65 | once every address resolves and there is a house, the planner returns a plan |
| Routing.TourPlanPreferred | backend/app/services/routing.py:52-65 | whenever the Route Optimization API has a plan, the planner returns exactly that plan, unflagged and tagged with its method |
| Routing.RoutesPlanSecond | backend/app/services/routing.py:52-71 | when the Route Optimization API fails, the planner still returns a plan: the Routes plan when it has one, numbered by position and tagged `routes_api`; otherwise the greedy plan, tagged `greedy_algorithm` |
| Routing.BuildLocationsNumbered | backend/app/services/routing.py:44 | the geocoding loop numbers the locations by input position |
| Routing.GreedyCoversEveryHouse | backend/app/services/routing.py:44 | the greedy plan of numbered locations has one stop per house and records each original index 0 .. N-1, and no other |
| Routing.GreedyPlanLast | backend/app/services/routing.py:52-71 | when both Google strategies fail, the planner returns exactly the greedy strategy's plan: one stop per house, greedy-tagged, recording each original index 0 .. N-1 and no other |
| Routing.RearrangementRecordsIndices | backend/app/services/greedy_optimizer.py:78-88 | stops that copy the original indices of a rearrangement of positionally numbered locations record each index 0 .. N-1, and no other |

## Left out

- RouteOptimizationApi.BuildPayload: the error text for `min()` of an empty iterable depends on the interpreter version. The model uses CPython 3.12's "min() iterable argument is empty"; CPython 3.11 and earlier raise "min() arg is an empty sequence". The source pins no version, and the text only reaches the log.
- Great-circle distance (`calculate_distance`, greedy_optimizer.py:7-20) is an uninterpreted parameter `Distance`, because it is floating-point trigonometry. Since the parameter never fails, the `except` fallback to 900 s (greedy_optimizer.py:70-71) is not modelled.
- GreedyOptimizer.TravelEstimate: computes `floor(d * 90)` on exact reals instead of `int(d / 40.0 * 3600)` on floats, so float rounding is not modelled. The two agree on the 300 s floor and on truncation for non-negative distances.
- Geocoding, both HTTP calls and the OAuth token are parameters of the model (`Geocoder`, `RoutesCall`, `TourPost`, the `token` option), because they are network I/O. `get_oauth_token` is represented by the token it returns, with a missing or empty token standing for `None`.
- `datetime` conversions are not modelled: all times are integer UTC epoch seconds. This covers `fromtimestamp`, `isoformat`, `fromisoformat`, `timedelta`, and `h.start_time.timestamp()`. The Route Optimization visit start time arrives already converted, so malformed ISO-8601 text is not modelled.
- Logging and the collected violation messages are side effects only, and are not modelled.
- JSON values of the wrong shape are not modelled. The records are typed, so these cases cannot arise: a non-list `routes`, a non-integer waypoint index, a `null` travel duration.
- Text.ParseInt: models `int()` on ASCII text of an optional sign and decimal digits only. Surrounding whitespace, `_` separators and non-ASCII digits are not modelled.
- RoutesApi.PlanLegs: reads every leg's duration up front (`Durations`) and consults leg `i` when the loop reaches it. Reading has no effect besides its value, so the order of reads does not change the result.
- Each `try: ... except Exception: raise` around a strategy and around the planner only logs and re-raises, so it is not modelled.
- `curl_generator.py`, the HTTP endpoint layer (`endpoints.py`, `main.py`), configuration, the pydantic schemas, the frontends and the test and debug scripts are not part of this model, because they sit outside the planning core.

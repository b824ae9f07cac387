/** Shared records of the route planner: visits, geocoded locations and
    per-stop plan entries. Times are UTC epoch seconds throughout. */
module Records {

  /** A value that may be missing: an absent dictionary key or Python's None. */
  datatype Option<+T> = None | Some(value: T) {

    /** The value, or `default` when missing (Python's `dict.get(key, default)`). */
    function GetOr(default: T): T {
      match this
      case Some(v) => v
      case None => default
    }
  }

  /** The outcome of a call that may raise: its value, or the message of the exception. */
  datatype Attempt<+T> = Ok(value: T) | Raised(message: string)

  /** A latitude/longitude pair in degrees. */
  datatype Coord = Coord(lat: real, lng: real)

  /** One house visit as submitted by the caller. */
  datatype House = House(address: string, startTime: int, endTime: int, durationMinutes: int)

  /** A geocoded visit with its time window and visit duration; `originalIndex`
      is its position in the caller's list of houses. */
  datatype Location = Location(
    coord: Coord,
    startTs: int,
    endTs: int,
    visitDurationSec: int,
    originalIndex: int,
    house: House)

  /** One entry of a route plan. The producers fill in different subsets of the
      keys; the optional ones are `Option`s. A validated stop carries neither
      `locationData` nor `travelDurationSec`. */
  datatype Stop = Stop(
    address: string,
    arrival: int,
    departure: int,
    originalOrder: int,
    optimizedOrder: Option<int>,
    violation: Option<bool>,
    methodTag: Option<string>,
    locationData: Option<Location>,
    travelDurationSec: Option<int>)

  /** Every stop of `plan` carries the location data a validator reads. */
  predicate HasLocations(plan: seq<Stop>) {
    forall k :: 0 <= k < |plan| ==> plan[k].locationData.Some?
  }

  /** The locations of a plan's stops, in route order. */
  function Route(plan: seq<Stop>): (r: seq<Location>)
    requires HasLocations(plan)
    ensures |r| == |plan|
    ensures forall k :: 0 <= k < |plan| ==> plan[k].locationData == Some(r[k])
  {
    seq(|plan|, k requires 0 <= k < |plan| && plan[k].locationData.Some? => plan[k].locationData.value)
  }
}

/** The schedule validator of `time_windows.py`: runs a clock from the schedule's start,
    gives every stop with location data an arrival and a departure, flags
    arrivals outside the stop's window, and stamps the producing method. */
module TimeWindows {
  import opened Records

  /** How an arrival relates to a time window. */
  datatype Arrival = OnTime | Early | Late

  /** Early is checked before late; arriving exactly at either bound is on time. */
  function Classify(arrival: int, windowStart: int, windowEnd: int): (c: Arrival)
    ensures c.OnTime? <==> windowStart <= arrival <= windowEnd
    ensures c.Early? <==> arrival < windowStart
  {
    if arrival < windowStart then Early
    else if arrival > windowEnd then Late
    else OnTime
  }

  /** The violation flag every validator records for an arrival at `loc`. */
  function Violates(arrival: int, loc: Location): bool {
    !Classify(arrival, loc.startTs, loc.endTs).OnTime?
  }

  /** A stop without location data, copied through with an unknown violation flag. */
  function PassThrough(stop: Stop, tag: string): Stop {
    stop.(violation := None, methodTag := Some(tag))
  }

  /** `compute_schedule_with_time_windows(route_plan, start_ts, method)`. */
  function ComputeSchedule(plan: seq<Stop>, startTs: int, tag: string): (r: seq<Stop>)
    ensures |r| == |plan|
    ensures forall k :: 0 <= k < |plan| ==> r[k].methodTag == Some(tag)
    ensures forall k :: 0 <= k < |plan| && plan[k].locationData.None? ==> r[k] == PassThrough(plan[k], tag)
  {
    ScheduleFrom(plan, 0, startTs, tag)
  }

  /** The validator's loop from stop `i` on, with the clock at `clock`. */
  function ScheduleFrom(plan: seq<Stop>, i: nat, clock: int, tag: string): (r: seq<Stop>)
    requires i <= |plan|
    decreases |plan| - i
    ensures |r| == |plan| - i
    ensures forall k :: 0 <= k < |r| ==> r[k].methodTag == Some(tag)
    ensures forall k :: 0 <= k < |r| && plan[i + k].locationData.None? ==> r[k] == PassThrough(plan[i + k], tag)
  {
    if i == |plan| then []
    else
      var stop := plan[i];
      match stop.locationData
      case None =>
        [PassThrough(stop, tag)] + ScheduleFrom(plan, i + 1, clock, tag)
      case Some(loc) =>
        var arrival := clock + stop.travelDurationSec.GetOr(0);
        var departure := arrival + loc.visitDurationSec;
        [Validated(loc, arrival, stop.optimizedOrder.GetOr(i), tag)]
          + ScheduleFrom(plan, i + 1, departure, tag)
  }

  /** The fresh record a validator writes for a stop at `loc` reached at `arrival`. */
  function Validated(loc: Location, arrival: int, order: int, tag: string): Stop {
    Stop(
      address := loc.house.address,
      arrival := arrival,
      departure := arrival + loc.visitDurationSec,
      originalOrder := loc.originalIndex,
      optimizedOrder := Some(order),
      violation := Some(Violates(arrival, loc)),
      methodTag := Some(tag),
      locationData := None,
      travelDurationSec := None)
  }

  /** The clock just before stop `i`: the start plus the travel and visit
      durations of every earlier stop that carries location data. */
  function ClockBefore(plan: seq<Stop>, startTs: int, i: nat): int
    requires i <= |plan|
  {
    if i == 0 then startTs
    else
      match plan[i - 1].locationData
      case None => ClockBefore(plan, startTs, i - 1)
      case Some(loc) => ClockBefore(plan, startTs, i - 1) + plan[i - 1].travelDurationSec.GetOr(0) + loc.visitDurationSec
  }

  /** The arrival the validator computes at stop `i`. */
  function ArrivalAt(plan: seq<Stop>, startTs: int, i: nat): int
    requires i < |plan|
  {
    ClockBefore(plan, startTs, i) + plan[i].travelDurationSec.GetOr(0)
  }

  /** What the validated schedule holds at position `i`, stated against the
      prefix clock rather than the validator's running clock. */
  ghost predicate ScheduledAt(plan: seq<Stop>, startTs: int, tag: string, i: nat, s: Stop)
    requires i < |plan|
  {
    match plan[i].locationData
    case None => s == PassThrough(plan[i], tag)
    case Some(loc) =>
      var arrival := ArrivalAt(plan, startTs, i);
      && s.address == loc.house.address
      && s.arrival == arrival
      && s.departure == arrival + loc.visitDurationSec
      && s.originalOrder == loc.originalIndex
      && s.optimizedOrder == Some(plan[i].optimizedOrder.GetOr(i))
      && s.violation == Some(arrival < loc.startTs || arrival > loc.endTs)
      && s.methodTag == Some(tag)
      && s.locationData.None?
      && s.travelDurationSec.None?
  }

  /** Every stop of the computed schedule is as the prefix clock dictates. */
  lemma ComputeScheduleSpec(plan: seq<Stop>, startTs: int, tag: string)
    ensures var r := ComputeSchedule(plan, startTs, tag);
            forall i :: 0 <= i < |plan| ==> ScheduledAt(plan, startTs, tag, i, r[i])
  {
    var r := ComputeSchedule(plan, startTs, tag);
    assert r == ScheduleFrom(plan, 0, startTs, tag);
    ScheduleFromSpec(plan, startTs, tag, 0, startTs);
    forall i | 0 <= i < |plan|
      ensures ScheduledAt(plan, startTs, tag, i, r[i])
    {
      assert ScheduledAt(plan, startTs, tag, 0 + i, r[i]);
    }
  }

  lemma {:induction false} ScheduleFromSpec(plan: seq<Stop>, startTs: int, tag: string, i: nat, clock: int)
    requires i <= |plan|
    requires clock == ClockBefore(plan, startTs, i)
    decreases |plan| - i
    ensures var r := ScheduleFrom(plan, i, clock, tag);
            forall k :: 0 <= k < |r| ==> ScheduledAt(plan, startTs, tag, i + k, r[k])
  {
    if i < |plan| {
      var stop := plan[i];
      var r := ScheduleFrom(plan, i, clock, tag);
      match stop.locationData
      case None =>
        ScheduleFromSpec(plan, startTs, tag, i + 1, clock);
        assert r == [PassThrough(stop, tag)] + ScheduleFrom(plan, i + 1, clock, tag);
      case Some(loc) =>
        var arrival := clock + stop.travelDurationSec.GetOr(0);
        var departure := arrival + loc.visitDurationSec;
        ScheduleFromSpec(plan, startTs, tag, i + 1, departure);
        assert r == [Validated(loc, arrival, stop.optimizedOrder.GetOr(i), tag)] + ScheduleFrom(plan, i + 1, departure, tag);
    }
  }

  /** Stops without location data leave the clock where it was. */
  lemma {:induction false} ClockSkipsPassThrough(plan: seq<Stop>, startTs: int, i: nat, j: nat)
    requires i <= j <= |plan|
    requires forall k :: i <= k < j ==> plan[k].locationData.None?
    decreases j - i
    ensures ClockBefore(plan, startTs, j) == ClockBefore(plan, startTs, i)
  {
    if i < j {
      ClockSkipsPassThrough(plan, startTs, i, j - 1);
    }
  }

  /** Consecutive validated stops chain: the later arrival is the earlier
      departure plus the later stop's travel duration, whatever pass-through
      stops lie between them. */
  lemma ConsecutiveArrivals(plan: seq<Stop>, startTs: int, tag: string, i: nat, j: nat)
    requires i < j < |plan|
    requires plan[i].locationData.Some? && plan[j].locationData.Some?
    requires forall k :: i < k < j ==> plan[k].locationData.None?
    ensures var r := ComputeSchedule(plan, startTs, tag);
            r[j].arrival == r[i].departure + plan[j].travelDurationSec.GetOr(0)
  {
    var r := ComputeSchedule(plan, startTs, tag);
    ComputeScheduleSpec(plan, startTs, tag);
    assert ScheduledAt(plan, startTs, tag, i, r[i]);
    assert ScheduledAt(plan, startTs, tag, j, r[j]);
    ClockSkipsPassThrough(plan, startTs, i + 1, j);
    assert ClockBefore(plan, startTs, i + 1) == ArrivalAt(plan, startTs, i) + plan[i].locationData.value.visitDurationSec;
  }

  /** The first validated stop arrives at the start plus its own travel duration. */
  lemma FirstArrival(plan: seq<Stop>, startTs: int, tag: string, j: nat)
    requires j < |plan| && plan[j].locationData.Some?
    requires forall k :: 0 <= k < j ==> plan[k].locationData.None?
    ensures ComputeSchedule(plan, startTs, tag)[j].arrival == startTs + plan[j].travelDurationSec.GetOr(0)
  {
    ComputeScheduleSpec(plan, startTs, tag);
    ClockSkipsPassThrough(plan, startTs, 0, j);
  }

  /** Durations that never run the clock backwards. */
  predicate NonNegativeDurations(plan: seq<Stop>) {
    forall k :: 0 <= k < |plan| && plan[k].locationData.Some? ==>
      plan[k].travelDurationSec.GetOr(0) >= 0 && plan[k].locationData.value.visitDurationSec >= 0
  }

  lemma {:induction false} ClockMonotone(plan: seq<Stop>, startTs: int, i: nat, j: nat)
    requires NonNegativeDurations(plan)
    requires i <= j <= |plan|
    decreases j - i
    ensures ClockBefore(plan, startTs, i) <= ClockBefore(plan, startTs, j)
  {
    if i < j {
      ClockMonotone(plan, startTs, i, j - 1);
    }
  }

  /** With non-negative durations every validated arrival is at or after the
      start, and arrivals never decrease along the route. */
  lemma ArrivalsNonDecreasing(plan: seq<Stop>, startTs: int, tag: string, i: nat, j: nat)
    requires NonNegativeDurations(plan)
    requires i <= j < |plan|
    requires plan[i].locationData.Some? && plan[j].locationData.Some?
    ensures var r := ComputeSchedule(plan, startTs, tag);
            startTs <= r[i].arrival <= r[j].arrival
  {
    ComputeScheduleSpec(plan, startTs, tag);
    ClockMonotone(plan, startTs, 0, i);
    if i < j {
      ClockMonotone(plan, startTs, i + 1, j);
    }
  }

  /** When every window opens by the start and closes no earlier than the
      final clock, no stop is flagged. */
  lemma WideWindowsNoViolations(plan: seq<Stop>, startTs: int, tag: string)
    requires NonNegativeDurations(plan)
    requires forall k :: 0 <= k < |plan| && plan[k].locationData.Some? ==>
               plan[k].locationData.value.startTs <= startTs &&
               ClockBefore(plan, startTs, |plan|) <= plan[k].locationData.value.endTs
    ensures var r := ComputeSchedule(plan, startTs, tag);
            forall k :: 0 <= k < |plan| && plan[k].locationData.Some? ==> r[k].violation == Some(false)
  {
    var r := ComputeSchedule(plan, startTs, tag);
    ComputeScheduleSpec(plan, startTs, tag);
    forall k | 0 <= k < |plan| && plan[k].locationData.Some?
      ensures r[k].violation == Some(false)
    {
      ClockMonotone(plan, startTs, 0, k);
      ClockMonotone(plan, startTs, k + 1, |plan|);
    }
  }
}

/**
 * The Hours-of-Service rules of the trip planner and the shape of the duty
 * log it produces.
 *
 * Time is measured in real hours since midnight of an epoch day; a calendar
 * date is the number of whole days since that midnight.
 */
module HosRules {

  // ---------------------------------------------------------------------
  // Rules (trips/utils.py:106-112)
  // ---------------------------------------------------------------------

  const DailyDrivingLimit: real := 11.0
  const DailyOnDutyLimit: real := 14.0
  const DailyRestPeriod: real := 10.0
  const WeeklyCycleLimit: real := 70.0
  const PickupDropoffTime: real := 1.0
  const FuelingTime: real := 0.5
  const FuelStopMileage: real := 1000.0

  const HoursPerDay: real := 24.0
  /** Units of the route's duration and distance (trips/utils.py:102-103). */
  const SecondsPerHour: real := 3600.0
  const MetersPerMile: real := 1609.34
  /** One microsecond, in hours: the gap between the last representable instant of a date and the next midnight. */
  const Microsecond: real := 1.0 / 3600000000.0

  // ---------------------------------------------------------------------
  // The duty log
  // ---------------------------------------------------------------------

  datatype Kind = Driving | OnDuty | OffDuty | SleeperBerth

  /** One duty-status entry: its kind, its start instant and its length in hours. */
  datatype Event = Event(kind: Kind, start: real, duration: real)

  /** The log of one calendar day of the trip. */
  datatype DayLog = DayLog(date: int, events: seq<Event>)

  // ---------------------------------------------------------------------
  // Calendar
  // ---------------------------------------------------------------------

  /** The calendar date an instant falls on. */
  function Date(t: real): int {
    (t / HoursPerDay).Floor
  }

  /** The instant at which calendar date `d` begins. */
  function Midnight(d: int): real {
    d as real * HoursPerDay
  }

  lemma DateBounds(t: real)
    ensures Midnight(Date(t)) <= t < Midnight(Date(t) + 1)
  {
  }

  lemma DateIs(t: real, d: int)
    requires Midnight(d) <= t < Midnight(d + 1)
    ensures Date(t) == d
  {
    DateBounds(t);
  }

  /** The last instant of the date `t` falls on, as `datetime.max.time()` gives it. */
  function EndOfDay(t: real): (r: real)
    ensures Date(r) == Date(t)
    ensures t < r + Microsecond
  {
    DateBounds(t);
    DateIs(Midnight(Date(t) + 1) - Microsecond, Date(t));
    Midnight(Date(t) + 1) - Microsecond
  }

  // ---------------------------------------------------------------------
  // Sums over a day's events
  // ---------------------------------------------------------------------

  function Min(a: real, b: real): real {
    if a <= b then a else b
  }

  function Max(a: real, b: real): real {
    if a <= b then b else a
  }

  /** What an event adds to the driving total. */
  function DrivingPart(e: Event): real {
    if e.kind == Driving then e.duration else 0.0
  }

  /** What an event adds to the on-duty total: driving and on duty not driving both count. */
  function OnDutyPart(e: Event): real {
    if e.kind == Driving || e.kind == OnDuty then e.duration else 0.0
  }

  /** Whether an event is a fueling stop: an on-duty event of exactly the fueling time. */
  function FuelPart(e: Event): nat {
    if e.kind == OnDuty && e.duration == FuelingTime then 1 else 0
  }

  /** Hours logged as driving. */
  function DrivingHours(events: seq<Event>): real {
    if events == [] then 0.0 else DrivingHours(events[..|events| - 1]) + DrivingPart(events[|events| - 1])
  }

  /** Hours on duty in the regulatory sense. */
  function OnDutyHours(events: seq<Event>): real {
    if events == [] then 0.0 else OnDutyHours(events[..|events| - 1]) + OnDutyPart(events[|events| - 1])
  }

  /** Number of fueling stops. */
  function FuelStops(events: seq<Event>): nat {
    if events == [] then 0 else FuelStops(events[..|events| - 1]) + FuelPart(events[|events| - 1])
  }

  /** The instant the last event of a non-empty list ends. */
  function End(events: seq<Event>): real
    requires events != []
  {
    events[|events| - 1].start + events[|events| - 1].duration
  }

  /** Driving hours over a whole trip. */
  function TripDrivingHours(days: seq<DayLog>): real {
    if days == [] then 0.0
    else TripDrivingHours(days[..|days| - 1]) + DrivingHours(days[|days| - 1].events)
  }

  /** Fueling stops over a whole trip. */
  function TripFuelStops(days: seq<DayLog>): nat {
    if days == [] then 0
    else TripFuelStops(days[..|days| - 1]) + FuelStops(days[|days| - 1].events)
  }

  // ---------------------------------------------------------------------
  // The shape of one day's log
  // ---------------------------------------------------------------------

  /** Each event starts when the one before it ends. */
  predicate Contiguous(events: seq<Event>) {
    forall i :: 0 < i < |events| ==> events[i].start == events[i - 1].start + events[i - 1].duration
  }

  /** The totals of a concatenation are the sums of the totals of its parts. */
  lemma {:induction false} TotalsConcat(a: seq<Event>, b: seq<Event>)
    ensures DrivingHours(a + b) == DrivingHours(a) + DrivingHours(b)
    ensures OnDutyHours(a + b) == OnDutyHours(a) + OnDutyHours(b)
    ensures FuelStops(a + b) == FuelStops(a) + FuelStops(b)
  {
    if b == [] {
      assert a + b == a;
    } else {
      var c := b[..|b| - 1];
      assert (a + b)[..|a + b| - 1] == a + c;
      TotalsConcat(a, c);
    }
  }

  /** The rest that opens day `k >= 1`: sleeper berth on odd days, off duty on even days. */
  function RestKind(k: nat): Kind {
    if k % 2 == 1 then SleeperBerth else OffDuty
  }

  /** The first event of day `k`: the pickup at the trip's start on day 0, a full rest from midnight otherwise. */
  function Opening(k: nat, date: int, start: real): Event {
    if k == 0 then Event(OnDuty, start, PickupDropoffTime)
    else Event(RestKind(k), Midnight(date), DailyRestPeriod)
  }

  /** Position of the on-duty event that fills out the day's 14-hour window. */
  function ResidualIndex(fuel: bool): nat {
    if fuel then 3 else 2
  }

  /** The instant the day's work closes: the start of its final (dropoff) event. */
  function Close(day: DayLog): real
    requires day.events != []
  {
    day.events[|day.events| - 1].start
  }

  /**
   * Day `k` of a trip that started at `start`, driving `driving` hours, with a
   * fueling stop when `fuel` holds: opening event, driving, the fueling stop,
   * an on-duty event completing exactly 14 on-duty hours, on day 0 possibly an
   * off-duty event padding up to the end of the date, and a 1-hour dropoff.
   */
  predicate DayShape(day: DayLog, k: nat, start: real, driving: real, fuel: bool) {
    var e, r := day.events, ResidualIndex(fuel);
    && r + 2 <= |e| <= r + 3
    && e[0] == Opening(k, day.date, start)
    && e[1].kind == Driving && e[1].duration == driving
    && (fuel ==> e[2].kind == OnDuty && e[2].duration == FuelingTime)
    && e[r].kind == OnDuty && e[r].duration > 0.0
    && OnDutyPart(e[0]) + e[1].duration + (if fuel then FuelingTime else 0.0) + e[r].duration == DailyOnDutyLimit
    && (|e| == r + 3 ==>
          && k == 0
          && e[r + 1].kind == OffDuty
          && 0.0 < e[r + 1].duration < DailyRestPeriod
          && e[r + 1].start + e[r + 1].duration == EndOfDay(e[r + 1].start))
    && e[|e| - 1].kind == OnDuty && e[|e| - 1].duration == PickupDropoffTime
    && Contiguous(e)
  }

  /** The residual on-duty event is never shorter than 1.5 hours: 14 minus pickup, the 11-hour cap and one fueling. */
  lemma ResidualAtLeast(day: DayLog, k: nat, start: real, driving: real, fuel: bool)
    requires DayShape(day, k, start, driving, fuel)
    requires driving <= DailyDrivingLimit
    ensures day.events[ResidualIndex(fuel)].duration >= DailyOnDutyLimit - PickupDropoffTime - DailyDrivingLimit - FuelingTime
  {
  }
}

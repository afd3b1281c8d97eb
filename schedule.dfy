/**
 * The schedule the simulation produces, in closed form: how many days a
 * route takes, how much is driven on each, on which day the fuel stop falls,
 * and each day's log as a function of the instant the previous day closed.
 * The lemmas here state what the trip planner promises of that schedule.
 */
module HosSchedule {
  import opened HosRules

  // ---------------------------------------------------------------------
  // Driving and mileage
  // ---------------------------------------------------------------------

  /** Number of days a route of `total` driving hours takes at 11 driving hours a day. */
  function DayCount(total: real): (n: nat)
    ensures total <= 0.0 ==> n == 0
    ensures total > 0.0 ==> DailyDrivingLimit * (n - 1) as real < total <= DailyDrivingLimit * n as real
    decreases total
  {
    if total <= 0.0 then 0 else 1 + DayCount(total - DailyDrivingLimit)
  }

  /** Driving hours completed before day `k` when each day drives as much as the 11-hour cap allows. */
  function DrivenBefore(total: real, k: nat): real {
    Min(DailyDrivingLimit * k as real, total)
  }

  /** Driving hours of day `k`: the cap, or what is left of the route. */
  function DrivingOn(total: real, k: nat): real {
    Min(DailyDrivingLimit, total - DrivenBefore(total, k))
  }

  lemma DrivenBeforeStep(total: real, k: nat)
    ensures DrivenBefore(total, k) + DrivingOn(total, k) == DrivenBefore(total, k + 1)
  {
  }

  lemma DrivingOnBounds(total: real, k: nat)
    requires k < DayCount(total)
    ensures 0.0 < DrivingOn(total, k) <= DailyDrivingLimit
    ensures DrivingOn(total, k) == total - DrivenBefore(total, k) <==> k == DayCount(total) - 1
  {
  }

  /** Driving is left before day `k` exactly when `k` is not past the last day: the loop runs once per day. */
  lemma DrivingLeftUntilLastDay(total: real, k: nat)
    requires total > 0.0
    ensures DrivenBefore(total, k) < total <==> k < DayCount(total)
  {
  }

  lemma DrivenBeforeMonotone(total: real, j: nat, k: nat)
    requires j <= k
    ensures DrivenBefore(total, j) <= DrivenBefore(total, k)
  {
  }

  /** Miles covered on the days before day `k`, each day adding its driving hours at the route's average speed. */
  function MilesBefore(total: real, miles: real, k: nat): real
    requires total > 0.0
  {
    if k == 0 then 0.0 else MilesBefore(total, miles, k - 1) + DrivingOn(total, k - 1) * (miles / total)
  }

  /** The running mileage is the mileage of the hours driven so far at the route's average speed. */
  lemma {:induction false} MilesBeforeIs(total: real, miles: real, k: nat)
    requires total > 0.0
    ensures MilesBefore(total, miles, k) == DrivenBefore(total, k) * (miles / total)
  {
    if k > 0 {
      MilesBeforeIs(total, miles, k - 1);
      DrivenBeforeStep(total, k - 1);
      var rate := miles / total;
      assert (DrivenBefore(total, k - 1) + DrivingOn(total, k - 1)) * rate
             == DrivenBefore(total, k - 1) * rate + DrivingOn(total, k - 1) * rate;
    }
  }

  /** Once reached, the fuel-stop mileage stays reached. */
  lemma MilesStayReached(total: real, miles: real, k: nat)
    requires total > 0.0
    requires MilesBefore(total, miles, k) >= FuelStopMileage
    ensures MilesBefore(total, miles, k + 1) >= FuelStopMileage
  {
    var a, b, rate := DrivenBefore(total, k), DrivenBefore(total, k + 1), miles / total;
    MilesBeforeIs(total, miles, k);
    MilesBeforeIs(total, miles, k + 1);
    DrivenBeforeMonotone(total, k, k + 1);
    assert 0.0 <= a && rate > 0.0;
    assert a * rate <= b * rate;
  }

  /** After the last day, the running mileage is the route's mileage. */
  lemma MilesAtArrival(total: real, miles: real)
    requires total > 0.0
    ensures MilesBefore(total, miles, DayCount(total)) == miles
  {
    MilesBeforeIs(total, miles, DayCount(total));
    assert DrivenBefore(total, DayCount(total)) == total;
    assert total * (miles / total) == miles;
  }

  /** Day `k`'s driving takes the running mileage from below the fuel-stop mileage to at least it. */
  predicate FuelsOn(total: real, miles: real, k: nat) {
    && total > 0.0
    && MilesBefore(total, miles, k) < FuelStopMileage
    && FuelStopMileage <= MilesBefore(total, miles, k + 1)
  }

  /** Fueling stops made on the days before day `k`. */
  function FuelsBefore(total: real, miles: real, k: nat): nat {
    if k == 0 then 0 else FuelsBefore(total, miles, k - 1) + (if FuelsOn(total, miles, k - 1) then 1 else 0)
  }

  /** The days before day `k` make one fueling stop if their mileage has reached the fuel-stop mileage, and none otherwise. */
  lemma {:induction false} FuelsBeforeReached(total: real, miles: real, k: nat)
    ensures FuelsBefore(total, miles, k) == if total > 0.0 && MilesBefore(total, miles, k) >= FuelStopMileage then 1 else 0
  {
    if k > 0 {
      FuelsBeforeReached(total, miles, k - 1);
      if total > 0.0 && MilesBefore(total, miles, k - 1) >= FuelStopMileage {
        MilesStayReached(total, miles, k - 1);
      }
    }
  }

  /** No day undoes a fueling stop: the count only grows. */
  lemma {:induction false} FuelsBeforeMonotone(total: real, miles: real, j: nat, k: nat)
    requires j <= k
    ensures FuelsBefore(total, miles, j) <= FuelsBefore(total, miles, k)
  {
    if j < k {
      FuelsBeforeMonotone(total, miles, j, k - 1);
    }
  }

  /** The fueling stop is made on at most one day of the trip. */
  lemma FuelStopAtMostOnce(total: real, miles: real, j: nat, k: nat)
    requires FuelsOn(total, miles, j) && FuelsOn(total, miles, k)
    ensures j == k
  {
    if j != k {
      var lo, hi := if j < k then j else k, if j < k then k else j;
      FuelsBeforeMonotone(total, miles, lo + 1, hi);
      FuelsBeforeReached(total, miles, hi + 1);
      assert false;
    }
  }

  /** Cycle hours used up on the days before day `k`: the pickup on day 0, each day's fueling stop and driving. */
  function CycleUsedBefore(total: real, miles: real, k: nat): real {
    if k == 0 then 0.0
    else CycleUsedBefore(total, miles, k - 1) + (if k - 1 == 0 then PickupDropoffTime else 0.0)
         + (if FuelsOn(total, miles, k - 1) then FuelingTime else 0.0) + DrivingOn(total, k - 1)
  }

  /** The cycle is charged for the pickup, for the fueling stops and for the driving, and for nothing else. */
  lemma {:induction false} CycleUsedIs(total: real, miles: real, k: nat)
    requires total > 0.0
    ensures CycleUsedBefore(total, miles, k)
            == (if k == 0 then 0.0 else PickupDropoffTime) + FuelingTime * FuelsBefore(total, miles, k) as real
               + DrivenBefore(total, k)
  {
    if k > 0 {
      CycleUsedIs(total, miles, k - 1);
      DrivenBeforeStep(total, k - 1);
    }
  }

  // ---------------------------------------------------------------------
  // One day
  // ---------------------------------------------------------------------

  /** The instant day `k` begins, given the instant `t` the previous day closed (the trip's start for day 0). */
  function DayStart(k: nat, t: real): real {
    if k == 0 then t else Midnight(Date(t) + 1)
  }

  /** The end of day `k`'s 14-hour on-duty window, and of its rest before it. */
  function WorkEnd(k: nat, t: real): real {
    DayStart(k, t) + (if k == 0 then DailyOnDutyLimit else DailyRestPeriod + DailyOnDutyLimit)
  }

  /** Whether the day ending its work at `w` is padded with off-duty time up to the end of the date. */
  predicate Pads(k: nat, w: real) {
    k == 0 && 0.0 < EndOfDay(w) - w < DailyRestPeriod
  }

  /** The instant day `k` closes and its dropoff starts. */
  function DayClose(k: nat, t: real): real {
    var w := WorkEnd(k, t);
    if Pads(k, w) then EndOfDay(w) else w
  }

  /**
   * The events of day `k` through its 14-hour on-duty window, the previous day
   * having closed at `t`: the opening event (pickup or rest), the driving, the
   * fueling stop when due, and on-duty time completing the 14 hours.
   */
  function Window(k: nat, t: real, total: real, miles: real): seq<Event> {
    var t0 := DayStart(k, t);
    var opening := Opening(k, Date(t0), t0);
    var d := DrivingOn(total, k);
    var fuel := FuelsOn(total, miles, k);
    var driveAt := t0 + opening.duration;
    var fuelAt := driveAt + d;
    var residualAt := fuelAt + (if fuel then FuelingTime else 0.0);
    var residual := DailyOnDutyLimit - OnDutyPart(opening) - d - (if fuel then FuelingTime else 0.0);
    [opening, Event(Driving, driveAt, d)]
    + (if fuel then [Event(OnDuty, fuelAt, FuelingTime)] else [])
    + [Event(OnDuty, residualAt, residual)]
  }

  /** Off-duty time padding day `k` from the end of its window up to the end of its date, when it pads. */
  function Padding(k: nat, t: real): seq<Event> {
    var w := WorkEnd(k, t);
    if Pads(k, w) then [Event(OffDuty, w, EndOfDay(w) - w)] else []
  }

  /** The log of day `k` of a route of `total` hours and `miles` miles, the previous day having closed at `t`. */
  function PlanDay(k: nat, t: real, total: real, miles: real): DayLog {
    DayLog(Date(DayStart(k, t)),
           Window(k, t, total, miles) + Padding(k, t) + [Event(OnDuty, DayClose(k, t), PickupDropoffTime)])
  }

  // ---------------------------------------------------------------------
  // The whole trip
  // ---------------------------------------------------------------------

  /** The instant the first `n` days have closed at: the trip's start when `n == 0`. */
  function CloseAfter(n: nat, total: real, miles: real, start: real): real {
    if n == 0 then start else DayClose(n - 1, CloseAfter(n - 1, total, miles, start))
  }

  /** The first `n` day logs of the trip. */
  function Schedule(n: nat, total: real, miles: real, start: real): (days: seq<DayLog>)
    ensures |days| == n
  {
    if n == 0 then []
    else Schedule(n - 1, total, miles, start) + [PlanDay(n - 1, CloseAfter(n - 1, total, miles, start), total, miles)]
  }

  // ---------------------------------------------------------------------
  // Properties of one day
  // ---------------------------------------------------------------------

  /** Every day after the first starts at a midnight, the one after the date the previous day closed on. */
  lemma DayStartDate(k: nat, t: real)
    requires k > 0
    ensures Date(DayStart(k, t)) == Date(t) + 1
    ensures Midnight(Date(DayStart(k, t))) == DayStart(k, t)
  {
    DateIs(Midnight(Date(t) + 1), Date(t) + 1);
  }

  /** A planned day has the day shape: opening, driving, fueling when due, a residual completing 14 on-duty hours, padding, dropoff. */
  lemma PlanDayShape(k: nat, t: real, total: real, miles: real, start: real)
    requires k == 0 ==> t == start
    ensures DayShape(PlanDay(k, t, total, miles), k, start, DrivingOn(total, k), FuelsOn(total, miles, k))
  {
    if k > 0 {
      DayStartDate(k, t);
    }
  }

  /** The window drives the day's share of the route, and holds the fueling stop exactly when it falls on that day. */
  lemma WindowTotals(k: nat, t: real, total: real, miles: real)
    ensures DrivingHours(Window(k, t, total, miles)) == DrivingOn(total, k)
    ensures FuelStops(Window(k, t, total, miles)) == if FuelsOn(total, miles, k) then 1 else 0
  {
    var w := Window(k, t, total, miles);
    var fuel := FuelsOn(total, miles, k);
    var a, b, c := w[..2], w[2..|w| - 1], [w[|w| - 1]];
    assert w == a + b + c;
    TotalsConcat(a + b, c);
    TotalsConcat(a, b);
    assert DrivingHours(a) == DrivingOn(total, k) && FuelStops(a) == 0 by {
      TotalsConcat([w[0]], [w[1]]);
      assert [w[0]] + [w[1]] == a;
    }
    assert FuelStops(c) == 0 by {
      assert w[|w| - 1].duration >= DailyOnDutyLimit - PickupDropoffTime - DailyDrivingLimit - FuelingTime;
    }
    assert b == if fuel then [w[2]] else [];
  }

  /** A planned day drives its share of the route and makes the fueling stop exactly when it falls on that day. */
  lemma PlanDayTotals(k: nat, t: real, total: real, miles: real)
    ensures DrivingHours(PlanDay(k, t, total, miles).events) == DrivingOn(total, k)
    ensures FuelStops(PlanDay(k, t, total, miles).events) == if FuelsOn(total, miles, k) then 1 else 0
  {
    var w, p := Window(k, t, total, miles), Padding(k, t);
    var q := [Event(OnDuty, DayClose(k, t), PickupDropoffTime)];
    TotalsConcat(w + p, q);
    TotalsConcat(w, p);
    WindowTotals(k, t, total, miles);
  }

  /** The day's date and the instant it closes: a day after the first always closes at the midnight ending its date. */
  lemma PlanDayClose(k: nat, t: real, total: real, miles: real)
    ensures PlanDay(k, t, total, miles).date == if k == 0 then Date(t) else Date(t) + 1
    ensures Close(PlanDay(k, t, total, miles)) == DayClose(k, t)
    ensures k == 0 ==> Date(DayClose(k, t)) >= Date(t)
    ensures k > 0 ==> DayClose(k, t) == Midnight(PlanDay(k, t, total, miles).date + 1)
  {
  }

  // ---------------------------------------------------------------------
  // Properties of the whole trip
  // ---------------------------------------------------------------------

  /** Day `j` of the trip is planned from the instant the days before it closed at. */
  lemma {:induction false} ScheduleAt(n: nat, j: nat, total: real, miles: real, start: real)
    requires j < n
    ensures Schedule(n, total, miles, start)[j] == PlanDay(j, CloseAfter(j, total, miles, start), total, miles)
  {
    if j < n - 1 {
      ScheduleAt(n - 1, j, total, miles, start);
    }
  }

  /** Planning one more day extends the trip and leaves the days already planned unchanged. */
  lemma ScheduleStep(n: nat, total: real, miles: real, start: real)
    ensures Schedule(n + 1, total, miles, start)[..n] == Schedule(n, total, miles, start)
  {
  }

  /** Committing the planned day `n` extends the first `n` days to the first `n + 1`, closing where that day closes. */
  lemma ScheduleCommit(n: nat, total: real, miles: real, start: real, day: DayLog)
    requires day == PlanDay(n, CloseAfter(n, total, miles, start), total, miles)
    ensures Schedule(n, total, miles, start) + [day] == Schedule(n + 1, total, miles, start)
    ensures CloseAfter(n + 1, total, miles, start) == DayClose(n, CloseAfter(n, total, miles, start))
  {
  }

  /** Day `j` of the trip drives its share of the route and makes the fueling stop exactly when it falls on that day. */
  lemma ScheduleDayTotals(n: nat, j: nat, total: real, miles: real, start: real)
    requires j < n
    ensures DrivingHours(Schedule(n, total, miles, start)[j].events) == DrivingOn(total, j)
    ensures FuelStops(Schedule(n, total, miles, start)[j].events) == if FuelsOn(total, miles, j) then 1 else 0
  {
    ScheduleAt(n, j, total, miles, start);
    PlanDayTotals(j, CloseAfter(j, total, miles, start), total, miles);
  }

  /** Every day of the trip has the day shape, with its share of the driving and the fueling stop where it falls. */
  lemma ScheduleShape(n: nat, total: real, miles: real, start: real)
    ensures forall j :: 0 <= j < n ==>
              DayShape(Schedule(n, total, miles, start)[j], j, start, DrivingOn(total, j), FuelsOn(total, miles, j))
  {
    forall j | 0 <= j < n
      ensures DayShape(Schedule(n, total, miles, start)[j], j, start, DrivingOn(total, j), FuelsOn(total, miles, j))
    {
      ScheduleAt(n, j, total, miles, start);
      PlanDayShape(j, CloseAfter(j, total, miles, start), total, miles, start);
    }
  }

  /** The first `n` days drive exactly the hours the 11-hour cap lets them drive. */
  lemma {:induction false} ScheduleDriving(n: nat, total: real, miles: real, start: real)
    requires total >= 0.0
    ensures TripDrivingHours(Schedule(n, total, miles, start)) == DrivenBefore(total, n)
  {
    if n > 0 {
      var days, prev := Schedule(n, total, miles, start), Schedule(n - 1, total, miles, start);
      assert days[..n - 1] == prev by {
        ScheduleStep(n - 1, total, miles, start);
      }
      assert DrivingHours(days[n - 1].events) == DrivingOn(total, n - 1) by {
        ScheduleDayTotals(n, n - 1, total, miles, start);
      }
      assert TripDrivingHours(prev) == DrivenBefore(total, n - 1) by {
        ScheduleDriving(n - 1, total, miles, start);
      }
      DrivenBeforeStep(total, n - 1);
    }
  }

  /** The first `n` days make one fueling stop once their mileage has reached the fuel-stop mileage, and none before. */
  lemma {:induction false} ScheduleFuel(n: nat, total: real, miles: real, start: real)
    ensures TripFuelStops(Schedule(n, total, miles, start)) == FuelsBefore(total, miles, n)
  {
    if n > 0 {
      var days, prev := Schedule(n, total, miles, start), Schedule(n - 1, total, miles, start);
      assert days[..n - 1] == prev by {
        ScheduleStep(n - 1, total, miles, start);
      }
      assert FuelStops(days[n - 1].events) == if FuelsOn(total, miles, n - 1) then 1 else 0 by {
        ScheduleDayTotals(n, n - 1, total, miles, start);
      }
      assert TripFuelStops(prev) == FuelsBefore(total, miles, n - 1) by {
        ScheduleFuel(n - 1, total, miles, start);
      }
      assert TripFuelStops(days) == TripFuelStops(prev) + FuelStops(days[n - 1].events);
    }
  }

  /**
   * Over the whole trip the route is driven in full, and a single fueling
   * stop is made exactly when the route is at least the fuel-stop mileage long.
   */
  lemma TripTotals(total: real, miles: real, start: real)
    requires total > 0.0
    ensures TripDrivingHours(Schedule(DayCount(total), total, miles, start)) == DrivenBefore(total, DayCount(total)) == total
    ensures TripFuelStops(Schedule(DayCount(total), total, miles, start)) == FuelsBefore(total, miles, DayCount(total))
            == if miles >= FuelStopMileage then 1 else 0
  {
    var n := DayCount(total);
    ScheduleDriving(n, total, miles, start);
    ScheduleFuel(n, total, miles, start);
    MilesAtArrival(total, miles);
    FuelsBeforeReached(total, miles, n);
  }

  /** How the date of day `j` follows from the day before it. */
  lemma ScheduleDateStep(n: nat, j: nat, total: real, miles: real, start: real)
    requires 0 < j < n
    ensures Schedule(n, total, miles, start)[j - 1].events != []
    ensures Schedule(n, total, miles, start)[j].date == Date(Close(Schedule(n, total, miles, start)[j - 1])) + 1
    ensures Schedule(n, total, miles, start)[j - 1].date < Schedule(n, total, miles, start)[j].date
    ensures j > 1 ==> Schedule(n, total, miles, start)[j].date == Schedule(n, total, miles, start)[j - 1].date + 2
  {
    var t := CloseAfter(j - 1, total, miles, start);
    var prev := PlanDay(j - 1, t, total, miles);
    ScheduleAt(n, j, total, miles, start);
    ScheduleAt(n, j - 1, total, miles, start);
    PlanDayClose(j, DayClose(j - 1, t), total, miles);
    PlanDayClose(j - 1, t, total, miles);
    if j > 1 {
      DateIs(Midnight(prev.date + 1), prev.date + 1);
    }
  }

  /**
   * Calendar dates: the first day is the start's date, every later day is the
   * date after the one its predecessor closed on, dates strictly increase, and
   * from the third day on each date is two after the previous one.
   */
  lemma ScheduleDates(n: nat, total: real, miles: real, start: real)
    ensures n > 0 ==> Schedule(n, total, miles, start)[0].date == Date(start)
    ensures forall j :: 0 <= j < n ==> Schedule(n, total, miles, start)[j].events != []
    ensures forall j :: 0 < j < n ==>
              Schedule(n, total, miles, start)[j].date == Date(Close(Schedule(n, total, miles, start)[j - 1])) + 1
    ensures forall j :: 0 < j < n ==>
              Schedule(n, total, miles, start)[j - 1].date < Schedule(n, total, miles, start)[j].date
    ensures forall j :: 1 < j < n ==>
              Schedule(n, total, miles, start)[j].date == Schedule(n, total, miles, start)[j - 1].date + 2
  {
    var days := Schedule(n, total, miles, start);
    if n > 0 {
      ScheduleAt(n, 0, total, miles, start);
      PlanDayClose(0, start, total, miles);
    }
    forall j | 0 <= j < n
      ensures days[j].events != []
    {
      ScheduleAt(n, j, total, miles, start);
    }
    forall j | 0 < j < n
      ensures days[j].date == Date(Close(days[j - 1])) + 1
      ensures days[j - 1].date < days[j].date
      ensures j > 1 ==> days[j].date == days[j - 1].date + 2
    {
      ScheduleDateStep(n, j, total, miles, start);
    }
  }
}

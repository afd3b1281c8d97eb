/**
 * The day-by-day Hours-of-Service simulation of `calculate_trip_logistics`
 * (trips/utils.py): from a route's driving hours and miles, the driver's
 * used cycle hours and the instant the trip starts, build the list of day
 * logs, one loop iteration per day.
 */
module TripLogistics {
  import opened HosRules
  import opened HosSchedule

  /**
   * On every day of the trip, the cycle hours left when the day's driving is
   * fixed cover that day's share of the route, so the cycle never cuts a day's
   * driving short. The driving is fixed before the pickup and the fueling stop
   * are charged, so those two may still take the cycle below zero.
   */
  predicate CycleCovers(totalHours: real, totalMiles: real, cycleUsedHours: real) {
    CycleCoversFrom(totalHours, totalMiles, cycleUsedHours, 0)
  }

  /** The cycle covers day `k` and every later day of the trip. */
  predicate CycleCoversFrom(totalHours: real, totalMiles: real, cycleUsedHours: real, k: nat)
    decreases DayCount(totalHours) - k
  {
    k >= DayCount(totalHours)
    || (&& CycleLeftOn(totalHours, totalMiles, cycleUsedHours, k) >= DrivingOn(totalHours, k)
        && CycleCoversFrom(totalHours, totalMiles, cycleUsedHours, k + 1))
  }

  /** The cycle hours left at the start of day `k`. */
  function CycleLeftOn(totalHours: real, totalMiles: real, cycleUsedHours: real, k: nat): real {
    WeeklyCycleLimit - cycleUsedHours - CycleUsedBefore(totalHours, totalMiles, k)
  }

  /** The driving hours fixed for a day: the daily driving cap, the day's window, the route left and the cycle left, whichever is least. */
  function DrivingToday(timeRemainingInDay: real, totalDrivingTime: real, hoursLeftOnCycle: real): real {
    Min(Min(Min(DailyDrivingLimit, timeRemainingInDay), totalDrivingTime), hoursLeftOnCycle)
  }

  /** The cycle covers the days from `k` on exactly when its hours left cover each of those days' share. */
  lemma {:induction false} CycleCoversFromEachDay(totalHours: real, totalMiles: real, cycleUsedHours: real, k: nat)
    ensures CycleCoversFrom(totalHours, totalMiles, cycleUsedHours, k)
            <==> forall j :: k <= j < DayCount(totalHours) ==>
                   CycleLeftOn(totalHours, totalMiles, cycleUsedHours, j) >= DrivingOn(totalHours, j)
    decreases DayCount(totalHours) - k
  {
    if k < DayCount(totalHours) {
      CycleCoversFromEachDay(totalHours, totalMiles, cycleUsedHours, k + 1);
    }
  }

  /** Covering the days from `k` on is covering day `k` and the days from `k + 1` on. */
  lemma CycleCoversStep(totalHours: real, totalMiles: real, cycleUsedHours: real, k: nat)
    requires CycleCoversFrom(totalHours, totalMiles, cycleUsedHours, k)
    requires k < DayCount(totalHours)
    ensures CycleLeftOn(totalHours, totalMiles, cycleUsedHours, k) >= DrivingOn(totalHours, k)
    ensures CycleCoversFrom(totalHours, totalMiles, cycleUsedHours, k + 1)
  {
  }

  /** The cycle covers the trip exactly when its hours left cover every day's share. */
  lemma CycleCoversEachDay(totalHours: real, totalMiles: real, cycleUsedHours: real)
    ensures CycleCovers(totalHours, totalMiles, cycleUsedHours)
            <==> forall j :: 0 <= j < DayCount(totalHours) ==>
                   CycleLeftOn(totalHours, totalMiles, cycleUsedHours, j) >= DrivingOn(totalHours, j)
  {
    CycleCoversFromEachDay(totalHours, totalMiles, cycleUsedHours, 0);
  }

  /** Cycle hours enough for the route, the pickup and one fueling stop cover every day of the trip. */
  lemma RoomForRouteCovers(totalHours: real, totalMiles: real, cycleUsedHours: real)
    requires totalHours <= 0.0 || WeeklyCycleLimit - cycleUsedHours >= totalHours + PickupDropoffTime + FuelingTime
    ensures CycleCovers(totalHours, totalMiles, cycleUsedHours)
  {
    forall k | 0 <= k < DayCount(totalHours)
      ensures CycleLeftOn(totalHours, totalMiles, cycleUsedHours, k) >= DrivingOn(totalHours, k)
    {
      CycleUsedIs(totalHours, totalMiles, k);
      FuelsBeforeReached(totalHours, totalMiles, k);
      DrivenBeforeStep(totalHours, k);
    }
    CycleCoversEachDay(totalHours, totalMiles, cycleUsedHours);
  }

  /**
   * A day on which the cycle left falls short of the day's share drives only
   * the cycle left: driving is still left after it, and the cycle is used up.
   */
  lemma CycleShortfallLeavesDriving(totalDrivingTime: real, hoursLeftOnCycle: real, charges: real)
    requires totalDrivingTime > 0.0
    requires hoursLeftOnCycle < Min(DailyDrivingLimit, totalDrivingTime)
    requires charges >= 0.0
    ensures var d := DrivingToday(DailyOnDutyLimit, totalDrivingTime, hoursLeftOnCycle);
            d == hoursLeftOnCycle && totalDrivingTime - d > 0.0 && hoursLeftOnCycle - charges - d <= 0.0
  {
  }

  /**
   * Once the cycle is used up with driving left, a day drives nothing (or a
   * negative amount), so driving stays left and the cycle stays used up: the
   * loop never ends.
   */
  lemma CycleExhaustedNeverEnds(totalDrivingTime: real, hoursLeftOnCycle: real, charges: real)
    requires totalDrivingTime > 0.0
    requires hoursLeftOnCycle <= 0.0
    requires charges >= 0.0
    ensures var d := DrivingToday(DailyOnDutyLimit, totalDrivingTime, hoursLeftOnCycle);
            d <= 0.0 && totalDrivingTime - d > 0.0 && hoursLeftOnCycle - charges - d <= 0.0
  {
  }

  /**
   * The opening of day `k`: after the first day, move to midnight of the next
   * calendar date and rest; fix the day's driving hours; on the first day, do
   * the pickup. `currentTime` is where the previous day closed, or the trip's
   * start on day 0.
   */
  method StartDay(k: nat, currentTime: real, timeRemainingInDay: real, totalDrivingTime: real, hoursLeftOnCycle: real)
    returns (date: int, events: seq<Event>, now: real, drivingHoursToday: real, timeLeftToday: real, cycleLeft: real)
    requires timeRemainingInDay == DailyOnDutyLimit
    // the day's date, and its one opening event: the pickup on day 0, a rest from the date's midnight otherwise
    ensures date == Date(DayStart(k, currentTime))
    ensures events == [Opening(k, date, DayStart(k, currentTime))]
    ensures now == End(events) && events[0].start == DayStart(k, currentTime)
    // the driving is fixed before anything is charged: the least of the 11-hour cap, the route left and the cycle left
    ensures drivingHoursToday == DrivingToday(DailyOnDutyLimit, totalDrivingTime, hoursLeftOnCycle)
    ensures drivingHoursToday == Min(DailyDrivingLimit, totalDrivingTime)
            <==> hoursLeftOnCycle >= Min(DailyDrivingLimit, totalDrivingTime)
    // the pickup counts against the day's window and against the cycle; the rest does not
    ensures timeLeftToday == DailyOnDutyLimit - OnDutyHours(events)
    ensures cycleLeft == hoursLeftOnCycle - OnDutyHours(events)
  {
    now := currentTime;
    timeLeftToday := timeRemainingInDay;
    cycleLeft := hoursLeftOnCycle;

    // each day after the first restarts at midnight of the next calendar date
    if k > 0 {
      now := Midnight(Date(now) + 1);
      DayStartDate(k, currentTime);
    }
    date := Date(now);
    events := [];

    if k > 0 {
      events := events + [Event(RestKind(k), now, DailyRestPeriod)];
      now := now + DailyRestPeriod;
    }

    drivingHoursToday := DrivingToday(timeLeftToday, totalDrivingTime, cycleLeft);

    if k == 0 {
      events := events + [Event(OnDuty, now, PickupDropoffTime)];
      now := now + PickupDropoffTime;
      timeLeftToday := timeLeftToday - PickupDropoffTime;
      cycleLeft := cycleLeft - PickupDropoffTime;
    }
  }

  /**
   * The driving of day `k` from `now`, with the fueling stop when the day's
   * driving takes the running mileage from below the fuel-stop mileage to at
   * least it: the events logged and the running totals after them.
   */
  method DriveLeg(k: nat, totalHours: real, totalMiles: real, now: real, drivingHoursToday: real,
                  totalDrivingTime: real, timeLeftToday: real, hoursLeftOnCycle: real, milesCovered: real)
    returns (events: seq<Event>, nowAfter: real, miles: real, drivingLeft: real, timeLeft: real, cycleLeft: real)
    requires totalHours > 0.0
    requires drivingHoursToday == DrivingOn(totalHours, k)
    requires milesCovered == MilesBefore(totalHours, totalMiles, k)
    // the driving event, then the fueling stop exactly on the day it falls
    ensures var fuel := FuelsOn(totalHours, totalMiles, k);
            events == [Event(Driving, now, drivingHoursToday)]
                      + (if fuel then [Event(OnDuty, now + drivingHoursToday, FuelingTime)] else [])
    ensures nowAfter == now + drivingHoursToday + (if FuelsOn(totalHours, totalMiles, k) then FuelingTime else 0.0)
    ensures miles == MilesBefore(totalHours, totalMiles, k + 1)
    // the driving comes off the route; driving and fueling come off the day's window and the cycle
    ensures drivingLeft == totalDrivingTime - drivingHoursToday
    ensures timeLeft == timeLeftToday - drivingHoursToday
                        - (if FuelsOn(totalHours, totalMiles, k) then FuelingTime else 0.0)
    ensures cycleLeft == hoursLeftOnCycle - drivingHoursToday
                         - (if FuelsOn(totalHours, totalMiles, k) then FuelingTime else 0.0)
  {
    events := [Event(Driving, now, drivingHoursToday)];
    nowAfter := now + drivingHoursToday;
    var milesPerHour := totalMiles / totalHours;
    miles := milesCovered + drivingHoursToday * milesPerHour;
    timeLeft := timeLeftToday;
    cycleLeft := hoursLeftOnCycle;

    // one fueling stop, on the day the running mileage reaches the fuel-stop mileage
    if miles >= FuelStopMileage && miles - drivingHoursToday * milesPerHour < FuelStopMileage {
      events := events + [Event(OnDuty, nowAfter, FuelingTime)];
      nowAfter := nowAfter + FuelingTime;
      timeLeft := timeLeft - FuelingTime;
      cycleLeft := cycleLeft - FuelingTime;
    }

    drivingLeft := totalDrivingTime - drivingHoursToday;
    timeLeft := timeLeft - drivingHoursToday;
    cycleLeft := cycleLeft - drivingHoursToday;
  }

  /**
   * The close of day `k`'s window from `now`: what is left of the 14 hours is
   * logged on duty, then, on the first day only, a gap of less than the rest
   * period before the end of the date is logged off duty. Returns those
   * events and the instant the day closes.
   */
  method CloseWindow(k: nat, now: real, timeLeftToday: real) returns (events: seq<Event>, closeTime: real)
    ensures var w := now + Max(0.0, timeLeftToday);
            && events == (if timeLeftToday > 0.0 then [Event(OnDuty, now, timeLeftToday)] else [])
                         + (if Pads(k, w) then [Event(OffDuty, w, EndOfDay(w) - w)] else [])
            && closeTime == if Pads(k, w) then EndOfDay(w) else w
    // the padding never reaches past the end of the date the window ends on
    ensures Date(closeTime) == Date(now + Max(0.0, timeLeftToday))
  {
    events := [];
    closeTime := now;

    // the rest of the 14-hour window is logged on duty
    var onDutyDuration := Max(0.0, timeLeftToday);
    if onDutyDuration > 0.0 {
      events := events + [Event(OnDuty, closeTime, onDutyDuration)];
      closeTime := closeTime + onDutyDuration;
    }

    // a short gap before the end of the date is logged off duty, except when the next rest starts at midnight
    var nextRestStartsAtMidnight := k > 0;
    var endOfDay := EndOfDay(closeTime);
    var offDutyDuration := endOfDay - closeTime;
    if offDutyDuration > 0.0 && offDutyDuration < DailyRestPeriod && !nextRestStartsAtMidnight {
      events := events + [Event(OffDuty, closeTime, offDutyDuration)];
      closeTime := closeTime + offDutyDuration;
    }
  }

  /**
   * One iteration of the simulation loop: the log of day `k` as it is
   * committed (its dropoff is appended afterwards, at `closeTime`), and the
   * running totals after it. `currentTime` is where the previous day closed,
   * or the trip's start on day 0.
   */
  method SimulateDay(k: nat, totalHours: real, totalMiles: real, currentTime: real, totalDrivingTime: real,
                     timeRemainingInDay: real, hoursLeftOnCycle: real, milesCovered: real)
    returns (day: DayLog, closeTime: real, drivingLeft: real, cycleLeft: real, miles: real)
    requires totalHours > 0.0
    requires timeRemainingInDay == DailyOnDutyLimit
    requires totalDrivingTime == totalHours - DrivenBefore(totalHours, k)
    requires milesCovered == MilesBefore(totalHours, totalMiles, k)
    requires hoursLeftOnCycle >= Min(DailyDrivingLimit, totalDrivingTime)
    // with its dropoff, the day is the planned day
    ensures day.(events := day.events + [Event(OnDuty, closeTime, PickupDropoffTime)])
            == PlanDay(k, currentTime, totalHours, totalMiles)
    ensures closeTime == DayClose(k, currentTime)
    // the running totals after the day
    ensures drivingLeft == totalHours - DrivenBefore(totalHours, k + 1)
    ensures miles == MilesBefore(totalHours, totalMiles, k + 1)
    ensures cycleLeft == hoursLeftOnCycle - (if k == 0 then PickupDropoffTime else 0.0)
                         - (if FuelsOn(totalHours, totalMiles, k) then FuelingTime else 0.0) - DrivingOn(totalHours, k)
  {
    var date, events, now, drivingHoursToday, timeLeftToday;
    date, events, now, drivingHoursToday, timeLeftToday, cycleLeft :=
      StartDay(k, currentTime, timeRemainingInDay, totalDrivingTime, hoursLeftOnCycle);

    var leg;
    leg, now, miles, drivingLeft, timeLeftToday, cycleLeft :=
      DriveLeg(k, totalHours, totalMiles, now, drivingHoursToday, totalDrivingTime, timeLeftToday, cycleLeft, milesCovered);
    events := events + leg;
    DrivenBeforeStep(totalHours, k);
    assert timeLeftToday > 0.0 && now + timeLeftToday == WorkEnd(k, currentTime);

    var closing;
    closing, closeTime := CloseWindow(k, now, timeLeftToday);
    assert events + closing == Window(k, currentTime, totalHours, totalMiles) + Padding(k, currentTime);
    events := events + closing;

    day := DayLog(date, events);
  }

  /**
   * Commit a day's log to the logs, then append the dropoff, starting at the
   * instant the day closed, to the log just committed.
   */
  method CommitDay(logs: seq<DayLog>, day: DayLog, closeTime: real) returns (result: seq<DayLog>)
    // the earlier logs are untouched, and the committed day carries the dropoff as its last event
    ensures result == logs + [day.(events := day.events + [Event(OnDuty, closeTime, PickupDropoffTime)])]
  {
    result := logs + [day];
    var last := result[|result| - 1];
    result := result[..|result| - 1] + [last.(events := last.events + [Event(OnDuty, closeTime, PickupDropoffTime)])];
  }

  /**
   * The simulation loop: starting at `start` with `cycleUsedHours` of the
   * 70-hour cycle used, plan a route of `totalHours` driving hours and
   * `totalMiles` miles day by day until no driving is left, appending the
   * dropoff to each day as it is committed. Also returns the cycle hours left.
   */
  method Simulate(totalHours: real, totalMiles: real, cycleUsedHours: real, start: real)
    returns (days: seq<DayLog>, cycleLeft: real)
    requires CycleCovers(totalHours, totalMiles, cycleUsedHours)
    // the log is the planned schedule, one day per 11 driving hours
    ensures |days| == DayCount(totalHours)
    ensures days == Schedule(DayCount(totalHours), totalHours, totalMiles, start)
    // the cycle is charged for the pickup, the fueling stop and the driving of every day
    ensures cycleLeft == WeeklyCycleLimit - cycleUsedHours - CycleUsedBefore(totalHours, totalMiles, DayCount(totalHours))
  {
    var remainingCycleHours := WeeklyCycleLimit - cycleUsedHours;
    days := [];
    var currentTime := start;
    var totalDrivingTime := totalHours;
    var timeRemainingInDay := DailyOnDutyLimit;
    var hoursLeftOnCycle := remainingCycleHours;
    var milesCovered := 0.0;

    while totalDrivingTime > 0.0
      invariant |days| <= DayCount(totalHours)
      invariant days == Schedule(|days|, totalHours, totalMiles, start)
      invariant currentTime == CloseAfter(|days|, totalHours, totalMiles, start)
      invariant timeRemainingInDay == DailyOnDutyLimit
      invariant totalHours <= 0.0 ==> days == [] && totalDrivingTime == totalHours
      invariant totalHours > 0.0 ==>
                  && totalDrivingTime == totalHours - DrivenBefore(totalHours, |days|)
                  && milesCovered == MilesBefore(totalHours, totalMiles, |days|)
      invariant hoursLeftOnCycle == remainingCycleHours - CycleUsedBefore(totalHours, totalMiles, |days|)
      invariant CycleCoversFrom(totalHours, totalMiles, cycleUsedHours, |days|)
      decreases DayCount(totalHours) - |days|
    {
      ghost var n := |days|;
      assert n < DayCount(totalHours) by {
        if totalHours > 0.0 {
          DrivingLeftUntilLastDay(totalHours, n);
        }
      }
      CycleCoversStep(totalHours, totalMiles, cycleUsedHours, n);
      var day;
      day, currentTime, totalDrivingTime, hoursLeftOnCycle, milesCovered :=
        SimulateDay(|days|, totalHours, totalMiles, currentTime, totalDrivingTime,
                    timeRemainingInDay, hoursLeftOnCycle, milesCovered);
      assert hoursLeftOnCycle == remainingCycleHours - CycleUsedBefore(totalHours, totalMiles, n + 1);
      assert totalDrivingTime == totalHours - DrivenBefore(totalHours, n + 1);
      assert milesCovered == MilesBefore(totalHours, totalMiles, n + 1);
      ScheduleCommit(n, totalHours, totalMiles, start, day.(events := day.events + [Event(OnDuty, currentTime, PickupDropoffTime)]));
      days := CommitDay(days, day, currentTime);
      timeRemainingInDay := DailyOnDutyLimit;
    }
    cycleLeft := hoursLeftOnCycle;
  }

  /**
   * The whole of the planning after the route lookup: the route's duration in
   * seconds and distance in meters are turned into hours and miles, and the
   * days are simulated from `start`, giving the planned schedule. The route
   * is driven in full, a single fueling stop is made exactly when the route
   * is at least the fuel-stop mileage long, and every day has a non-empty log.
   */
  method CalculateTripLogistics(durationSeconds: real, distanceMeters: real, cycleUsedHours: real, start: real)
    returns (days: seq<DayLog>)
    requires CycleCovers(durationSeconds / SecondsPerHour, distanceMeters / MetersPerMile, cycleUsedHours)
    // the logs are the planned schedule of the route in hours and miles
    ensures |days| == DayCount(durationSeconds / SecondsPerHour)
    ensures days == Schedule(DayCount(durationSeconds / SecondsPerHour), durationSeconds / SecondsPerHour,
                             distanceMeters / MetersPerMile, start)
    ensures durationSeconds <= 0.0 ==> days == []
    ensures TripDrivingHours(days) == Max(0.0, durationSeconds / SecondsPerHour)
    ensures TripFuelStops(days)
            == if durationSeconds > 0.0 && distanceMeters / MetersPerMile >= FuelStopMileage then 1 else 0
    ensures forall j :: 0 <= j < |days| ==> days[j].events != []
  {
    var totalHours := durationSeconds / SecondsPerHour;
    var totalMiles := distanceMeters / MetersPerMile;
    var cycleLeft;
    days, cycleLeft := Simulate(totalHours, totalMiles, cycleUsedHours, start);
    if totalHours > 0.0 {
      TripTotals(totalHours, totalMiles, start);
    }
    ScheduleDates(|days|, totalHours, totalMiles, start);
  }

  /**
   * When the cycle covers every day, the cycle hours the simulation charges
   * are the pickup, the fueling stop when there is one and the hours driven,
   * as the log records them. They overdraw the 70-hour cycle by at most the
   * pickup and the fueling stop, and not at all when the cycle left has room
   * for the route, the pickup and one fueling stop.
   */
  lemma TripCycle(totalHours: real, totalMiles: real, cycleUsedHours: real, start: real)
    requires totalHours > 0.0
    requires CycleCovers(totalHours, totalMiles, cycleUsedHours)
    ensures var days := Schedule(DayCount(totalHours), totalHours, totalMiles, start);
            CycleUsedBefore(totalHours, totalMiles, DayCount(totalHours))
            == PickupDropoffTime + FuelingTime * TripFuelStops(days) as real + TripDrivingHours(days)
    ensures WeeklyCycleLimit - cycleUsedHours - CycleUsedBefore(totalHours, totalMiles, DayCount(totalHours))
            >= -(PickupDropoffTime + FuelingTime)
    ensures WeeklyCycleLimit - cycleUsedHours >= totalHours + PickupDropoffTime + FuelingTime ==>
              WeeklyCycleLimit - cycleUsedHours - CycleUsedBefore(totalHours, totalMiles, DayCount(totalHours)) >= 0.0
  {
    var n := DayCount(totalHours);
    CycleCoversEachDay(totalHours, totalMiles, cycleUsedHours);
    assert CycleLeftOn(totalHours, totalMiles, cycleUsedHours, n - 1) >= DrivingOn(totalHours, n - 1);
    assert CycleUsedBefore(totalHours, totalMiles, n)
           <= CycleUsedBefore(totalHours, totalMiles, n - 1) + PickupDropoffTime + FuelingTime + DrivingOn(totalHours, n - 1);
    CycleUsedIs(totalHours, totalMiles, n);
    TripTotals(totalHours, totalMiles, start);
  }

  /**
   * A 9-hour route of 500 miles with 61 cycle hours used: the cycle covers its
   * one day's driving, and the pickup then takes the cycle one hour below zero.
   */
  lemma CycleOverdrawnByPickup()
    ensures CycleCovers(9.0, 500.0, 61.0)
    ensures WeeklyCycleLimit - 61.0 - CycleUsedBefore(9.0, 500.0, DayCount(9.0)) == -1.0
  {
    assert DayCount(9.0) == 1 by {
      assert DayCount(9.0 - DailyDrivingLimit) == 0;
    }
    assert !FuelsOn(9.0, 500.0, 0);
  }

  /**
   * The trip planner's test: a route of 72000 seconds and 1931000 meters
   * (about 1199.86 miles), with 10.5 cycle hours used. The cycle covers it,
   * and it takes two days: the first bears the start's date, opens with the
   * pickup and has no fueling stop, the second opens in the sleeper berth
   * and holds the fueling stop, and both logs are non-empty.
   */
  method CalculateTripLogisticsTest(start: real) returns (days: seq<DayLog>)
    ensures |days| == 2
    ensures days[0].events != [] && days[1].events != []
    ensures days[0].date == Date(start)
    ensures days[0].events[0] == Event(OnDuty, start, PickupDropoffTime)
    ensures days[1].events[0].kind == SleeperBerth
    ensures FuelStops(days[0].events) == 0 && FuelStops(days[1].events) == 1
  {
    var totalHours, totalMiles := 72000.0 / SecondsPerHour, 1931000.0 / MetersPerMile;
    assert DayCount(totalHours) == 2 by {
      assert DayCount(totalHours - 2.0 * DailyDrivingLimit) == 0;
    }
    assert !FuelsOn(totalHours, totalMiles, 0) && FuelsOn(totalHours, totalMiles, 1) by {
      assert MilesBefore(totalHours, totalMiles, 1) == 11.0 * (totalMiles / 20.0);
      assert MilesBefore(totalHours, totalMiles, 2) == totalMiles by {
        MilesAtArrival(totalHours, totalMiles);
      }
    }
    RoomForRouteCovers(totalHours, totalMiles, 10.5);
    days := CalculateTripLogistics(72000.0, 1931000.0, 10.5, start);
    ScheduleShape(2, totalHours, totalMiles, start);
    ScheduleDates(2, totalHours, totalMiles, start);
    ScheduleDayTotals(2, 0, totalHours, totalMiles, start);
    ScheduleDayTotals(2, 1, totalHours, totalMiles, start);
  }
}

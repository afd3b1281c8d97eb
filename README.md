# Hours-of-Service trip planner: the day simulator

This project models the day-by-day Hours-of-Service simulation at the heart of
the trip planner's `calculate_trip_logistics` (trips/utils.py:102-258). The
route's duration and distance are given. The driver's used cycle hours and
the instant the trip starts are also inputs. From these the simulation builds
one duty log per calendar day. Each log is an ordered list of events:
`driving`, `on_duty`, `off_duty` or `sleeper_berth`, each with a start
instant and a duration in hours.

Time is a real number of hours since midnight of an epoch day. The calendar
date of an instant is the number of whole days since then. The end of a date
is one microsecond before the next midnight, as `datetime.max.time()` gives it.

The model has three modules:

- `HosRules` (hos_rules.dfy) holds several things:
  - the rule constants;
  - the log datatypes (`Kind`, `Event`, `DayLog`);
  - the calendar;
  - the sums over a log (driving hours, on-duty hours, fueling stops);
  - `DayShape`, the shape every day's log has.
- `HosSchedule` (schedule.dfy) is the schedule in closed form:
  - `DayCount`, the number of days;
  - `DrivingOn`, the driving hours of each day;
  - `MilesBefore`, the running mileage;
  - `FuelsOn`, the day of the fueling stop;
  - `CycleUsedBefore`, the cycle hours charged;
  - `PlanDay`, each day's log from the instant the previous day closed;
  - `Schedule`, the whole trip.

  Its lemmas state what the planner promises of that schedule.
- `TripLogistics` (trip_logistics.dfy) is the simulation loop itself. It is
  imperative, like the source:
  - `Simulate` holds the `while` loop over the running totals;
  - `SimulateDay` is one iteration, made of `StartDay`, `DriveLeg` and
    `CloseWindow`;
  - `CalculateTripLogistics` does the unit conversion and calls `Simulate`.

  Each method is proved equal to the closed-form schedule.

What the code does, as the model states it:

- A route of `h` driving hours takes `ceil(h / 11)` days. Every day drives
  11 hours except the last, which drives what is left. The driving over the
  trip sums to `h`.
- Day 0 opens with a 1-hour `on_duty` pickup at the start instant. Every
  later day `k` opens at midnight with a 10-hour rest: `sleeper_berth` when
  `k` is odd, `off_duty` when `k` is even. Day 1 therefore rests in the
  sleeper berth.
- The simulation makes one fueling stop at most over the whole trip, of
  0.5 hours. The stop falls on the day whose driving takes the running
  mileage from below 1000 miles to at least 1000. A route of 2500 miles
  still gets one stop only.
- Each day's window adds up to exactly 14 on-duty hours: pickup, driving,
  fueling and an `on_duty` residual. The residual is always at least
  1.5 hours.
- Only day 0 can be padded with `off_duty` time up to the end of its date.
  That padding is strictly between 0 and 10 hours.
- Every day, not only the last, ends with a 1-hour `on_duty` dropoff. The
  dropoff starts where the day closed and does not advance the clock.
- A day after the first spans 24 hours from midnight: a 10-hour rest and
  then the 14-hour window. It therefore closes at the midnight that ends
  its date. The next day restarts at midnight of the date after that, so
  from the third day on each day's date is two after the previous one's,
  and one calendar date is skipped between them.
- The cycle is charged for the pickup, the fueling stop and the driving,
  and for nothing else.

The simulation loop terminates exactly when, on every day, the cycle hours
left when the day's driving is fixed cover that day's share of the route
(`CycleCovers`). On a day where they fall short, the day drives only the
cycle hours left, driving is still left afterwards and the cycle is used up.
From then on no day drives anything and the loop repeats forever
(`CycleShortfallLeavesDriving`, `CycleExhaustedNeverEnds`). The simulation
is therefore modelled for the inputs satisfying `CycleCovers`. Having
`70 - used >= h + 1.5` is enough for it (`RoomForRouteCovers`); the 1.5
hours are the pickup plus one fueling stop.

The day's driving is fixed before the pickup and the fueling stop are
charged to the cycle. A trip can therefore end with the cycle overdrawn by
up to 1.5 hours: a 9-hour route with 61 hours already used ends with the
cycle at -1 (`CycleOverdrawnByPickup`).

## Model

| member | source | states |
|---|---|---|
| `HosRules.DateBounds` | trips/utils.py:139-143 | an instant lies between the midnight of its date and the next midnight |
| `HosRules.DateIs` | trips/utils.py:139-143 | an instant between the midnights of date `d` and `d + 1` falls on date `d` |
| `HosRules.EndOfDay` | trips/utils.py:230 | the end of a date falls on that same date, and no instant of the date is more than a microsecond later |
| `HosRules.TotalsConcat` | trips/utils.py:143-244 | appending events adds their driving hours, on-duty hours and fueling stops to the log's totals |
| `HosRules.DayShape` | trips/utils.py:139-256 | the shape of one day's log: the opening event, the driving, the fueling stop when due, a positive residual completing 14 on-duty hours, off-duty padding on day 0 only and the 1-hour dropoff, all contiguous |
| `HosRules.ResidualAtLeast` | trips/utils.py:158-217 | in a day of the day shape with at most 11 driving hours, the residual on-duty event lasts at least 14 - 1 - 11 - 0.5 = 1.5 hours |
| `HosSchedule.DayCount` | trips/utils.py:129-206 | no days when the route has no duration; otherwise the least `n` with `h <= 11 n`, i.e. `ceil(h / 11)` |
| `HosSchedule.DrivenBeforeStep` | trips/utils.py:204 | the driving before day `k`, plus day `k`'s driving, is the driving before day `k + 1` |
| `HosSchedule.DrivingOnBounds` | trips/utils.py:158-163 | on every day of the trip the driving is positive and at most 11 hours; it equals all the driving still left exactly on the last day |
| `HosSchedule.DrivingLeftUntilLastDay` | trips/utils.py:137-206 | driving is left before day `k` if and only if `k` is before the last day, so the loop runs once per day |
| `HosSchedule.DrivenBeforeMonotone` | trips/utils.py:204 | the driving done never decreases from one day to a later one |
| `HosSchedule.MilesBeforeIs` | trips/utils.py:186 | the running mileage is the hours driven so far times the route's average speed `miles / hours` |
| `HosSchedule.MilesStayReached` | trips/utils.py:186-193 | once the running mileage has reached 1000 miles, it stays at or above 1000 |
| `HosSchedule.MilesAtArrival` | trips/utils.py:186 | after the last day, the running mileage is the route's mileage |
| `HosSchedule.FuelsBeforeReached` | trips/utils.py:189-202 | the days before day `k` made one fueling stop if their mileage reached 1000 miles, and none otherwise |
| `HosSchedule.FuelsBeforeMonotone` | trips/utils.py:189-202 | the count of fueling stops made never decreases from one day to a later one |
| `HosSchedule.FuelStopAtMostOnce` | trips/utils.py:189-202 | two days that both make the fueling stop are the same day |
| `HosSchedule.CycleUsedIs` | trips/utils.py:166-206 | the cycle hours charged before day `k` are the pickup (from day 1 on), 0.5 per fueling stop made and the driving done, and nothing else |
| `HosSchedule.PlanDay` | trips/utils.py:137-256 | the log of day `k`, planned from the instant the previous day closed: its opening, driving, fueling, residual, padding and dropoff |
| `HosSchedule.Schedule` | trips/utils.py:137-256 | the planned trip has one log per day planned |
| `HosSchedule.DayStartDate` | trips/utils.py:139-143 | a day after the first starts at a midnight, on the date after the one the previous day closed on |
| `HosSchedule.PlanDayShape` | trips/utils.py:139-256 | a planned day has the day shape. It opens with the pickup at the start (day 0) or the rest of day `k`'s kind at its midnight (days >= 1), then drives that day's hours. The fueling stop comes exactly when due. The positive residual completes 14 on-duty hours. Off-duty padding of 0 to 10 hours, ending at the end of the date, is possible on day 0 only. It ends with a 1-hour dropoff, and its events are contiguous |
| `HosSchedule.WindowTotals` | trips/utils.py:178-217 | the 14-hour window of day `k` drives that day's share and holds one fueling stop exactly when it falls on day `k` |
| `HosSchedule.PlanDayTotals` | trips/utils.py:137-256 | a planned day, padding and dropoff included, drives its share and makes the fueling stop exactly when due |
| `HosSchedule.PlanDayClose` | trips/utils.py:139-244 | day 0 bears the start's date and day `k >= 1` the date after the previous close. The day closes where its dropoff starts. Day 0 closes no earlier than its date. A later day closes at the midnight ending its date |
| `HosSchedule.ScheduleAt` | trips/utils.py:137-256 | day `j` of the trip is the day planned from the instant the days before it closed |
| `HosSchedule.ScheduleStep` | trips/utils.py:246-256 | planning one more day leaves the days already planned unchanged |
| `HosSchedule.ScheduleCommit` | trips/utils.py:246-256 | committing the planned day `n`, dropoff included, turns the first `n` days into the first `n + 1`, and the trip then closes where day `n` closes |
| `HosSchedule.ScheduleDayTotals` | trips/utils.py:137-256 | day `j` of the trip drives its share and makes the fueling stop exactly when it falls on day `j` |
| `HosSchedule.ScheduleShape` | trips/utils.py:137-256 | every day of the trip has the day shape, with its share of the driving and the fueling stop where it falls |
| `HosSchedule.ScheduleDriving` | trips/utils.py:178-206 | the logs of the first `n` days record exactly the driving the 11-hour cap allows in `n` days |
| `HosSchedule.ScheduleFuel` | trips/utils.py:189-202 | the logs of the first `n` days record one fueling stop once the mileage has reached 1000 miles, none before |
| `HosSchedule.TripTotals` | trips/utils.py:137-206 | over the whole trip the logs record driving equal to the route's hours. They record one fueling stop exactly when the route is at least 1000 miles long, and none otherwise |
| `HosSchedule.ScheduleDateStep` | trips/utils.py:139-244 | day `j - 1`'s log is non-empty. Day `j` bears the date after the one day `j - 1` closed on, a strictly later date. From the third day on, that date is two after the previous one |
| `HosSchedule.ScheduleDates` | trips/utils.py:139-256 | the same for the whole trip. The first day bears the start's date, every log is non-empty, and dates strictly increase |
| `TripLogistics.CycleCovers` | trips/utils.py:158-163 | on every day of the trip, the cycle hours left when the day's driving is fixed cover that day's share of the route |
| `TripLogistics.CycleCoversFromEachDay` | trips/utils.py:158-163 | the cycle covers the days from `k` on if and only if the cycle hours left cover each of those days' share |
| `TripLogistics.CycleCoversEachDay` | trips/utils.py:158-163 | the cycle covers the trip if and only if the cycle hours left cover every day's share |
| `TripLogistics.RoomForRouteCovers` | trips/utils.py:114-206 | 70 hours less the hours used, at least the route plus the pickup and one fueling stop, cover every day of the trip |
| `TripLogistics.CycleShortfallLeavesDriving` | trips/utils.py:158-206 | on a day where the cycle left is below `min(11, driving left)`, the day drives exactly the cycle left, driving is still left after it, and the cycle is used up |
| `TripLogistics.CycleExhaustedNeverEnds` | trips/utils.py:137-206 | once the cycle is used up with driving left, a day drives nothing, driving stays left and the cycle stays used up, so the loop never ends |
| `TripLogistics.StartDay` | trips/utils.py:138-176 | the date and opening event of day `k`. The day's driving is the least of 11, the driving left and the cycle left, and it is `min(11, driving left)` if and only if the cycle left covers that. The pickup, and not the rest, is charged to the window and the cycle |
| `TripLogistics.DriveLeg` | trips/utils.py:178-206 | the driving event, then the 0.5-hour fueling stop exactly on the day the mileage reaches 1000 miles. The new running mileage is the mileage after day `k`. The driving comes off the route, and driving and fueling come off the window and the cycle |
| `TripLogistics.CloseWindow` | trips/utils.py:208-244 | the residual on duty when positive, then off-duty padding to the end of the date on day 0 only. The day closes on the date its window ends |
| `TripLogistics.SimulateDay` | trips/utils.py:137-247 | when the cycle left covers the day's share, one iteration commits exactly the planned day (less its dropoff) and closes where the plan does. The driving left, the mileage and the cycle hours become those after day `k` |
| `TripLogistics.CommitDay` | trips/utils.py:246-256 | the log list gains the day, and the 1-hour dropoff starting at the day's close is appended to that last day |
| `TripLogistics.Simulate` | trips/utils.py:114-256 | when the cycle covers every day, the loop terminates after `ceil(h / 11)` days, and its logs are exactly the planned schedule. The cycle hours left are 70, less the hours used, less the pickup, fueling and driving charged |
| `TripLogistics.CalculateTripLogistics` | trips/utils.py:102-258 | seconds and meters are converted to hours and miles, and the logs are the planned schedule of that route. A route with no duration gives no logs. The logs record driving equal to the route's hours, and one fueling stop exactly when the route is at least 1000 miles long. Every log is non-empty |
| `TripLogistics.TripCycle` | trips/utils.py:114-206 | the cycle hours the trip charges are the pickup, 0.5 per fueling stop in the logs and the driving in the logs. When the cycle covers every day, they overdraw the 70-hour cycle by at most the pickup and one fueling stop, 1.5 hours. They do not overdraw it at all when 70 less the hours used is at least the route plus 1.5 hours |
| `TripLogistics.CycleOverdrawnByPickup` | trips/utils.py:158-176 | a 9-hour, 500-mile route with 61 hours used satisfies `CycleCovers`, and the pickup charged after the driving was fixed leaves the cycle at -1 |
| `TripLogistics.CalculateTripLogisticsTest` | tests/test_trip_plannner.py:77-106 | `CalculateTripLogistics` on 72000 s, 1931000 m and 10.5 used hours returns two days, both non-empty. Day 0 bears the start's date and opens with the pickup, without fueling. Day 1 opens in the sleeper berth and holds the one fueling stop |

## Left out

- Geocoding and routing through OpenRouteService (trips/utils.py:11-99) are HTTP calls and polyline decoding. The model takes the route's duration and distance as inputs.
- `datetime.now()` (trips/utils.py:117) is the parameter `start`.
- ISO-8601 formatting of dates and instants is left out. Dates are integer day numbers, and instants are real hours.
- Python floating point is modelled by exact reals. Rounding in `total_miles / total_hours` and in the microsecond arithmetic of `timedelta` is not captured.
- The unused `total_non_driving_on_duty` (trips/utils.py:130) is left out.
- Django views, serializers, models and URL routing (trips/views.py, trips/serializers.py, trips/models.py, trips/urls.py) have no scheduling logic.
- TripLogistics.Simulate: modelled only for inputs satisfying `CycleCovers`. On the other inputs the loop never terminates, as `CycleShortfallLeavesDriving` and `CycleExhaustedNeverEnds` show day by day, so there is no result to state.
- TripLogistics.SimulateDay: a whole day is modelled only when the cycle left covers the day's share. `StartDay` states the binding case, and the two lemmas above state what follows from it.
- TripLogistics.CalculateTripLogistics: the loop state's dictionary representation is not modelled. That covers `day_log` and the in-place mutation of `eld_logs[-1]["events"]`. A day is a value that is replaced by the same day with the dropoff appended.
- A fueling event is recognised in a log as an `on_duty` event of exactly 0.5 hours. Pickup, dropoff and the residual (at least 1.5 hours) never have that length, and the source's events carry no other tag.
- The comment at trips/utils.py:112 speaks of fueling every 1000 miles. The code compares the running mileage with the single 1000-mile mark, so it fuels once at most, and the model follows the code.

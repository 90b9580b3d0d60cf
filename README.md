# Solar tracker: step scheduling, relay pulses and the daily tick

This project models the deterministic tracking logic of `tracker.py`. The
program points an array of solar panels at the sun. Each panel has a linear
actuator, which it moves by pulsing an east relay or a west relay. The model
has three parts.

- **Step derivation** (`Panels`). `get_step_count` finds the first panel
  with the shortest throw time. It writes a `step_time` into every panel
  (`relay_cycle_min` = 2.25 s for that panel, a scaled value for the others)
  and returns the day's step count. `get_sleep_time` divides the daylight
  by that count.
- **Relay pulses** (`Pulses`). `step_west`, `goto_eastern_limit`,
  `goto_western_limit` and `init_pins` are traces of `GPIO.output` and
  `time.sleep` events. A pin that is LOW energises its relay. The trace's
  pin levels are tracked as the set of LOW pins, so "one relay at a time"
  and "no relay left on" can be stated about any trace.
- **The daily tick** (`DayTracking`, `Tracker`). One iteration of the
  inner loop of `main_loop` decides from `now`, sunrise, sunset and the
  linger period whether to do nothing, step west, or drive east. A run is a
  sequence of ticks within one day. `Tracker.SolarTracker` is a class that
  holds the panel table, which `get_step_count` rewrites in place, and the
  day state (`steps_done`, `at_eastern_limit`, `at_western_limit`,
  `sleep_time`). Its methods are proved against the pure definitions.

Unix times and throw times are `int`. Durations are exact `real`.
Exceptions that end the program are `Err(ZeroDivisionError)` and
`Err(NameError)`.

Where the intended behaviour and the code differ, the model follows the
code:

- The step count is `shortest_throw / 2.25` as a real number, not rounded
  down. The test `steps_done < get_step_count()` therefore allows the count
  rounded up: 27 steps for the program's own table, where 60 / 2.25 ≈ 26.67.
- When the step budget is used up before sunset, the log message refers to
  the unbound name `step_count`. The tick raises `NameError`. It does not
  hold in place, and it does not set `at_western_limit`.
- `at_western_limit` is never set to true, and the eastern drive does not
  clear it.
- The chain compares with strict `<` and `>`. At `now == sunset` and at
  `now == sunset + linger`, no arm fires.
- Division by zero raises (`ZeroDivisionError`). It is not reported as a
  configuration error. The scaled step time uses Python 2 floor division on
  ints.

## Model

| member | source | states |
|---|---|---|
| `Panels.FloorDiv` | tracker.py:49 | the quotient of Python 2 int division is rounded toward negative infinity, for either sign of the divisor |
| `Panels.ShortestUpTo` | tracker.py:35-42 | after the first n panels, the chosen panel has a minimum throw, and every earlier panel is strictly longer (ties go to the lowest number) |
| `Panels.Shortest` | tracker.py:35-42 | shortest_throw_panel is a panel of minimum throw, and the first such panel |
| `Panels.MinThrow` | tracker.py:35-42 | shortest_throw after the first loop is 0 when there are no panels. Otherwise it is the throw of some panel, and no panel's throw is shorter |
| `Panels.StepCountValue` | tracker.py:52 | the returned count times 2.25 is the shortest throw. The count is positive iff the shortest throw is |
| `Panels.DivisionByZero` | tracker.py:45-49 | the second loop divides by zero iff there are at least two panels, some throw time is 0 and none is negative |
| `Panels.StepCountOf` | tracker.py:34-52 | get_step_count raises `ZeroDivisionError` exactly in the `DivisionByZero` case. Otherwise the count times 2.25 is the shortest throw |
| `Panels.StepCountPanels` | tracker.py:45-49 | after get_step_count, only step_time changes. The shortest panel gets exactly 2.25 and every other panel gets floor(throw / shortest) * 2.25. On a division by zero, the first panel has its step time written only if it is the shortest, and no later panel has changed |
| `Panels.SleepTimeOf` | tracker.py:82-83 | get_sleep_time returns iff there are panels and the shortest throw is nonzero. Sleep time × step count = sunset − sunrise, and the sleep time is positive when sunset > sunrise and throws are positive |
| `Panels.StepBudget` | tracker.py:149 | the number of steps the test lets through: 0 iff the count is not positive, otherwise the count rounded up |
| `Panels.StepTimesNonNegative` | tracker.py:45-49 | when no throw time is negative and get_step_count returns, every step time it writes is non-negative |
| `Panels.StepBudgetExact` | tracker.py:149 | `steps_done < get_step_count()` holds exactly for steps_done below the count rounded up |
| `Panels.StepCountIdempotent` | tracker.py:34-52 | calling get_step_count again returns the same value and writes the same step times |
| `Panels.StepCountPermutationInvariant` | tracker.py:34-52 | the returned step count (or its error) does not depend on the order of the panels |
| `Panels.StepTimeCoversThrow` | tracker.py:45-52 | step time × step count never exceeds the panel's throw. It equals the throw iff the shortest throw divides it (`CoversThrow`) |
| `Panels.DefaultPanelsStepCount` | tracker.py:24-52 | for the program's table, panel 1 is the shortest, the step count is 60/2.25, the budget is 27, and the step times are 2.25, 4.5 and 4.5 |
| `Pulses.WestSteps` | tracker.py:89-94 | step_west's loop makes one pulse per panel, in panel order, on the panel's west pin for its step time |
| `Pulses.EastDrives` | tracker.py:96-102 | goto_eastern_limit makes one pulse per panel, in panel order, on the panel's east pin for its throw time |
| `Pulses.WestDrives` | tracker.py:104-110 | goto_western_limit makes one pulse per panel, in panel order, on the panel's west pin for its throw time |
| `Pulses.StepWestTrace` | tracker.py:85-94 | step_west emits eight events per panel on the first step of a day away from the eastern limit and four otherwise. It never has two relays on at once and leaves none on |
| `Pulses.InitTrace` | tracker.py:118-122 | init_pins writes, panel by panel, the east pin HIGH and then the west pin HIGH, two writes per panel |
| `Pulses.PulseTrace` | tracker.py:89-110 | a driver's trace has four events per panel |
| `Pulses.PulseTraceSafe` | tracker.py:89-110 | a driver's trace never has two pins LOW at once and ends with every pin HIGH |
| `Pulses.PulseTraceAt` | tracker.py:89-110 | event 4i+k of a driver's trace is event k of panel i's pulse: LOW, sleep, HIGH on the same pin, then sleep 0.25 |
| `Pulses.DriverTraces` | tracker.py:89-110 | panel i's four events. goto_eastern_limit pulses the east pin for the throw time. goto_western_limit pulses the west pin for the throw time. step_west's loop pulses the west pin for the step time |
| `Pulses.StepWestOrder` | tracker.py:85-94 | step_west emits the full eastern drive first iff steps_done is 0 and the array is not at the eastern limit. Otherwise it emits only the west pulses, panel by panel |
| `Pulses.PulseTraceSleeps` | tracker.py:89-110 | pulses of non-negative duration never ask `time.sleep` for a negative time |
| `Pulses.InitPinsAllHigh` | tracker.py:112-122 | from any pin levels, init_pins leaves every east and west pin HIGH and drives none LOW |
| `DayTracking.BranchOf` | tracker.py:144-158 | the arm the if/elif chain takes, each arm given by its own condition and the failed conditions of the arms before it |
| `DayTracking.TickSpec` | tracker.py:143-164 | a tick changes no throw time and never sets at_western_limit. It leaves the table as it was or as get_step_count rewrites it. steps_done stays or grows by one on a step. An exception is raised only in daylight and keeps the day state |
| `DayTracking.Run` | tracker.py:140-166 | a run of ticks changes no throw time and keeps at_western_limit |
| `DayTracking.TickRules` | tracker.py:143-164 | before sunrise nothing happens. In daylight, with two or more panels, a zero shortest throw raises `ZeroDivisionError` with the state kept (a single panel of throw 0 gives the count 0.0 and so the budget arm). Within the budget, the tick emits step_west's trace over the rewritten table, steps_done + 1 and at_eastern_limit false. Past the budget, NameError with the state kept. While lingering or exactly at a boundary, nothing happens. Past the linger period, one eastern drive sets at_eastern_limit |
| `DayTracking.TickKeepsBudget` | tracker.py:148-153 | a tick keeps steps_done within the rounded-up step count. It never sets at_western_limit and never changes a throw time |
| `DayTracking.RunKeepsBudget` | tracker.py:140-166 | over any run of ticks, steps_done stays within the budget and at_western_limit keeps its value |
| `DayTracking.RunStepCount` | tracker.py:148-153 | steps_done never decreases within a day and grows by at most one per tick |
| `DayTracking.TickTraceSafe` | tracker.py:148-164 | every tick's trace, including the eastern drive before the first step, keeps at most one relay on and leaves none on |
| `DayTracking.RunTraceSafe` | tracker.py:140-166 | the trace of a whole run keeps at most one relay on and leaves none on |
| `DayTracking.TickSleepsNonNegative` | tracker.py:143-164 | when no throw time is negative, no sleep of a tick's trace is negative |
| `DayTracking.RunQuiet` | tracker.py:144-157 | any number of ticks before sunrise or inside the linger period emit nothing and change nothing |
| `DayTracking.RunEastOnce` | tracker.py:158-164 | after the linger period, a run emits exactly one eastern drive (none if already at the limit) and ends at the eastern limit |
| `Tracker.SolarTracker.constructor` | tracker.py:125-127 | the loop starts at the eastern limit, not at the western one, with the configured table |
| `Tracker.SolarTracker.FindShortest` | tracker.py:35-42 | the first loop of get_step_count computes the shortest throw and the first panel that has it |
| `Tracker.SolarTracker.GetStepCount` | tracker.py:34-52 | the in-place rewrite of the panel table and the value returned, or the division by zero, as `StepCountPanels`/`StepCountOf`. No throw time changes and the budget invariant is kept |
| `Tracker.SolarTracker.GetSleepTime` | tracker.py:82-83 | returns `SleepTimeOf` and leaves the table rewritten by get_step_count. No throw time changes and the budget invariant is kept |
| `Tracker.SolarTracker.StepWest` | tracker.py:85-94 | emits the optional eastern drive, then one west step per panel in order |
| `Tracker.SolarTracker.GotoEasternLimit` | tracker.py:96-102 | emits one full-throw east pulse per panel in order |
| `Tracker.SolarTracker.GotoWesternLimit` | tracker.py:104-110 | emits one full-throw west pulse per panel in order |
| `Tracker.SolarTracker.InitPins` | tracker.py:112-122 | sets each panel's east pin, then its west pin, HIGH |
| `Tracker.SolarTracker.NewDay` | tracker.py:129-137 | a new day computes the sleep time from that day's sun times and resets steps_done to 0. The limit flags are kept. If get_sleep_time raises, steps_done is not reset |
| `Tracker.SolarTracker.Tick` | tracker.py:140-166 | one tick, with the program's linger period of 7200 s, changes the day state and the panel table as `TickSpec` says, returns its trace or exception, and keeps the budget invariant |

## Left out

- `sun_times` (tracker.py:54-77) is not part of this model. It computes sunrise, noon and sunset with an astronomy library and converts them to unix time. `NewDay` and `Tick` take the resulting integers as parameters, so one `NewDay` call stands for the one query per day. Noon is not used by the scheduling and is omitted.
- `GPIO.setmode`, `GPIO.setup` and `GPIO.cleanup` configure and reset hardware. Only `GPIO.output` and `time.sleep` appear, as trace events.
- `log_time` and every `print` only log and do not affect state, except the `print` at line 155, which is modelled as `NameError`.
- The `while True` loop, `datetime.now()` and the day-of-month comparison are wall-clock plumbing. The model has one tick (`Tick`), a run of ticks at given times (`Run`) and an explicit new-day operation (`NewDay`).
- Tracker.SolarTracker.Tick: the returned trace leaves out the tick's own `time.sleep(sleep_time)` at line 166, and the second one that a tick before sunrise makes at line 146. It holds only the relay pulses. So a negative `sleep_time` (a sunset before the sunrise), on which `time.sleep` raises at those lines, is not modelled.
- Pulses.PulseTrace: `time.sleep` raises on a negative duration, which a negative `step_time` or `throw_time` would give at tracker.py:92, 100 and 108. The relay driven LOW just before stays LOW: the west relay at lines 92 and 108, the east relay at line 100. The model records every sleep as an event and does not raise. `PulseTraceSleeps` and `TickSleepsNonNegative` show that this cannot happen when no throw time is negative, as in the program's table.
- The `__main__` block (tracker.py:169-177) catches every `Exception` and logs it. `KeyboardInterrupt` and `SystemExit` are not caught, but `GPIO.cleanup()` runs in its `finally` either way. In the model an exception is an `Err` result, after which nothing runs.
- Python floats are modelled as exact reals, so 2.25 and the ratios carry no rounding.
- The code has no handling of its own for configuration, scheduling or hardware I/O errors. Of the exceptions it can raise, `ZeroDivisionError` and `NameError` are modelled. The negative sleeps above and the errors of the GPIO and astronomy libraries are not.

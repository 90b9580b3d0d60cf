/** The tracker's mutable state and its operations: the module-level `panels`
    dictionary, which get_step_count rewrites in place, and the day state
    that main_loop keeps in its locals.  Each method is proved against the
    pure definitions in Panels, Pulses and DayTracking.
 */
module Tracker {
  import opened Outcomes
  import opened Panels
  import opened Pulses
  import opened DayTracking

  class SolarTracker {
    var panels: seq<Panel>
    var stepsDone: nat
    var atEasternLimit: bool
    var atWesternLimit: bool
    /** sleep_time: the tick interval of the current day. */
    var sleepTime: real

    function State(): DayState
      reads this
    {
      DayState(stepsDone, atEasternLimit, atWesternLimit)
    }

    /** at_western_limit is never set, and steps_done never passes the
        day's step budget. */
    ghost predicate Valid()
      reads this
    {
      !atWesternLimit && stepsDone <= StepBudget(StepCountValue(panels))
    }

    /** The state main_loop starts from: the configured panel table, the
        array assumed at the eastern limit, not at the western one. */
    constructor (config: seq<Panel>)
      ensures Valid()
      ensures panels == config && State() == DayState(0, true, false) && sleepTime == 0.0
    {
      panels := config;
      stepsDone := 0;
      atEasternLimit := true;
      atWesternLimit := false;
      sleepTime := 0.0;
    }

    /** The first loop of get_step_count: the throw time of the shortest
        panel and the first panel that has it. */
    method FindShortest() returns (shortestThrow: int, shortestPanel: nat)
      ensures shortestThrow == MinThrow(panels)
      ensures |panels| > 0 ==> shortestPanel == Shortest(panels)
    {
      var n := |panels|;
      shortestThrow := 0;
      shortestPanel := 0;
      var i := 0;
      while i < n
        invariant 0 <= i <= n
        invariant i == 0 ==> shortestThrow == 0
        invariant i > 0 ==> shortestPanel == ShortestUpTo(Throws(panels), i)
        invariant i > 0 ==> shortestThrow == panels[shortestPanel].throwTime
      {
        if i == 0 {
          shortestThrow := panels[i].throwTime;
          shortestPanel := i;
        } else if panels[i].throwTime < shortestThrow {
          shortestThrow := panels[i].throwTime;
          shortestPanel := i;
        }
        i := i + 1;
      }
    }

    /** get_step_count: find the first panel with the shortest throw, write
        every panel's step time, return the day's step count. */
    method GetStepCount() returns (r: Result<real>)
      modifies this`panels
      ensures r == StepCountOf(old(panels))
      ensures panels == StepCountPanels(old(panels))
      ensures Throws(panels) == Throws(old(panels))
      ensures old(Valid()) ==> Valid()
    {
      var n := |panels|;
      var shortestThrow, shortestPanel := FindShortest();
      var i := 0;
      ghost var ps := old(panels);
      i := 0;
      while i < n
        invariant 0 <= i <= n && |panels| == n
        invariant n > 0 ==> shortestPanel == Shortest(ps) && shortestThrow == ps[shortestPanel].throwTime
        invariant n > 0 && shortestThrow == 0 ==> i <= FirstOther(shortestPanel)
        invariant n > 0 ==> panels == AssignStepTimes(ps, shortestPanel, i)
        invariant n == 0 ==> panels == ps
      {
        if i == shortestPanel {
          AssignNext(ps, shortestPanel, i);
          panels := panels[i := panels[i].(stepTime := Some(RelayCycleMin))];
        } else {
          var divisor := panels[shortestPanel].throwTime;
          if divisor == 0 {
            assert i == FirstOther(shortestPanel);
            return Err(ZeroDivisionError);
          }
          AssignNext(ps, shortestPanel, i);
          var stepTime := FloorDiv(panels[i].throwTime, divisor) as real * RelayCycleMin;
          panels := panels[i := panels[i].(stepTime := Some(stepTime))];
        }
        i := i + 1;
      }
      assert n > 0 ==> !DivisionByZero(ps) && StepCountPanels(ps) == AssignStepTimes(ps, shortestPanel, n);
      r := Ok(shortestThrow as real / RelayCycleMin);
    }

    /** get_sleep_time: the daylight divided by the step count. */
    method GetSleepTime(sunrise: int, sunset: int) returns (r: Result<real>)
      modifies this`panels
      ensures r == SleepTimeOf(old(panels), sunrise, sunset)
      ensures panels == StepCountPanels(old(panels))
      ensures Throws(panels) == Throws(old(panels))
      ensures old(Valid()) ==> Valid()
    {
      var count := GetStepCount();
      if count.Err? {
        return Err(count.error);
      }
      if count.value == 0.0 {
        return Err(ZeroDivisionError);
      }
      r := Ok((sunset - sunrise) as real / count.value);
    }

    /** goto_eastern_limit: each panel in turn, east relay for its full throw. */
    method GotoEasternLimit() returns (trace: seq<Event>)
      ensures trace == PulseTrace(EastDrives(panels))
    {
      trace := [];
      var i := 0;
      while i < |panels|
        invariant 0 <= i <= |panels|
        invariant trace == PulseTrace(EastDrives(panels)[..i])
      {
        var p := panels[i];
        trace := trace + [Output(p.eastPin, Low), Sleep(p.throwTime as real), Output(p.eastPin, High), Sleep(SettleTime)];
        i := i + 1;
        assert EastDrives(panels)[..i][..i - 1] == EastDrives(panels)[..i - 1];
      }
      assert EastDrives(panels)[..i] == EastDrives(panels);
    }

    /** goto_western_limit: each panel in turn, west relay for its full throw. */
    method GotoWesternLimit() returns (trace: seq<Event>)
      ensures trace == PulseTrace(WestDrives(panels))
    {
      trace := [];
      var i := 0;
      while i < |panels|
        invariant 0 <= i <= |panels|
        invariant trace == PulseTrace(WestDrives(panels)[..i])
      {
        var p := panels[i];
        trace := trace + [Output(p.westPin, Low), Sleep(p.throwTime as real), Output(p.westPin, High), Sleep(SettleTime)];
        i := i + 1;
        assert WestDrives(panels)[..i][..i - 1] == WestDrives(panels)[..i - 1];
      }
      assert WestDrives(panels)[..i] == WestDrives(panels);
    }

    /** step_west(steps_done, at_eastern_limit): on the first step of a day
        away from the eastern limit, drive east first; then each panel in
        turn, west relay for its step time. */
    method StepWest(stepsDone: nat, atEasternLimit: bool) returns (trace: seq<Event>)
      requires HasStepTimes(panels)
      ensures trace == StepWestTrace(panels, stepsDone, atEasternLimit)
    {
      trace := [];
      if stepsDone == 0 && !atEasternLimit {
        trace := GotoEasternLimit();
      }
      ghost var east := trace;
      var i := 0;
      while i < |panels|
        invariant 0 <= i <= |panels|
        invariant trace == east + PulseTrace(WestSteps(panels)[..i])
      {
        var p := panels[i];
        trace := trace + [Output(p.westPin, Low), Sleep(p.stepTime.value), Output(p.westPin, High), Sleep(SettleTime)];
        i := i + 1;
        assert WestSteps(panels)[..i][..i - 1] == WestSteps(panels)[..i - 1];
      }
      assert WestSteps(panels)[..i] == WestSteps(panels);
    }

    /** init_pins: every east and west pin set HIGH (relays off). */
    method InitPins() returns (trace: seq<Event>)
      ensures trace == InitTrace(panels)
    {
      trace := [];
      var i := 0;
      while i < |panels|
        invariant 0 <= i <= |panels|
        invariant trace == InitTrace(panels[..i])
      {
        trace := trace + [Output(panels[i].eastPin, High), Output(panels[i].westPin, High)];
        i := i + 1;
        assert panels[..i][..i - 1] == panels[..i - 1];
      }
      assert panels[..i] == panels;
    }

    /** The start of a new day in main_loop: the sun times of the day (one
        query) give the sleep time, and steps_done starts again from 0; the
        limit flags carry over from the day before. */
    method NewDay(sunrise: int, sunset: int) returns (r: Result<real>)
      requires Valid()
      modifies this`panels, this`sleepTime, this`stepsDone
      ensures Valid()
      ensures r == SleepTimeOf(old(panels), sunrise, sunset)
      ensures panels == StepCountPanels(old(panels))
      ensures r.Ok? ==> sleepTime == r.value && stepsDone == 0
      ensures r.Err? ==> sleepTime == old(sleepTime) && stepsDone == old(stepsDone)
    {
      ghost var before := panels;
      r := GetSleepTime(sunrise, sunset);
      assert MinThrow(panels) == MinThrow(before);
      if r.Ok? {
        sleepTime := r.value;
        stepsDone := 0;
      }
    }

    /** One iteration of the day loop at unix time `now`, with the program's
        linger period after sunset. */
    method Tick(now: int, sunrise: int, sunset: int) returns (r: Result<seq<Event>>)
      requires Valid()
      modifies this`panels, this`stepsDone, this`atEasternLimit
      ensures Valid()
      ensures var o := TickSpec(old(State()), old(panels), now, sunrise, sunset, SunsetLingerTime);
        r == o.result && State() == o.state && panels == o.panels
    {
      ghost var before := panels;
      if now < sunrise {
        r := Ok([]);
      } else if now < sunset && !atWesternLimit {
        var count := GetStepCount();
        assert MinThrow(panels) == MinThrow(before);
        if count.Err? {
          r := Err(count.error);
        } else if (stepsDone as real) < count.value {
          StepBudgetExact(StepCountValue(panels), stepsDone);
          var trace := StepWest(stepsDone, atEasternLimit);
          stepsDone := stepsDone + 1;
          atEasternLimit := false;
          r := Ok(trace);
        } else {
          r := Err(NameError);
        }
      } else if now > sunset && now < sunset + SunsetLingerTime {
        r := Ok([]);
      } else if now > sunset + SunsetLingerTime {
        if !atEasternLimit {
          var trace := GotoEasternLimit();
          atEasternLimit := true;
          r := Ok(trace);
        } else {
          r := Ok([]);
        }
      } else {
        r := Ok([]);
      }
    }
  }
}

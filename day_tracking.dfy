/** One iteration of the inner loop of main_loop (the tick), as a pure
    function of the day state, the panel table and the times, and runs of
    ticks within one day.

    The tick compares the integer unix time `now` with the day's sunrise and
    sunset through the if/elif chain of tracker.py, and answers with the GPIO
    trace it emits, or with the exception it raises, together with the new
    day state and panel table.
 */
module DayTracking {
  import opened Outcomes
  import opened Panels
  import opened Pulses

  /** steps_done, at_eastern_limit and at_western_limit. */
  datatype DayState = DayState(stepsDone: nat, atEasternLimit: bool, atWesternLimit: bool)

  /** Which arm of the if/elif chain a tick takes. */
  datatype Branch = BeforeSunrise | Daylight | Lingering | PastLinger | NoBranch

  /** The arm the chain takes, stated without the order of the tests: each
      arm's own condition, minus the conditions of the arms before it. */
  function BranchOf(s: DayState, now: int, sunrise: int, sunset: int, linger: int): (b: Branch)
    ensures b == BeforeSunrise <==> now < sunrise
    ensures b == Daylight <==> sunrise <= now < sunset && !s.atWesternLimit
    ensures b == Lingering <==> sunrise <= now && sunset < now < sunset + linger
    ensures b == PastLinger <==>
      sunrise <= now && (sunset <= now || s.atWesternLimit) && now > sunset + linger
    ensures b == NoBranch <==>
      sunrise <= now && (sunset <= now || s.atWesternLimit) &&
      !(sunset < now < sunset + linger) && now <= sunset + linger
  {
    if now < sunrise then BeforeSunrise
    else if now < sunset && !s.atWesternLimit then Daylight
    else if now > sunset && now < sunset + linger then Lingering
    else if now > sunset + linger then PastLinger
    else NoBranch
  }

  datatype TickOutcome = TickOutcome(result: Result<seq<Event>>, state: DayState, panels: seq<Panel>)

  /** One tick.  In daylight the tick calls get_step_count (which rewrites the
      step times) and, within the budget, steps west; past the budget the
      message names the unbound `step_count` and the tick raises. */
  function TickSpec(s: DayState, ps: seq<Panel>, now: int, sunrise: int, sunset: int, linger: int): (o: TickOutcome)
    ensures Throws(o.panels) == Throws(ps)
    ensures o.panels == ps || o.panels == StepCountPanels(ps)
    ensures o.state.atWesternLimit == s.atWesternLimit
    ensures o.state.stepsDone == s.stepsDone || (o.result.Ok? && o.state.stepsDone == s.stepsDone + 1)
    ensures o.result.Err? ==> BranchOf(s, now, sunrise, sunset, linger) == Daylight && o.state == s
  {
    match BranchOf(s, now, sunrise, sunset, linger)
    case Daylight =>
      var qs := StepCountPanels(ps);
      (match StepCountOf(ps)
       case Err(e) => TickOutcome(Err(e), s, qs)
       case Ok(count) =>
         if (s.stepsDone as real) < count then
           TickOutcome(Ok(StepWestTrace(qs, s.stepsDone, s.atEasternLimit)),
                       s.(stepsDone := s.stepsDone + 1, atEasternLimit := false), qs)
         else TickOutcome(Err(NameError), s, qs))
    case PastLinger =>
      if !s.atEasternLimit then TickOutcome(Ok(PulseTrace(EastDrives(ps))), s.(atEasternLimit := true), ps)
      else TickOutcome(Ok([]), s, ps)
    case _ => TickOutcome(Ok([]), s, ps)
  }

  datatype RunOutcome = RunOutcome(trace: seq<Event>, state: DayState, panels: seq<Panel>, error: Option<PyError>)

  /** Ticks at the times `nows`, one after another within one day, until one
      of them raises (an exception ends the program). */
  function Run(s: DayState, ps: seq<Panel>, nows: seq<int>, sunrise: int, sunset: int, linger: int): (r: RunOutcome)
    ensures Throws(r.panels) == Throws(ps)
    ensures r.state.atWesternLimit == s.atWesternLimit
    decreases |nows|
  {
    if nows == [] then RunOutcome([], s, ps, None)
    else
      var o := TickSpec(s, ps, nows[0], sunrise, sunset, linger);
      match o.result
      case Err(e) => RunOutcome([], o.state, o.panels, Some(e))
      case Ok(t) =>
        var rest := Run(o.state, o.panels, nows[1..], sunrise, sunset, linger);
        RunOutcome(t + rest.trace, rest.state, rest.panels, rest.error)
  }

  /** The tick rules, one per arm of the chain. */
  lemma TickRules(s: DayState, ps: seq<Panel>, now: int, sunrise: int, sunset: int, linger: int)
    ensures var o := TickSpec(s, ps, now, sunrise, sunset, linger);
      // before sunrise: nothing happens
      (now < sunrise ==> o == TickOutcome(Ok([]), s, ps)) &&
      // in daylight, a zero shortest throw among two or more panels raises
      (sunrise <= now < sunset && !s.atWesternLimit && DivisionByZero(ps) ==>
         o.result == Err(ZeroDivisionError) && o.state == s && o.panels == StepCountPanels(ps)) &&
      // in daylight within the budget: one step west, and the eastern limit is left
      (sunrise <= now < sunset && !s.atWesternLimit && !DivisionByZero(ps) &&
       (s.stepsDone as real) < StepCountValue(ps) ==>
         o.result == Ok(StepWestTrace(StepCountPanels(ps), s.stepsDone, s.atEasternLimit)) &&
         o.state == DayState(s.stepsDone + 1, false, s.atWesternLimit) &&
         o.panels == StepCountPanels(ps)) &&
      // in daylight past the budget: the unbound name is raised, the state is kept
      (sunrise <= now < sunset && !s.atWesternLimit && !DivisionByZero(ps) &&
       (s.stepsDone as real) >= StepCountValue(ps) ==>
         o.result == Err(NameError) && o.state == s) &&
      // lingering after sunset: nothing happens
      (sunrise <= now && sunset < now < sunset + linger ==> o == TickOutcome(Ok([]), s, ps)) &&
      // exactly at sunset or at the end of the linger period: no arm fires
      (sunrise <= now && linger >= 0 && (now == sunset || now == sunset + linger) ==>
         o == TickOutcome(Ok([]), s, ps)) &&
      // past the linger period: one eastern drive unless already there
      (sunrise <= now && sunset <= now && now > sunset + linger ==>
         o.result == Ok(if s.atEasternLimit then [] else PulseTrace(EastDrives(ps))) &&
         o.state == s.(atEasternLimit := true) && o.panels == ps)
  {
  }

  /** The invariant a tick keeps: steps_done stays within the day's budget
      (the step count rounded up), at_western_limit is never set, and the
      throw times, hence the step count, never change. */
  lemma TickKeepsBudget(s: DayState, ps: seq<Panel>, now: int, sunrise: int, sunset: int, linger: int)
    requires s.stepsDone <= StepBudget(StepCountValue(ps))
    ensures var o := TickSpec(s, ps, now, sunrise, sunset, linger);
      Throws(o.panels) == Throws(ps) &&
      o.state.stepsDone <= StepBudget(StepCountValue(ps)) &&
      o.state.atWesternLimit == s.atWesternLimit
  {
    StepBudgetExact(StepCountValue(ps), s.stepsDone);
  }

  /** Over any run of ticks, steps_done never exceeds the budget. */
  lemma {:induction false} RunKeepsBudget(s: DayState, ps: seq<Panel>, nows: seq<int>, sunrise: int, sunset: int, linger: int)
    requires s.stepsDone <= StepBudget(StepCountValue(ps))
    ensures var o := Run(s, ps, nows, sunrise, sunset, linger);
      Throws(o.panels) == Throws(ps) &&
      o.state.stepsDone <= StepBudget(StepCountValue(ps)) &&
      o.state.atWesternLimit == s.atWesternLimit
    decreases |nows|
  {
    if nows != [] {
      var o := TickSpec(s, ps, nows[0], sunrise, sunset, linger);
      TickKeepsBudget(s, ps, nows[0], sunrise, sunset, linger);
      if o.result.Ok? {
        assert StepCountValue(o.panels) == StepCountValue(ps) by {
          assert MinThrow(o.panels) == MinThrow(ps);
        }
        RunKeepsBudget(o.state, o.panels, nows[1..], sunrise, sunset, linger);
      }
    }
  }

  /** A day that starts from steps_done = 0 takes at most the step count
      rounded up of west steps: each step is one more than the last. */
  lemma {:induction false} RunStepCount(s: DayState, ps: seq<Panel>, nows: seq<int>, sunrise: int, sunset: int, linger: int)
    ensures var o := Run(s, ps, nows, sunrise, sunset, linger);
      o.state.stepsDone >= s.stepsDone &&
      o.state.stepsDone <= s.stepsDone + |nows|
    decreases |nows|
  {
    if nows != [] {
      var o := TickSpec(s, ps, nows[0], sunrise, sunset, linger);
      if o.result.Ok? {
        RunStepCount(o.state, o.panels, nows[1..], sunrise, sunset, linger);
      }
    }
  }

  /** Every tick's trace is safe: one relay at a time and none left energised. */
  lemma TickTraceSafe(s: DayState, ps: seq<Panel>, now: int, sunrise: int, sunset: int, linger: int)
    ensures var o := TickSpec(s, ps, now, sunrise, sunset, linger);
      o.result.Ok? ==> Safe(o.result.value)
  {
    var o := TickSpec(s, ps, now, sunrise, sunset, linger);
    assert Safe([]);
    PulseTraceSafe(EastDrives(ps));
    if BranchOf(s, now, sunrise, sunset, linger) == Daylight && o.result.Ok? {
      var qs := StepCountPanels(ps);
      PulseTraceSafe(EastDrives(qs));
      PulseTraceSafe(WestSteps(qs));
      SafeConcat(if s.stepsDone == 0 && !s.atEasternLimit then PulseTrace(EastDrives(qs)) else [],
                 PulseTrace(WestSteps(qs)));
    }
  }

  /** The trace of a whole run is safe. */
  lemma {:induction false} RunTraceSafe(s: DayState, ps: seq<Panel>, nows: seq<int>, sunrise: int, sunset: int, linger: int)
    ensures Safe(Run(s, ps, nows, sunrise, sunset, linger).trace)
    decreases |nows|
  {
    assert Safe([]);
    if nows != [] {
      var o := TickSpec(s, ps, nows[0], sunrise, sunset, linger);
      if o.result.Ok? {
        TickTraceSafe(s, ps, nows[0], sunrise, sunset, linger);
        RunTraceSafe(o.state, o.panels, nows[1..], sunrise, sunset, linger);
        SafeConcat(o.result.value, Run(o.state, o.panels, nows[1..], sunrise, sunset, linger).trace);
      }
    }
  }

  /** With non-negative throw times, no tick asks for a negative sleep: the
      full drives sleep for a throw time, and every step time is a whole
      number of relay cycles. */
  lemma TickSleepsNonNegative(s: DayState, ps: seq<Panel>, now: int, sunrise: int, sunset: int, linger: int)
    requires forall j :: 0 <= j < |ps| ==> ps[j].throwTime >= 0
    ensures var o := TickSpec(s, ps, now, sunrise, sunset, linger);
      o.result.Ok? ==> SleepsNonNegative(o.result.value)
  {
    var o := TickSpec(s, ps, now, sunrise, sunset, linger);
    PulseTraceSleeps(EastDrives(ps));
    if BranchOf(s, now, sunrise, sunset, linger) == Daylight && o.result.Ok? {
      var qs := StepCountPanels(ps);
      assert forall j :: 0 <= j < |qs| ==> qs[j].throwTime == ps[j].throwTime;
      PulseTraceSleeps(EastDrives(qs));
      StepTimesNonNegative(ps);
      PulseTraceSleeps(WestSteps(qs));
      SleepsConcat(if s.stepsDone == 0 && !s.atEasternLimit then PulseTrace(EastDrives(qs)) else [],
                   PulseTrace(WestSteps(qs)));
    }
  }

  /** Ticks before sunrise, or while lingering after sunset, never actuate
      and never change the state, however many there are. */
  lemma {:induction false} RunQuiet(s: DayState, ps: seq<Panel>, nows: seq<int>, sunrise: int, sunset: int, linger: int)
    requires forall i :: 0 <= i < |nows| ==> nows[i] < sunrise || sunset < nows[i] < sunset + linger
    ensures Run(s, ps, nows, sunrise, sunset, linger) == RunOutcome([], s, ps, None)
    decreases |nows|
  {
    if nows != [] {
      RunQuiet(s, ps, nows[1..], sunrise, sunset, linger);
    }
  }

  /** After the linger period the array is driven east exactly once: the
      first such tick drives every panel east unless the array is already at
      the eastern limit, and every later one emits nothing. */
  lemma {:induction false} RunEastOnce(s: DayState, ps: seq<Panel>, nows: seq<int>, sunrise: int, sunset: int, linger: int)
    requires linger >= 0
    requires forall i :: 0 <= i < |nows| ==> nows[i] >= sunrise && nows[i] > sunset + linger
    ensures Run(s, ps, nows, sunrise, sunset, linger) ==
      if nows == [] then RunOutcome([], s, ps, None)
      else RunOutcome(if s.atEasternLimit then [] else PulseTrace(EastDrives(ps)),
                      s.(atEasternLimit := true), ps, None)
    decreases |nows|
  {
    if nows != [] {
      var s' := s.(atEasternLimit := true);
      RunEastOnce(s', ps, nows[1..], sunrise, sunset, linger);
      assert Run(s', ps, nows[1..], sunrise, sunset, linger).trace == [];
    }
  }
}

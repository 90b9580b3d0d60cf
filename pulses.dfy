/** The relay pulse sequences of step_west, goto_eastern_limit,
    goto_western_limit and init_pins, as traces of GPIO writes and sleeps.

    A relay is energised while its pin is LOW: every pulse drives one pin LOW,
    sleeps, drives it HIGH again and sleeps for the settle interval.  The
    level of the pins is followed through a trace as the set of pins that are
    LOW, so that "never two relays at once" and "none left energised" can be
    stated about any trace.
 */
module Pulses {
  import opened Panels

  datatype Level = Low | High

  /** GPIO.output(pin, level) and time.sleep(seconds). */
  datatype Event = Output(pin: int, level: Level) | Sleep(seconds: real)

  /** The sleep after each pulse, with the pin back HIGH. */
  const SettleTime: real := 0.25

  /** One relay pulse: the pin to drive LOW and for how long. */
  datatype Pulse = Pulse(pin: int, duration: real)

  function PulseEvents(p: Pulse): seq<Event>
  {
    [Output(p.pin, Low), Sleep(p.duration), Output(p.pin, High), Sleep(SettleTime)]
  }

  /** The pulses issued one after another, in order. */
  function PulseTrace(ps: seq<Pulse>): (t: seq<Event>)
    ensures |t| == 4 * |ps|
  {
    if ps == [] then [] else PulseTrace(ps[..|ps| - 1]) + PulseEvents(ps[|ps| - 1])
  }

  /** The pulses of the loop in step_west: each west pin for its step time. */
  function WestSteps(ps: seq<Panel>): (r: seq<Pulse>)
    requires HasStepTimes(ps)
    ensures |r| == |ps|
    ensures forall i :: 0 <= i < |ps| ==> r[i].pin == ps[i].westPin && r[i].duration == ps[i].stepTime.value
  {
    seq(|ps|, i requires 0 <= i < |ps| => Pulse(ps[i].westPin, ps[i].stepTime.value))
  }

  /** The pulses of goto_eastern_limit: each east pin for its full throw. */
  function EastDrives(ps: seq<Panel>): (r: seq<Pulse>)
    ensures |r| == |ps|
    ensures forall i :: 0 <= i < |ps| ==> r[i].pin == ps[i].eastPin && r[i].duration == ps[i].throwTime as real
  {
    seq(|ps|, i requires 0 <= i < |ps| => Pulse(ps[i].eastPin, ps[i].throwTime as real))
  }

  /** The pulses of goto_western_limit: each west pin for its full throw. */
  function WestDrives(ps: seq<Panel>): (r: seq<Pulse>)
    ensures |r| == |ps|
    ensures forall i :: 0 <= i < |ps| ==> r[i].pin == ps[i].westPin && r[i].duration == ps[i].throwTime as real
  {
    seq(|ps|, i requires 0 <= i < |ps| => Pulse(ps[i].westPin, ps[i].throwTime as real))
  }

  /** The trace of step_west(steps_done, at_eastern_limit): a full eastern
      drive first on the first step of a day that does not start at the
      eastern limit, then one west step per panel. */
  function StepWestTrace(ps: seq<Panel>, stepsDone: nat, atEasternLimit: bool): (t: seq<Event>)
    requires HasStepTimes(ps)
    ensures |t| == (if stepsDone == 0 && !atEasternLimit then 8 else 4) * |ps|
    ensures Safe(t)
  {
    var east := if stepsDone == 0 && !atEasternLimit then PulseTrace(EastDrives(ps)) else [];
    PulseTraceSafe(EastDrives(ps));
    PulseTraceSafe(WestSteps(ps));
    assert Safe([]);
    SafeConcat(east, PulseTrace(WestSteps(ps)));
    east + PulseTrace(WestSteps(ps))
  }

  /** The GPIO writes of init_pins: each panel's east pin, then its west pin,
      set HIGH. */
  function InitTrace(ps: seq<Panel>): (t: seq<Event>)
    ensures |t| == 2 * |ps|
    ensures forall i :: 0 <= i < |ps| ==>
      t[2 * i] == Output(ps[i].eastPin, High) && t[2 * i + 1] == Output(ps[i].westPin, High)
  {
    if ps == [] then []
    else
      var p := ps[|ps| - 1];
      InitTrace(ps[..|ps| - 1]) + [Output(p.eastPin, High), Output(p.westPin, High)]
  }

  /** Every east and west pin of the panel table. */
  function PinsOf(ps: seq<Panel>): (pins: set<int>)
    ensures forall i :: 0 <= i < |ps| ==> ps[i].eastPin in pins && ps[i].westPin in pins
  {
    if ps == [] then {}
    else
      var p := ps[|ps| - 1];
      PinsOf(ps[..|ps| - 1]) + {p.eastPin, p.westPin}
  }

  /** The set of LOW pins after one event. */
  function Apply(low: set<int>, e: Event): set<int>
  {
    match e
    case Output(pin, Low) => low + {pin}
    case Output(pin, High) => low - {pin}
    case Sleep(_) => low
  }

  /** The set of LOW pins after a whole trace. */
  function LowAfter(low: set<int>, t: seq<Event>): set<int>
    decreases |t|
  {
    if t == [] then low else LowAfter(Apply(low, t[0]), t[1..])
  }

  /** At no point of the trace are two pins LOW at the same time. */
  predicate AtMostOneLow(low: set<int>, t: seq<Event>)
    decreases |t|
  {
    |low| <= 1 && (t == [] || AtMostOneLow(Apply(low, t[0]), t[1..]))
  }

  /** Started with every pin HIGH, the trace never energises two relays at
      once and leaves every relay de-energised. */
  predicate Safe(t: seq<Event>)
  {
    AtMostOneLow({}, t) && LowAfter({}, t) == {}
  }

  lemma {:induction false} LowAfterConcat(low: set<int>, a: seq<Event>, b: seq<Event>)
    ensures LowAfter(low, a + b) == LowAfter(LowAfter(low, a), b)
    ensures AtMostOneLow(low, a + b) <==> AtMostOneLow(low, a) && AtMostOneLow(LowAfter(low, a), b)
    decreases |a|
  {
    if a == [] {
      assert a + b == b;
    } else {
      assert (a + b)[0] == a[0] && (a + b)[1..] == a[1..] + b;
      LowAfterConcat(Apply(low, a[0]), a[1..], b);
    }
  }

  /** Running safe traces one after the other is safe. */
  lemma SafeConcat(a: seq<Event>, b: seq<Event>)
    requires Safe(a) && Safe(b)
    ensures Safe(a + b)
  {
    LowAfterConcat({}, a, b);
  }

  lemma PulseSafe(p: Pulse)
    ensures Safe(PulseEvents(p))
  {
    var t := PulseEvents(p);
    var t1, t2, t3 := t[1..], t[2..], t[3..];
    assert t1[0] == t[1] && t1[1..] == t2;
    assert t2[0] == t[2] && t2[1..] == t3;
    assert t3[0] == t[3] && t3[1..] == [];
    assert {p.pin} - {p.pin} == {};
    assert LowAfter({}, t3) == {} && AtMostOneLow({}, t3);
    assert LowAfter({p.pin}, t2) == {} && AtMostOneLow({p.pin}, t2);
    assert LowAfter({p.pin}, t1) == {} && AtMostOneLow({p.pin}, t1);
  }

  /** Every pulse sequence of the driver is safe: one relay at a time, and
      each relay set LOW is set back HIGH. */
  lemma {:induction false} PulseTraceSafe(ps: seq<Pulse>)
    ensures Safe(PulseTrace(ps))
  {
    if ps != [] {
      PulseTraceSafe(ps[..|ps| - 1]);
      PulseSafe(ps[|ps| - 1]);
      SafeConcat(PulseTrace(ps[..|ps| - 1]), PulseEvents(ps[|ps| - 1]));
    }
  }

  /** No sleep of the trace has a negative duration (time.sleep raises on
      one). */
  predicate SleepsNonNegative(t: seq<Event>)
  {
    forall i :: 0 <= i < |t| && t[i].Sleep? ==> t[i].seconds >= 0.0
  }

  lemma SleepsConcat(a: seq<Event>, b: seq<Event>)
    requires SleepsNonNegative(a) && SleepsNonNegative(b)
    ensures SleepsNonNegative(a + b)
  {
    forall i | 0 <= i < |a + b| && (a + b)[i].Sleep?
      ensures (a + b)[i].seconds >= 0.0
    {
      if i >= |a| {
        assert (a + b)[i] == b[i - |a|];
      }
    }
  }

  /** Pulses of non-negative duration make a trace whose every sleep is
      non-negative: the settle time is positive. */
  lemma {:induction false} PulseTraceSleeps(ps: seq<Pulse>)
    requires forall i :: 0 <= i < |ps| ==> ps[i].duration >= 0.0
    ensures SleepsNonNegative(PulseTrace(ps))
  {
    if ps != [] {
      PulseTraceSleeps(ps[..|ps| - 1]);
      SleepsConcat(PulseTrace(ps[..|ps| - 1]), PulseEvents(ps[|ps| - 1]));
    }
  }

  /** Event 4 * i + k of a pulse sequence is event k of pulse i: the pulses
      come in order and each is LOW, sleep, HIGH, settle on one pin. */
  lemma {:induction false} PulseTraceAt(ps: seq<Pulse>, i: nat, k: nat)
    requires i < |ps| && k < 4
    ensures PulseTrace(ps)[4 * i + k] == PulseEvents(ps[i])[k]
  {
    var n := |ps| - 1;
    if i < n {
      PulseTraceAt(ps[..n], i, k);
    }
  }

  /** The shape of the three drivers' traces, panel by panel in panel order. */
  lemma DriverTraces(ps: seq<Panel>, i: nat)
    requires i < |ps|
    ensures PulseTrace(EastDrives(ps))[4 * i .. 4 * i + 4] ==
      [Output(ps[i].eastPin, Low), Sleep(ps[i].throwTime as real),
       Output(ps[i].eastPin, High), Sleep(SettleTime)]
    ensures PulseTrace(WestDrives(ps))[4 * i .. 4 * i + 4] ==
      [Output(ps[i].westPin, Low), Sleep(ps[i].throwTime as real),
       Output(ps[i].westPin, High), Sleep(SettleTime)]
    ensures HasStepTimes(ps) ==>
      (PulseTrace(WestSteps(ps))[4 * i .. 4 * i + 4] ==
       [Output(ps[i].westPin, Low), Sleep(ps[i].stepTime.value),
        Output(ps[i].westPin, High), Sleep(SettleTime)])
  {
    PulseSlice(EastDrives(ps), i);
    PulseSlice(WestDrives(ps), i);
    if HasStepTimes(ps) {
      PulseSlice(WestSteps(ps), i);
    }
  }

  lemma PulseSlice(ps: seq<Pulse>, i: nat)
    requires i < |ps|
    ensures PulseTrace(ps)[4 * i .. 4 * i + 4] == PulseEvents(ps[i])
  {
    PulseTraceAt(ps, i, 0);
    PulseTraceAt(ps, i, 1);
    PulseTraceAt(ps, i, 2);
    PulseTraceAt(ps, i, 3);
  }

  /** step_west drives east pins only when it is the first step of a day that
      does not start at the eastern limit, and then the whole eastern drive
      comes before the first west pulse; after it, pulse i steps panel i west. */
  lemma StepWestOrder(ps: seq<Panel>, stepsDone: nat, atEasternLimit: bool, i: nat, k: nat)
    requires HasStepTimes(ps) && i < |ps| && k < 4
    ensures var t := StepWestTrace(ps, stepsDone, atEasternLimit);
      var east := if stepsDone == 0 && !atEasternLimit then 4 * |ps| else 0;
      |t| == east + 4 * |ps| &&
      (east > 0 ==> t[4 * i + k] == PulseEvents(Pulse(ps[i].eastPin, ps[i].throwTime as real))[k]) &&
      t[east + 4 * i + k] == PulseEvents(Pulse(ps[i].westPin, ps[i].stepTime.value))[k]
  {
    PulseTraceAt(EastDrives(ps), i, k);
    PulseTraceAt(WestSteps(ps), i, k);
  }

  /** Whatever pins were LOW before, init_pins leaves every east and west pin
      HIGH, and it drives no pin LOW. */
  lemma {:induction false} InitPinsAllHigh(low: set<int>, ps: seq<Panel>)
    ensures LowAfter(low, InitTrace(ps)) == low - PinsOf(ps)
    ensures forall i :: 0 <= i < |ps| ==>
      ps[i].eastPin !in LowAfter(low, InitTrace(ps)) && ps[i].westPin !in LowAfter(low, InitTrace(ps))
  {
    if ps != [] {
      var p := ps[|ps| - 1];
      var front := ps[..|ps| - 1];
      InitPinsAllHigh(low, front);
      var pair := [Output(p.eastPin, High), Output(p.westPin, High)];
      LowAfterConcat(low, InitTrace(front), pair);
      var mid := LowAfter(low, InitTrace(front));
      assert pair[0] == Output(p.eastPin, High) && pair[1..] == [Output(p.westPin, High)];
      assert pair[1..][1..] == [];
      assert LowAfter(mid - {p.eastPin}, pair[1..]) == mid - {p.eastPin} - {p.westPin};
      assert LowAfter(mid, pair) == mid - {p.eastPin} - {p.westPin};
    }
  }
}

/** The panel table and the derivation of per-panel step times and of the
    day's step count (get_step_count and get_sleep_time in tracker.py).

    Panels are numbered 1..n in the source and iterated with
    `range(1, len(panels) + 1)`; here panel number i is the element at index
    i - 1 of a sequence, so "index order" is "panel number order".
    Durations are exact reals; unix times and throw times are integers.
 */
module Panels {
  import opened Outcomes

  /** relay_cycle_min: the step time given to the shortest-throw panel, in seconds. */
  const RelayCycleMin: real := 2.25

  /** sunset_linger_time: seconds to wait after sunset before driving east. */
  const SunsetLingerTime: int := 7200

  /** One entry of the `panels` dictionary.  `stepTime` is `None` until
      get_step_count has written the 'step_time' key. */
  datatype Panel = Panel(
    eastPin: int,
    westPin: int,
    throwTime: int,
    eastLimitAngle: int,
    westLimitAngle: int,
    stepTime: Option<real>)

  /** The panel table the program starts with. */
  const DefaultPanels: seq<Panel> := [
    Panel(2, 3, 60, -45, 45, None),
    Panel(27, 22, 120, -60, 60, None),
    Panel(4, 17, 120, -60, 60, None)
  ]

  /** Python 2 `/` on two ints: the quotient rounded toward negative infinity. */
  function FloorDiv(a: int, b: int): (q: int)
    requires b != 0
    ensures b > 0 ==> q * b <= a < q * b + b
    ensures b < 0 ==> q * b + b < a <= q * b
  {
    if b > 0 then a / b else (-a) / (-b)
  }

  /** The throw times of the panels, in panel order. */
  function Throws(ps: seq<Panel>): (ts: seq<int>)
    ensures |ts| == |ps|
    ensures forall i :: 0 <= i < |ps| ==> ts[i] == ps[i].throwTime
  {
    seq(|ps|, i requires 0 <= i < |ps| => ps[i].throwTime)
  }

  /** The index the first loop of get_step_count has chosen after looking at
      the first n throw times: a minimum, and the first one on a tie because
      the comparison is a strict `<`. */
  function ShortestUpTo(ts: seq<int>, n: nat): (k: nat)
    requires 0 < n <= |ts|
    ensures k < n
    ensures forall j :: 0 <= j < n ==> ts[k] <= ts[j]
    ensures forall j :: 0 <= j < k ==> ts[k] < ts[j]
  {
    if n == 1 then 0
    else
      var k := ShortestUpTo(ts, n - 1);
      if ts[n - 1] < ts[k] then n - 1 else k
  }

  /** shortest_throw_panel, as an index. */
  function Shortest(ps: seq<Panel>): (k: nat)
    requires |ps| > 0
    ensures k < |ps|
    ensures forall j :: 0 <= j < |ps| ==> ps[k].throwTime <= ps[j].throwTime
    ensures forall j :: 0 <= j < k ==> ps[k].throwTime < ps[j].throwTime
  {
    ShortestUpTo(Throws(ps), |ps|)
  }

  /** shortest_throw once the first loop is done (it starts at 0, which is
      what remains when there are no panels). */
  function MinThrow(ps: seq<Panel>): (m: int)
    ensures |ps| == 0 ==> m == 0
    ensures |ps| > 0 ==> exists j :: 0 <= j < |ps| && ps[j].throwTime == m
    ensures forall j :: 0 <= j < |ps| ==> m <= ps[j].throwTime
  {
    if |ps| == 0 then 0 else Throws(ps)[Shortest(ps)]
  }

  /** The value get_step_count returns when it returns at all:
      shortest_throw / relay_cycle_min, an int divided by a float. */
  function StepCountValue(ps: seq<Panel>): (count: real)
    ensures count * RelayCycleMin == MinThrow(ps) as real
    ensures count > 0.0 <==> MinThrow(ps) > 0
  {
    MinThrow(ps) as real / RelayCycleMin
  }

  /** The second loop of get_step_count divides by the shortest throw time for
      every panel other than the shortest one; that raises when there is such
      a panel and the shortest throw time is 0. */
  predicate DivisionByZero(ps: seq<Panel>): (b: bool)
    ensures b <==>
      (|ps| >= 2 &&
       (exists j :: 0 <= j < |ps| && ps[j].throwTime == 0) &&
       (forall j :: 0 <= j < |ps| ==> ps[j].throwTime >= 0))
  {
    |ps| >= 2 && MinThrow(ps) == 0
  }

  /** What a call of get_step_count returns. */
  function StepCountOf(ps: seq<Panel>): (r: Result<real>)
    ensures r.Err? <==> DivisionByZero(ps)
    ensures r.Err? ==> r.error == ZeroDivisionError
    ensures r.Ok? ==> r.value * RelayCycleMin == MinThrow(ps) as real
  {
    if DivisionByZero(ps) then Err(ZeroDivisionError) else Ok(StepCountValue(ps))
  }

  /** The first index the second loop reaches that is not the shortest panel;
      when that loop raises, it raises there. */
  function FirstOther(k: nat): nat
  {
    if k == 0 then 1 else 0
  }

  /** The step_time the second loop writes for panel j, given that panel k is
      the shortest. */
  function DerivedStepTime(ps: seq<Panel>, k: nat, j: nat): real
    requires k < |ps| && j < |ps|
    requires j == k || ps[k].throwTime != 0
  {
    if j == k then RelayCycleMin
    else FloorDiv(ps[j].throwTime, ps[k].throwTime) as real * RelayCycleMin
  }

  /** The panel table after the second loop has written the step times of the
      panels before index `upto`. */
  function AssignStepTimes(ps: seq<Panel>, k: nat, upto: nat): seq<Panel>
    requires k < |ps| && upto <= |ps|
    requires ps[k].throwTime != 0 || upto <= FirstOther(k)
  {
    seq(|ps|, j requires 0 <= j < |ps| =>
      if j < upto then ps[j].(stepTime := Some(DerivedStepTime(ps, k, j))) else ps[j])
  }

  /** One more iteration of the second loop writes one more step time. */
  lemma AssignNext(ps: seq<Panel>, k: nat, i: nat)
    requires k < |ps| && i < |ps|
    requires ps[k].throwTime != 0 || i + 1 <= FirstOther(k)
    ensures AssignStepTimes(ps, k, i + 1) ==
      AssignStepTimes(ps, k, i)[i := ps[i].(stepTime := Some(DerivedStepTime(ps, k, i)))]
  {
  }

  predicate HasStepTimes(ps: seq<Panel>)
  {
    forall i :: 0 <= i < |ps| ==> ps[i].stepTime.Some?
  }

  /** The panel table after a call of get_step_count, whether it returned or
      raised part-way through its second loop. */
  function StepCountPanels(ps: seq<Panel>): (qs: seq<Panel>)
    ensures |qs| == |ps| && Throws(qs) == Throws(ps)
    ensures forall j :: 0 <= j < |ps| ==> qs[j] == ps[j].(stepTime := qs[j].stepTime)
    ensures !DivisionByZero(ps) ==> HasStepTimes(qs)
    ensures !DivisionByZero(ps) && |ps| > 0 ==>
      qs[Shortest(ps)].stepTime == Some(RelayCycleMin) &&
      forall j :: 0 <= j < |ps| && j != Shortest(ps) ==>
        qs[j].stepTime == Some(FloorDiv(ps[j].throwTime, MinThrow(ps)) as real * RelayCycleMin)
    ensures DivisionByZero(ps) ==>
      qs[0] == (if Shortest(ps) == 0 then ps[0].(stepTime := Some(RelayCycleMin)) else ps[0]) &&
      forall j :: 0 <= j < |ps| && j != 0 ==> qs[j] == ps[j]
  {
    if |ps| == 0 then ps
    else
      var k := Shortest(ps);
      var qs := if DivisionByZero(ps) then AssignStepTimes(ps, k, FirstOther(k))
                else AssignStepTimes(ps, k, |ps|);
      assert Throws(qs) == Throws(ps);
      qs
  }

  /** With non-negative throw times, every step time get_step_count writes
      is non-negative. */
  lemma StepTimesNonNegative(ps: seq<Panel>)
    requires forall j :: 0 <= j < |ps| ==> ps[j].throwTime >= 0
    requires !DivisionByZero(ps)
    ensures forall j :: 0 <= j < |ps| ==> StepCountPanels(ps)[j].stepTime.value >= 0.0
  {
    var qs := StepCountPanels(ps);
    forall j | 0 <= j < |ps|
      ensures qs[j].stepTime.value >= 0.0
    {
      if j != Shortest(ps) {
        assert MinThrow(ps) > 0;
        assert FloorDiv(ps[j].throwTime, MinThrow(ps)) >= 0;
      }
    }
  }

  /** What a call of get_sleep_time returns: (sunset - sunrise) divided by
      the step count, an int divided by a float. */
  function SleepTimeOf(ps: seq<Panel>, sunrise: int, sunset: int): (r: Result<real>)
    ensures r.Ok? <==> |ps| > 0 && MinThrow(ps) != 0
    ensures r.Ok? ==> r.value * StepCountValue(ps) == (sunset - sunrise) as real
    ensures r.Ok? && sunset > sunrise && MinThrow(ps) > 0 ==> r.value > 0.0
  {
    match StepCountOf(ps)
    case Err(e) => Err(e)
    case Ok(count) =>
      if count == 0.0 then Err(ZeroDivisionError)
      else Ok((sunset - sunrise) as real / count)
  }

  /** The number of steps the test `steps_done < get_step_count()` lets
      through when steps_done counts up from 0: the step count rounded up. */
  function StepBudget(count: real): (n: nat)
    ensures n == 0 <==> count <= 0.0
    ensures count > 0.0 ==> (n - 1) as real < count <= n as real
  {
    if count <= 0.0 then 0
    else if count.Floor as real == count then count.Floor
    else count.Floor + 1
  }

  lemma StepBudgetExact(count: real, n: nat)
    ensures (n as real) < count <==> n < StepBudget(count)
  {
    if count > 0.0 {
      var f := count.Floor;
      assert f as real <= count < f as real + 1.0;
      if n < StepBudget(count) {
        assert n <= f;
      } else {
        assert n >= f;
      }
    }
  }

  /** Calling get_step_count again changes nothing: it returns the same value
      and writes the same step times. */
  lemma StepCountIdempotent(ps: seq<Panel>)
    ensures StepCountOf(StepCountPanels(ps)) == StepCountOf(ps)
    ensures !DivisionByZero(ps) ==> StepCountPanels(StepCountPanels(ps)) == StepCountPanels(ps)
  {
    var qs := StepCountPanels(ps);
    if |ps| > 0 && !DivisionByZero(ps) {
      assert Shortest(qs) == Shortest(ps);
      var rs := StepCountPanels(qs);
      forall j | 0 <= j < |ps| ensures rs[j] == qs[j] {
      }
    }
  }

  /** The step count depends on the set of panels, not on their order. */
  lemma StepCountPermutationInvariant(ps: seq<Panel>, qs: seq<Panel>)
    requires multiset(ps) == multiset(qs)
    ensures StepCountOf(ps) == StepCountOf(qs)
  {
    assert |ps| == |multiset(ps)| == |multiset(qs)| == |qs|;
    if |ps| > 0 {
      MinThrowBelowMember(ps, qs);
      MinThrowBelowMember(qs, ps);
    }
  }

  lemma MinThrowBelowMember(ps: seq<Panel>, qs: seq<Panel>)
    requires multiset(ps) == multiset(qs) && |qs| > 0 && |ps| > 0
    ensures MinThrow(ps) <= MinThrow(qs)
  {
    var p := qs[Shortest(qs)];
    assert p in multiset(qs);
    assert p in ps;
    var j :| 0 <= j < |ps| && ps[j] == p;
  }

  /** Run count times, a step of the given length moves a panel no further
      than its throw, and exactly its throw iff the shortest throw divides it. */
  predicate CoversThrow(step: real, count: real, throw: int, shortest: int)
    requires shortest != 0
  {
    step * count <= throw as real && (step * count == throw as real <==> throw % shortest == 0)
  }

  /** A derived step time, run for the number of steps in a day, never moves a
      panel further than its throw, and moves it exactly its throw when the
      shortest throw divides its own (always the case for the shortest panel). */
  lemma StepTimeCoversThrow(ps: seq<Panel>, j: nat)
    requires j < |ps| && MinThrow(ps) > 0
    ensures CoversThrow(StepCountPanels(ps)[j].stepTime.value, StepCountValue(ps), ps[j].throwTime, MinThrow(ps))
  {
    var q, step := StepQuotient(ps, j);
    StepsCover(step, StepCountValue(ps), q, MinThrow(ps), ps[j].throwTime);
  }

  /** The step time of panel j is q relay cycles, where q whole shortest
      throws fit in its own throw. */
  lemma StepQuotient(ps: seq<Panel>, j: nat) returns (q: int, step: real)
    requires j < |ps| && MinThrow(ps) > 0
    ensures step == StepCountPanels(ps)[j].stepTime.value
    ensures step == q as real * RelayCycleMin
    ensures q * MinThrow(ps) <= ps[j].throwTime
    ensures q * MinThrow(ps) == ps[j].throwTime <==> ps[j].throwTime % MinThrow(ps) == 0
  {
    var m := MinThrow(ps);
    var t := ps[j].throwTime;
    step := StepCountPanels(ps)[j].stepTime.value;
    if j == Shortest(ps) {
      q := 1;
      assert t == m;
    } else {
      q := t / m;
      WholeQuotient(t, m);
    }
  }

  /** q relay cycles, run m / 2.25 times, take q * m seconds. */
  lemma StepsCover(step: real, count: real, q: int, m: int, t: int)
    requires m > 0 && step == q as real * RelayCycleMin && count == m as real / RelayCycleMin
    requires q * m <= t && (q * m == t <==> t % m == 0)
    ensures CoversThrow(step, count, t, m)
  {
    ScaledProduct(q, m);
  }

  lemma ScaledProduct(q: int, m: int)
    ensures (q as real * RelayCycleMin) * (m as real / RelayCycleMin) == (q * m) as real
  {
  }

  lemma WholeQuotient(t: int, m: int)
    requires m > 0
    ensures (t / m) * m <= t
    ensures (t / m) * m == t <==> t % m == 0
  {
  }

  /** The program's own table: panel 1 is the shortest, the others step twice
      as long, and a day allows 27 steps because 60 / 2.25 is not whole. */
  lemma DefaultPanelsStepCount()
    ensures Shortest(DefaultPanels) == 0
    ensures StepCountOf(DefaultPanels) == Ok(60.0 / 2.25)
    ensures StepBudget(StepCountValue(DefaultPanels)) == 27
    ensures var qs := StepCountPanels(DefaultPanels);
      qs[0].stepTime == Some(2.25) && qs[1].stepTime == Some(4.5) && qs[2].stepTime == Some(4.5)
  {
    var ts := Throws(DefaultPanels);
    assert ts == [60, 120, 120];
    assert ShortestUpTo(ts, 1) == 0;
    assert ShortestUpTo(ts, 2) == 0;
    assert Shortest(DefaultPanels) == 0;
    var c := StepCountValue(DefaultPanels);
    assert c == 60.0 / 2.25;
    assert 26.0 < c < 27.0;
    assert c.Floor == 26;
  }
}

/** The auto-update arithmetic of the relative-time component, as functions
    of the component's props and its state `currentValueInSeconds`: the
    initial state, what one call of `scheduleNextUpdate` decides, what the
    re-renders that a state change causes add to it, and what is shown. */
module Schedule {
  import opened RelativeTime

  /** The props the auto-update logic reads; every one may be absent. */
  datatype Props = Props(value: Option<int>, unit: Option<Unit>, updateIntervalInSeconds: Option<int>)

  /** A pending one-shot timer: after `delay` seconds it sets
      `currentValueInSeconds` to `target`. */
  datatype Timer = Timer(delay: nat, target: int)

  /** What one call of `scheduleNextUpdate` does once the pending timer is
      cancelled: nothing, clamp the state to a day, or arm a timer. */
  datatype Plan = Idle | Clamp(value: int) | Arm(timer: Timer)

  /** What the component shows: a value in a unit. */
  datatype Shown = Shown(value: int, unit: Option<Unit>)

  /** The props as the component receives them: an absent value is 0 and an
      absent unit is second. */
  function WithDefaults(p: Props): (r: Props)
    ensures Resolved(r)
    ensures r.updateIntervalInSeconds == p.updateIntervalInSeconds
    ensures p.value.Some? ==> r.value == p.value
    ensures p.unit.Some? ==> r.unit == p.unit
    ensures p.value.None? ==> r.value == Some(0)
    ensures p.unit.None? ==> r.unit == Some(Second)
  {
    Props(if p.value.None? then Some(0) else p.value,
          if p.unit.None? then Some(Second) else p.unit,
          p.updateIntervalInSeconds)
  }

  predicate Resolved(p: Props)
  {
    p.value.Some? && p.unit.Some?
  }

  /** The state derived from the props, at construction and whenever the
      value or the unit changes. */
  function InitialSeconds(p: Props): (s: int)
    ensures !CanIncrement(p.unit) || !Truthy(p.value) ==> s == 0
    ensures p.unit.Some? && CanIncrement(p.unit) && p.value.Some? ==>
              s == p.value.value * DurationInSeconds(p.unit)
  {
    if CanIncrement(p.unit) then ValueToSeconds(p.value, p.unit) else 0
  }

  /** The decision of `scheduleNextUpdate` for the given props and state. */
  function NextPlan(interval: Option<int>, unit: Option<Unit>, current: int): (plan: Plan)
    ensures plan == Idle <==> !Truthy(interval) || !CanIncrement(unit)
    ensures plan.Clamp? ==> plan.value == DAY || plan.value == -DAY
    ensures plan.Arm? ==> plan.timer.delay == Abs(plan.timer.target - current)
  {
    if !Truthy(interval) || !CanIncrement(unit) then Idle
    else
      var next := current - interval.value;
      var nextUnit := SelectUnit(next);
      if nextUnit == Day then Clamp(if next < 0 then -DAY else DAY)
      else
        var unitDuration := DurationInSeconds(Some(nextUnit));
        var prevInteresting := next - TruncRem(next, unitDuration);
        var nextInteresting := if prevInteresting >= current then prevInteresting - unitDuration else prevInteresting;
        Arm(Timer(Abs(nextInteresting - current), nextInteresting))
  }

  /** The pending timer that a call of `scheduleNextUpdate` leaves. */
  function TimerAfter(interval: Option<int>, unit: Option<Unit>, current: int): Option<Timer>
  {
    match NextPlan(interval, unit, current)
    case Arm(t) => Some(t)
    case _ => None
  }

  /** A state from which `scheduleNextUpdate` changes nothing but the timer,
      so no further re-render follows. */
  predicate Settled(interval: Option<int>, unit: Option<Unit>, current: int)
  {
    match NextPlan(interval, unit, current)
    case Clamp(v) => v == current
    case _ => true
  }

  /** Scheduling clamps exactly when the next value selects the day unit, and
      then to minus or plus one day by the sign of the next value. */
  lemma ClampExactly(interval: Option<int>, unit: Option<Unit>, current: int)
    requires Truthy(interval) && CanIncrement(unit)
    ensures var next := current - interval.value;
            NextPlan(interval, unit, current).Clamp? <==> SelectUnit(next) == Day
    ensures var next := current - interval.value;
            NextPlan(interval, unit, current).Clamp? ==>
              NextPlan(interval, unit, current).value == (if next < 0 then -DAY else DAY)
  {
  }

  /** The timer that scheduling arms: its target is a whole number of the
      next display unit, its delay is the distance from the current value,
      and for a positive interval the target lies below the current value,
      within one unit of the next value and on the same side of zero. */
  lemma ArmedTimer(interval: Option<int>, unit: Option<Unit>, current: int, t: Timer)
    requires NextPlan(interval, unit, current) == Arm(t)
    ensures Truthy(interval) && CanIncrement(unit)
    ensures var next := current - interval.value;
            var unitDuration := DurationInSeconds(Some(SelectUnit(next)));
            && SelectUnit(next) != Day
            && t.target % unitDuration == 0
            && t.delay == Abs(t.target - current)
    ensures var next := current - interval.value;
            var unitDuration := DurationInSeconds(Some(SelectUnit(next)));
            interval.value > 0 ==>
              && t.target < current
              && 0 < t.delay < interval.value + unitDuration
              && Abs(t.target - next) < unitDuration
              && (next >= 0 ==> 0 <= t.target <= next)
              && (next < 0 ==> t.target < 0)
  {
    var next := current - interval.value;
    NextInteresting(current, next, DurationInSeconds(Some(SelectUnit(next))));
  }

  /** The arithmetic of the armed target, for a unit length `d` that the
      next value reaches unless it is zero. */
  lemma NextInteresting(current: int, next: int, d: int)
    requires d > 0 && (next != 0 ==> d <= Abs(next))
    ensures var prev := next - TruncRem(next, d);
            var target := if prev >= current then prev - d else prev;
            && target % d == 0
            && (next < current ==>
                  && target < current
                  && Abs(target - next) < d
                  && (next >= 0 ==> 0 <= target <= next)
                  && (next < 0 ==> target < 0))
  {
    var prev := next - TruncRem(next, d);
    assert prev == d * (prev / d);
    if prev >= current {
      assert prev - d == d * (prev / d - 1);
      MultipleHasNoRemainder(prev / d - 1, d);
    }
    if next < 0 {
      // a negative next value is at least one unit away from zero, so
      // truncating it to a whole unit leaves it negative
      assert prev <= 0;
      ScaledAwayFromZero(prev / d, d);
    }
  }

  /** Once clamped to minus one day, a positive interval keeps the state
      there: the clamp is repeated with the same value, so nothing changes. */
  lemma ClampBelowIsFinal(interval: int, unit: Option<Unit>)
    requires interval > 0 && CanIncrement(unit)
    ensures NextPlan(Some(interval), unit, -DAY) == Clamp(-DAY)
  {
  }

  /** Once clamped to plus one day, an interval below two days arms a timer
      again: a future time keeps counting down. */
  lemma ClampAboveRearms(interval: int, unit: Option<Unit>)
    requires 0 < interval < 2 * DAY && CanIncrement(unit)
    ensures NextPlan(Some(interval), unit, DAY).Arm?
  {
  }

  /** At most two clamps with a change follow each other: a clamp that
      changes a clamped value lands on a settled one. */
  lemma ClampChainShort(interval: Option<int>, unit: Option<Unit>, current: int, v: int)
    requires NextPlan(interval, unit, current) == Clamp(v)
    requires !Settled(interval, unit, v)
    ensures NextPlan(interval, unit, v) == Clamp(-v)
    ensures Settled(interval, unit, -v)
  {
  }

  lemma ClampRankDrops(interval: Option<int>, unit: Option<Unit>, current: int, v: int)
    requires NextPlan(interval, unit, current) == Clamp(v) && v != current
    ensures Rank(interval, unit, v) < Rank(interval, unit, current)
  {
    if !Settled(interval, unit, v) {
      ClampChainShort(interval, unit, current, v);
    }
  }

  /** How many state-changing clamps are still to come from `current`. */
  function Rank(interval: Option<int>, unit: Option<Unit>, current: int): nat
  {
    match NextPlan(interval, unit, current)
    case Clamp(v) => if v == current then 0 else if Settled(interval, unit, v) then 1 else 2
    case _ => 0
  }

  /** The state after `scheduleNextUpdate` and the re-renders it causes: a
      clamp that changes the state is followed by another scheduling. */
  function Settle(interval: Option<int>, unit: Option<Unit>, current: int): (r: int)
    ensures Settled(interval, unit, r)
    ensures r == current || r == DAY || r == -DAY
    ensures Settled(interval, unit, current) ==> r == current
    decreases Rank(interval, unit, current)
  {
    match NextPlan(interval, unit, current)
    case Clamp(v) =>
      if v == current then current
      else
        ClampRankDrops(interval, unit, current, v);
        Settle(interval, unit, v)
    case _ => current
  }

  /** With a positive interval a settled state either has a timer pending or
      is minus one day, and it is never below minus one day. */
  lemma SettledRest(interval: int, unit: Option<Unit>, current: int)
    requires interval > 0 && CanIncrement(unit)
    requires Settled(Some(interval), unit, current)
    ensures NextPlan(Some(interval), unit, current).Arm? || current == -DAY
    ensures current >= -DAY
  {
  }

  /** With a positive interval, each firing of the timer, with the
      re-renders it causes, lowers the state and keeps it at or above minus
      one day. */
  lemma FiringMovesDown(interval: int, unit: Option<Unit>, current: int, t: Timer)
    requires interval > 0 && CanIncrement(unit)
    requires NextPlan(Some(interval), unit, current) == Arm(t)
    ensures -DAY <= Settle(Some(interval), unit, t.target) < current
  {
    ArmedTimer(Some(interval), unit, current, t);
    var after := Settle(Some(interval), unit, t.target);
    SettledRest(interval, unit, after);
    if after != t.target && NextPlan(Some(interval), unit, t.target) == Clamp(-DAY) {
      ClampBelowIsFinal(interval, unit);
    }
  }

  /** The successive values of the state while the component auto-updates
      with a positive interval: the state after mounting, then the state
      after each firing of the timer. The sequence strictly decreases and
      ends at minus one day, where no timer is armed any more. */
  function Trajectory(interval: int, unit: Option<Unit>, current: int): (r: seq<int>)
    requires interval > 0 && CanIncrement(unit)
    ensures |r| >= 1 && r[0] == Settle(Some(interval), unit, current)
    ensures forall j, k :: 0 <= j < k < |r| ==> r[k] < r[j]
    ensures r[|r| - 1] == -DAY
    ensures TimerAfter(Some(interval), unit, r[|r| - 1]) == None
    decreases Settle(Some(interval), unit, current) + DAY
  {
    var s := Settle(Some(interval), unit, current);
    SettledRest(interval, unit, s);
    match NextPlan(Some(interval), unit, s)
    case Arm(t) =>
      FiringMovesDown(interval, unit, s, t);
      [s] + Trajectory(interval, unit, t.target)
    case _ => [s]
  }

  /** Whether `render` derives what it shows from the state. */
  predicate ShowsState(p: Props, current: int)
  {
    CanIncrement(p.unit) && current != 0 && Truthy(p.updateIntervalInSeconds)
  }

  /** What `render` passes to the formatter. */
  function Display(p: Props, current: int): (shown: Shown)
    ensures ShowsState(p, current) ==> shown.unit == Some(SelectUnit(current))
    ensures !ShowsState(p, current) ==> shown.unit == p.unit
  {
    var currentValue := if Truthy(p.value) then p.value.value else 0;
    if ShowsState(p, current) then
      var currentUnit := SelectUnit(current);
      Shown(RoundDiv(current, DurationInSeconds(Some(currentUnit))), Some(currentUnit))
    else
      Shown(currentValue, p.unit)
  }

  /** When the state is shown, it is shown in the unit selected for it, as
      the nearest whole number of that unit, never as zero units and with the
      sign of the state; otherwise the props are shown as given. */
  lemma DisplayOfState(p: Props, current: int)
    ensures ShowsState(p, current) ==>
              var shown := Display(p, current);
              var unitDuration := DurationInSeconds(Some(SelectUnit(current)));
              && shown.unit == Some(SelectUnit(current))
              && 2 * unitDuration * shown.value - unitDuration <= 2 * current < 2 * unitDuration * shown.value + unitDuration
              && shown.value != 0
              && (shown.value > 0 <==> current > 0)
    ensures !ShowsState(p, current) ==>
              Display(p, current) == Shown(if p.value.Some? then p.value.value else 0, p.unit)
  {
  }

  /** The worked case: 45 seconds with a 10-second interval arms a timer
      that moves the state to 35 seconds after 10 seconds. */
  lemma FortyFiveSecondsExample()
    ensures var p := WithDefaults(Props(Some(45), Some(Second), Some(10)));
            && InitialSeconds(p) == 45
            && NextPlan(p.updateIntervalInSeconds, p.unit, 45) == Arm(Timer(10, 35))
  {
  }
}

/** The relative-time component as an object: its props, its state
    `currentValueInSeconds` and its one pending-timer slot. Each method is
    one entry point of the component's life: construction, mounting, new
    props, the timer firing, unmounting and rendering. A state change made
    by `setState` is followed, as the UI framework does, by a re-render and
    `componentDidUpdate` when the value actually changed. */
module Component {
  import opened RelativeTime
  import opened Schedule

  const ConfigurationMessage: string := "Cannot schedule update with unit longer than hour"

  class FormattedRelativeTime {
    var props: Props
    var currentValueInSeconds: int
    /** The pending timer, if any; the host timer itself is not modelled. */
    var updateTimer: Option<Timer>

    /** The props carry their defaults, a unit that cannot be incremented
        keeps the state at 0, and a pending timer is the one scheduling
        would arm for the present props and state. */
    ghost predicate Valid()
      reads this
    {
      && StateValid()
      && (updateTimer.Some? ==>
            NextPlan(props.updateIntervalInSeconds, props.unit, currentValueInSeconds) == Arm(updateTimer.value))
    }

    /** The part of `Valid` that does not involve the timer. */
    ghost predicate StateValid()
      reads this
    {
      Resolved(props) && (!CanIncrement(props.unit) ==> currentValueInSeconds == 0)
    }

    /** Builds the instance and its initial state; the configuration check
        runs afterwards, in `Create`. */
    constructor (p: Props)
      requires Resolved(p)
      ensures props == p && currentValueInSeconds == InitialSeconds(p) && updateTimer == None
      ensures Valid()
    {
      props := p;
      currentValueInSeconds := InitialSeconds(p);
      updateTimer := None;
    }

    /** Construction: fails exactly when an update interval is set for a unit
        longer than an hour. */
    static method Create(p: Props) returns (r: Result<FormattedRelativeTime>)
      ensures r.Err? <==> !VerifyProps(p.updateIntervalInSeconds, WithDefaults(p).unit)
      ensures r.Err? ==> r.message == ConfigurationMessage
      ensures r.Ok? ==> && fresh(r.value) && r.value.Valid()
                        && r.value.props == WithDefaults(p)
                        && r.value.currentValueInSeconds == InitialSeconds(WithDefaults(p))
                        && r.value.updateTimer == None
    {
      var resolved := WithDefaults(p);
      var c := new FormattedRelativeTime(resolved);
      if !VerifyProps(resolved.updateIntervalInSeconds, resolved.unit) {
        return Err(ConfigurationMessage);
      }
      return Ok(c);
    }

    /** Cancels the pending timer, then does nothing, clamps the state to
        one day, or arms the timer for the next interesting value. */
    method ScheduleNextUpdate()
      requires StateValid()
      modifies this
      ensures Valid() && props == old(props)
      ensures match NextPlan(props.updateIntervalInSeconds, props.unit, old(currentValueInSeconds))
              case Idle => currentValueInSeconds == old(currentValueInSeconds) && updateTimer == None
              case Clamp(v) => currentValueInSeconds == v && updateTimer == None
              case Arm(t) => currentValueInSeconds == old(currentValueInSeconds) && updateTimer == Some(t)
    {
      updateTimer := None;
      var interval, unit := props.updateIntervalInSeconds, props.unit;
      if !Truthy(interval) || !CanIncrement(unit) {
        return;
      }
      var nextValueInSeconds := currentValueInSeconds - interval.value;
      var nextUnit := SelectUnit(nextValueInSeconds);
      if nextUnit == Day {
        currentValueInSeconds := if nextValueInSeconds < 0 then -DAY else DAY;
        return;
      }
      var unitDuration := DurationInSeconds(Some(nextUnit));
      var remainder := TruncRem(nextValueInSeconds, unitDuration);
      var prevInterestingValueInSeconds := nextValueInSeconds - remainder;
      var nextInterestingValueInSeconds :=
        if prevInterestingValueInSeconds >= currentValueInSeconds
        then prevInterestingValueInSeconds - unitDuration
        else prevInterestingValueInSeconds;
      var delayInSeconds := Abs(nextInterestingValueInSeconds - currentValueInSeconds);
      updateTimer := Some(Timer(delayInSeconds, nextInterestingValueInSeconds));
    }

    /** Reschedules after an update; when scheduling clamped the state to a
        new value, that change is itself an update and reschedules again. */
    method ComponentDidUpdate()
      requires StateValid()
      modifies this
      decreases Rank(props.updateIntervalInSeconds, props.unit, currentValueInSeconds)
      ensures Valid() && props == old(props)
      ensures currentValueInSeconds == Settle(props.updateIntervalInSeconds, props.unit, old(currentValueInSeconds))
      ensures updateTimer == TimerAfter(props.updateIntervalInSeconds, props.unit, currentValueInSeconds)
    {
      var before := currentValueInSeconds;
      ScheduleNextUpdate();
      if currentValueInSeconds != before {
        ClampRankDrops(props.updateIntervalInSeconds, props.unit, before, currentValueInSeconds);
        ComponentDidUpdate();
      }
    }

    /** Mounting schedules exactly as an update does. */
    method ComponentDidMount()
      requires Valid()
      modifies this
      ensures Valid() && props == old(props)
      ensures currentValueInSeconds == Settle(props.updateIntervalInSeconds, props.unit, old(currentValueInSeconds))
      ensures updateTimer == TimerAfter(props.updateIntervalInSeconds, props.unit, currentValueInSeconds)
    {
      ComponentDidUpdate();
    }

    /** Resets the state from the new props when their value or unit
        differs; the pending timer and the props are left alone. */
    method ComponentWillReceiveProps(nextProps: Props)
      modifies this
      ensures props == old(props) && updateTimer == old(updateTimer)
      ensures currentValueInSeconds ==
                if props.value != nextProps.value || props.unit != nextProps.unit
                then InitialSeconds(nextProps)
                else old(currentValueInSeconds)
    {
      if props.value != nextProps.value || props.unit != nextProps.unit {
        currentValueInSeconds := InitialSeconds(nextProps);
      }
    }

    /** The framework's handling of new props: nothing when they equal the
        present ones; otherwise `componentWillReceiveProps`, the props are
        replaced, and the update reschedules. */
    method ReceiveProps(p: Props)
      requires Valid()
      modifies this
      ensures Valid() && props == WithDefaults(p)
      ensures old(props) == props ==>
                currentValueInSeconds == old(currentValueInSeconds) && updateTimer == old(updateTimer)
      ensures old(props) != props ==>
                var reset := if old(props).value != props.value || old(props).unit != props.unit
                             then InitialSeconds(props) else old(currentValueInSeconds);
                && currentValueInSeconds == Settle(props.updateIntervalInSeconds, props.unit, reset)
                && updateTimer == TimerAfter(props.updateIntervalInSeconds, props.unit, currentValueInSeconds)
    {
      var nextProps := WithDefaults(p);
      if nextProps == props {
        return;
      }
      ComponentWillReceiveProps(nextProps);
      props := nextProps;
      ComponentDidUpdate();
    }

    /** The pending timer fires: its target becomes the state, and when that
        changed the state the update reschedules. */
    method Fire()
      requires Valid() && updateTimer.Some?
      modifies this
      ensures Valid() && props == old(props)
      ensures var target := old(updateTimer).value.target;
              if target == old(currentValueInSeconds)
              then currentValueInSeconds == target && updateTimer == None
              else && currentValueInSeconds == Settle(props.updateIntervalInSeconds, props.unit, target)
                   && updateTimer == TimerAfter(props.updateIntervalInSeconds, props.unit, currentValueInSeconds)
    {
      var target := updateTimer.value.target;
      updateTimer := None;
      if target != currentValueInSeconds {
        currentValueInSeconds := target;
        ComponentDidUpdate();
      }
    }

    /** Unmounting cancels the pending timer. */
    method ComponentWillUnmount()
      requires Valid()
      modifies this
      ensures Valid() && updateTimer == None
      ensures props == old(props) && currentValueInSeconds == old(currentValueInSeconds)
    {
      updateTimer := None;
    }

    /** The value and unit passed to the formatter: with auto-update on and
        a nonzero state, the state in its selected unit, rounded to a nonzero
        whole number of that unit with the state's sign; otherwise the value
        and unit props. */
    method Render() returns (shown: Shown)
      requires Valid()
      ensures shown == Display(props, currentValueInSeconds)
      ensures ShowsState(props, currentValueInSeconds) ==>
                var unitDuration := DurationInSeconds(Some(SelectUnit(currentValueInSeconds)));
                && shown.unit == Some(SelectUnit(currentValueInSeconds))
                && 2 * unitDuration * shown.value - unitDuration <= 2 * currentValueInSeconds
                && 2 * currentValueInSeconds < 2 * unitDuration * shown.value + unitDuration
                && shown.value != 0
                && (shown.value > 0 <==> currentValueInSeconds > 0)
      ensures !ShowsState(props, currentValueInSeconds) ==>
                shown == Shown(props.value.value, props.unit)
    {
      shown := Display(props, currentValueInSeconds);
      DisplayOfState(props, currentValueInSeconds);
    }
  }

  /** While a timer is pending with a positive interval, it will lower the
      state, and its delay is exactly the distance it moves the state. */
  lemma PendingTimerLowersState(c: FormattedRelativeTime)
    requires c.Valid() && c.updateTimer.Some?
    requires c.props.updateIntervalInSeconds.Some? && c.props.updateIntervalInSeconds.value > 0
    ensures c.updateTimer.value.target < c.currentValueInSeconds
    ensures c.updateTimer.value.delay == c.currentValueInSeconds - c.updateTimer.value.target
  {
    ArmedTimer(c.props.updateIntervalInSeconds, c.props.unit, c.currentValueInSeconds, c.updateTimer.value);
  }

  /** With a unit that cannot be incremented the state is 0 and no timer is
      pending. */
  lemma NonIncrementableStaysIdle(c: FormattedRelativeTime)
    requires c.Valid() && !CanIncrement(c.props.unit)
    ensures c.currentValueInSeconds == 0 && c.updateTimer == None
  {
  }
}

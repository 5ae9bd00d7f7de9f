# Relative-time auto-update of react-intl's `FormattedRelativeTime`

This project models the core of `src/components/relative.tsx`: the
component that shows a relative time ("3 minutes ago", "in 2 hours") and
keeps it current by re-arming a one-shot timer.

- `relative_time.dfy` (module `RelativeTime`): the pure helpers. `SelectUnit`
  picks second, minute, hour or day from a signed number of seconds.
  `DurationInSeconds` gives a unit's length. `ValueToSeconds` converts a
  value and unit to seconds. `CanIncrement` says which units auto-update.
  `VerifyProps` is the configuration check. `TruncRem` is JavaScript's `%`
  (truncated remainder) and `RoundDiv` is `Math.round(x / d)`, both on
  integers.
- `schedule.dfy` (module `Schedule`): the auto-update arithmetic as
  functions of the props and the state `currentValueInSeconds`.
  `NextPlan` is the decision of `scheduleNextUpdate`: idle, clamp to one
  day, or arm a timer. `Settle` adds the re-renders that a state-changing
  clamp causes. `Trajectory` is the whole sequence of states while the
  component auto-updates. `Display` is the value and unit that `render`
  passes to the formatter.
- `component.dfy` (module `Component`): the class `FormattedRelativeTime`.
  Its fields are the props, `currentValueInSeconds` and the one
  pending-timer slot `updateTimer`. Its methods are the component's entry
  points. Each state-changing method is proved against the functions of
  `Schedule`, and `Valid()` ties any pending timer to the props and state
  it was armed for.

Framework behaviour the model makes explicit:
- The defaults `value = 0` and `unit = 'second'` are applied to incoming
  props (`WithDefaults`).
- After a `setState` that changes the state, the framework re-renders and
  runs `componentDidUpdate`, which calls `scheduleNextUpdate` again. This
  happens after a timer fires and after a clamp that changed the value.
  The framework skips the update when neither the props nor the state
  changed (a pure component).

## Model

| member | source | states |
|---|---|---|
| `RelativeTime.SelectUnit` | src/components/relative.tsx:22-38 | the unit is second, minute, hour or day; it is second whenever the magnitude is below 60 (zero included); it is the coarsest whose length is at most the magnitude, and the magnitude is below the next coarser unit's length |
| `RelativeTime.SelectUnitSymmetric` | src/components/relative.tsx:22-38 | the unit depends only on the magnitude, so past and future times get the same unit |
| `RelativeTime.SelectUnitThresholds` | src/components/relative.tsx:18-38 | 59 s is second, 60 and 3599 are minute, 3600 and 86399 are hour, 86400 is day, and 0 is second |
| `RelativeTime.DurationInSeconds` | src/components/relative.tsx:40-51 | the length is positive, and it is one day exactly when the unit is not second, minute or hour (absent included) |
| `RelativeTime.ValueToSeconds` | src/components/relative.tsx:53-56 | an absent or zero value converts to 0 |
| `RelativeTime.ValueToSecondsUsesDuration` | src/components/relative.tsx:40-65 | a nonzero value is multiplied by its unit's length for second, minute and hour, and by 3600 for every other unit and for an absent one |
| `RelativeTime.CanIncrement` | src/components/relative.tsx:79-82 | true exactly for second, minute, hour and an absent unit |
| `RelativeTime.VerifyProps` | src/components/relative.tsx:84-89 | the check fails exactly when the interval is nonzero and the unit is present and not second, minute or hour |
| `RelativeTime.TruncRem` | src/components/relative.tsx:130 | the remainder is below the divisor in magnitude, takes the dividend's sign, and the dividend minus it is a multiple of the divisor |
| `RelativeTime.TruncRemUnique` | src/components/relative.tsx:130 | any value with those three properties is that remainder |
| `RelativeTime.RoundDiv` | src/components/relative.tsx:189 | the result is the nearest integer to x/d, halves rounded up |
| `Schedule.WithDefaults` | src/components/relative.tsx:94-97 | an absent value becomes 0 and an absent unit second; present props and the interval are kept |
| `Schedule.InitialSeconds` | src/components/relative.tsx:98-102 | the state derived from the props is 0 for an absent or zero value or a unit that cannot be incremented, else, for a present unit, the value times its unit's length |
| `Schedule.NextPlan` | src/components/relative.tsx:113-146 | the decision of `scheduleNextUpdate`: idle exactly when the interval is absent or zero or the unit cannot be incremented; a clamp is to +86400 or -86400; an armed timer's delay is the distance from the state to its target |
| `Schedule.Display` | src/components/relative.tsx:179-190 | the unit shown is the one selected for the state when the state is shown, else the unit prop |
| `Schedule.ClampExactly` | src/components/relative.tsx:119-127 | scheduling clamps exactly when the next value selects day, to -86400 for a negative next value and +86400 otherwise |
| `Schedule.ArmedTimer` | src/components/relative.tsx:129-146 | an armed target is a multiple of the next unit's length and the delay is its distance from the state; for a positive interval the target is below the state, within one unit of the next value and on its side of zero, and the delay is positive and below interval plus one unit |
| `Schedule.ClampBelowIsFinal` | src/components/relative.tsx:120-127 | after a clamp to -86400 a positive interval clamps to the same value again, so auto-update stops |
| `Schedule.ClampAboveRearms` | src/components/relative.tsx:120-146 | after a clamp to +86400 an interval below two days arms a timer again |
| `Schedule.ClampChainShort` | src/components/relative.tsx:120-127 | a clamp that changes an already clamped value lands on the opposite day, from which scheduling changes nothing |
| `Schedule.Settle` | src/components/relative.tsx:120-155 | the state after scheduling and the re-renders it causes is settled, and is the old state, +86400 or -86400 |
| `Schedule.SettledRest` | src/components/relative.tsx:120-146 | with a positive interval a settled state has a timer to arm or is -86400, and is never below -86400 |
| `Schedule.FiringMovesDown` | src/components/relative.tsx:140-155 | with a positive interval each firing and its re-renders lower the state and keep it at or above -86400 |
| `Schedule.Trajectory` | src/components/relative.tsx:109-155 | with a positive interval the states taken while auto-updating strictly decrease and end at -86400 with no timer armed |
| `Schedule.DisplayOfState` | src/components/relative.tsx:175-190 | when the state is shown, it is in its selected unit, rounded to the nearest whole unit, never zero and with the state's sign; otherwise the props are shown |
| `Schedule.FortyFiveSecondsExample` | src/components/relative.tsx:98-146 | 45 seconds with a 10-second interval start at 45 and arm a 10-second timer to 35 |
| `Component.FormattedRelativeTime.constructor` | src/components/relative.tsx:98-102 | the state starts at the initial seconds of the props and no timer is pending |
| `Component.FormattedRelativeTime.Create` | src/components/relative.tsx:104-107 | construction fails with the configuration message exactly when the check fails; otherwise the new instance is valid and idle |
| `Component.FormattedRelativeTime.ScheduleNextUpdate` | src/components/relative.tsx:109-147 | the pending timer is cancelled, then the state and timer are those `NextPlan` decides |
| `Component.FormattedRelativeTime.ComponentDidUpdate` | src/components/relative.tsx:153-155 | the state becomes the settled state and the pending timer is the one scheduling arms for it |
| `Component.FormattedRelativeTime.ComponentDidMount` | src/components/relative.tsx:149-151 | mounting schedules as an update does |
| `Component.FormattedRelativeTime.ComponentWillReceiveProps` | src/components/relative.tsx:162-173 | the state is reset to the initial seconds of the new props when the value or unit differs, else kept; the timer is untouched |
| `Component.FormattedRelativeTime.ReceiveProps` | src/components/relative.tsx:162-173 | equal props change nothing; new props replace the old, reset the state as above, then reschedule |
| `Component.FormattedRelativeTime.Fire` | src/components/relative.tsx:140-146 | the timer's target becomes the state and, when that changed it, the update reschedules |
| `Component.FormattedRelativeTime.ComponentWillUnmount` | src/components/relative.tsx:157-160 | no timer is pending afterwards, nothing else changes, and the class invariant is kept |
| `Component.FormattedRelativeTime.Render` | src/components/relative.tsx:175-190 | the value and unit passed to the formatter are those of `Display`: with auto-update on and a nonzero state, the state in its selected unit rounded to the nearest nonzero whole unit with the state's sign; otherwise the value and unit props |
| `Component.PendingTimerLowersState` | src/components/relative.tsx:129-146 | a pending timer with a positive interval will lower the state by exactly its delay |
| `Component.NonIncrementableStaysIdle` | src/components/relative.tsx:98-118 | with a unit that cannot be incremented the state is 0 and no timer is pending |

## Left out

- The host timer: `setTimeout`, `clearTimeout` and the conversion of the delay to milliseconds. The pending timer is a field holding the delay in seconds and the target; `Fire` is called when it expires.
- The framework base class and its render cycle. Only the decisions it makes for this component are modelled: defaults, the skip when neither the props nor the state changed, and `componentDidUpdate` after a change.
- The formatter call `formatRelativeTime`, the text component and the `children` render callback. `Render` stops at the value and unit it would pass.
- Props other than `value`, `unit` and `updateIntervalInSeconds`, and the passing of time. In the source a change in any other prop is an update: the old timer is cleared and a timer with the same delay and target is armed again, so its wait restarts from the full delay. A parent that re-renders more often than the delay therefore keeps the display from ever updating. The model has no clock and treats props equal in these three fields as no change (`ReceiveProps`), so it does not capture this restart. It also misses the re-arming of a timer that already fired without changing the state (a zero-delay timer, possible only with a negative interval): the model then holds no timer, while such a re-render in the source arms one again.
- Non-integer seconds, `NaN` and infinities. Values and intervals are integers.
- `src/components/injectIntl.tsx` is not part of this model. It is the context wrapper and has no arithmetic of its own.

## Notes on the source

- The values do not approach zero. With a positive interval each firing lowers the state. A future time ("in 3 minutes") counts down through zero into past times, and the past time keeps growing until it is clamped to minus one day (`Trajectory`).
- With a positive interval, a clamp to plus one day does not end auto-update. The clamp changes the state, so the update runs again. From +86400 an interval below two days arms a new timer (`ClampAboveRearms`). With a positive interval only the clamp to minus one day is final (`ClampBelowIsFinal`). The source also accepts a negative interval, and the model does not restrict it; the lemmas above say nothing about that case.
- `valueToSeconds` reads an absent unit as hours, while `canIncrement` reads it as second. The component never passes an absent unit, because its default is second.

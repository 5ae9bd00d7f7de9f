/** Pure helpers of the relative-time component: time units, the choice of a
    display unit from a number of seconds, unit lengths, the conversion of a
    (value, unit) pair to seconds, and the configuration check.
    Seconds are modelled as unbounded integers; JavaScript's `%` and
    `Math.round` are written out for integers. */
module RelativeTime {

  datatype Option<T> = None | Some(value: T)

  /** Outcome of an operation that can throw a configuration error. */
  datatype Result<T> = Ok(value: T) | Err(message: string)

  /** The units accepted by the relative-time formatter. An absent unit is
      `None`. */
  datatype Unit = Second | Minute | Hour | Day | Week | Month | Quarter | Year

  const MINUTE: int := 60
  const HOUR: int := 60 * 60
  const DAY: int := 60 * 60 * 24

  function Abs(x: int): nat
  {
    if x < 0 then -x else x
  }

  /** The unit one step coarser than `u` (Year has none and stays Year). */
  function Coarser(u: Unit): Unit
  {
    match u
    case Second => Minute
    case Minute => Hour
    case Hour => Day
    case Day => Week
    case Week => Month
    case Month => Quarter
    case Quarter => Year
    case Year => Year
  }

  /** JavaScript truthiness of an optional number: absent and 0 are falsy. */
  predicate Truthy(n: Option<int>)
  {
    n.Some? && n.value != 0
  }

  /** The display unit for a signed number of seconds: the coarsest of
      second, minute, hour and day whose length does not exceed the
      magnitude. */
  function SelectUnit(seconds: int): (u: Unit)
    ensures u == Second || u == Minute || u == Hour || u == Day
    ensures Abs(seconds) < MINUTE ==> u == Second
    ensures seconds != 0 ==> DurationInSeconds(Some(u)) <= Abs(seconds)
    ensures u != Day ==> Abs(seconds) < DurationInSeconds(Some(Coarser(u)))
  {
    var absValue := Abs(seconds);
    if absValue < MINUTE then Second
    else if absValue < HOUR then Minute
    else if absValue < DAY then Hour
    else Day
  }

  /** Length of a unit in seconds; every unit other than second, minute and
      hour, and an absent unit, count as one day. */
  function DurationInSeconds(unit: Option<Unit>): (d: int)
    ensures d > 0
    ensures d == DAY <==> !(unit in {Some(Second), Some(Minute), Some(Hour)})
  {
    match unit
    case Some(Second) => 1
    case Some(Minute) => MINUTE
    case Some(Hour) => HOUR
    case _ => DAY
  }

  /** `value` expressed in seconds; an absent or zero value is 0, and every
      unit other than second and minute (an absent one included) is read as
      hours. */
  function ValueToSeconds(value: Option<int>, unit: Option<Unit>): (s: int)
    ensures !Truthy(value) ==> s == 0
  {
    if !Truthy(value) then 0
    else match unit
      case Some(Second) => value.value
      case Some(Minute) => value.value * MINUTE
      case _ => value.value * HOUR
  }

  /** Whether the unit can be auto-updated; an absent unit means second. */
  function CanIncrement(unit: Option<Unit>): (b: bool)
    ensures b <==> unit in {None, Some(Second), Some(Minute), Some(Hour)}
  {
    var u := if unit.None? then Second else unit.value;
    u == Second || u == Minute || u == Hour
  }

  /** The configuration check run when the component is constructed. */
  function VerifyProps(updateIntervalInSeconds: Option<int>, unit: Option<Unit>): (ok: bool)
    ensures !ok <==> updateIntervalInSeconds.Some? && updateIntervalInSeconds.value != 0
                     && unit.Some? && unit.value != Second && unit.value != Minute && unit.value != Hour
  {
    !Truthy(updateIntervalInSeconds) || CanIncrement(unit)
  }

  /** JavaScript's `a % d` for an integer `a` and a positive `d`: the
      remainder of division truncated toward zero, whose sign follows the
      dividend. */
  function TruncRem(a: int, d: int): (r: int)
    requires d > 0
    ensures -d < r < d
    ensures a >= 0 ==> r >= 0
    ensures a <= 0 ==> r <= 0
    ensures (a - r) % d == 0
  {
    var r := if a >= 0 then a % d else -((-a) % d);
    assert a - r == d * (if a >= 0 then a / d else -((-a) / d));
    MultipleHasNoRemainder(if a >= 0 then a / d else -((-a) / d), d);
    r
  }

  /** A multiple of `d` leaves no (Euclidean) remainder. */
  lemma MultipleHasNoRemainder(k: int, d: int)
    requires d > 0
    ensures (d * k) % d == 0
  {
    var x := d * k;
    assert x == d * (x / d) + x % d;
    assert x % d == d * (k - x / d);
    ScaledAwayFromZero(k - x / d, d);
  }

  lemma ScaledAwayFromZero(q: int, d: int)
    requires d > 0
    ensures q >= 1 ==> d * q >= d
    ensures q <= -1 ==> d * q <= -d
  {
    if q >= 1 {
      assert d * q == d + d * (q - 1);
    } else if q <= -1 {
      assert d * q == -d + d * (q + 1);
    }
  }

  /** JavaScript's `Math.round(x / d)` for a positive `d`: the nearest
      integer to x/d, halves rounded toward +infinity. */
  function RoundDiv(x: int, d: int): (q: int)
    requires d > 0
    ensures 2 * d * q - d <= 2 * x < 2 * d * q + d
  {
    (2 * x + d) / (2 * d)
  }

  /** The unit depends only on the magnitude, so a past and a future time
      the same distance away get the same unit. */
  lemma SelectUnitSymmetric(seconds: int)
    ensures SelectUnit(-seconds) == SelectUnit(seconds)
  {
  }

  /** The thresholds between second, minute, hour and day. */
  lemma SelectUnitThresholds()
    ensures SelectUnit(59) == Second && SelectUnit(60) == Minute
    ensures SelectUnit(3599) == Minute && SelectUnit(3600) == Hour
    ensures SelectUnit(86399) == Hour && SelectUnit(86400) == Day
    ensures SelectUnit(-59) == Second && SelectUnit(-86400) == Day
    ensures SelectUnit(0) == Second
  {
  }

  /** A nonzero value is converted with its unit's length for second, minute
      and hour; every other unit, and an absent one, converts as hours. */
  lemma ValueToSecondsUsesDuration(v: int, unit: Option<Unit>)
    requires v != 0
    ensures unit.Some? && CanIncrement(unit) ==> ValueToSeconds(Some(v), unit) == v * DurationInSeconds(unit)
    ensures unit.None? || !CanIncrement(unit) ==> ValueToSeconds(Some(v), unit) == v * HOUR
  {
  }

  /** The remainder is the one left by division truncated toward zero: any
      value below `d` in magnitude, with the dividend's sign, that differs
      from the dividend by a multiple of `d` is that remainder. */
  lemma TruncRemUnique(a: int, d: int, r: int)
    requires d > 0
    requires -d < r < d && (a >= 0 ==> r >= 0) && (a <= 0 ==> r <= 0)
    requires (a - r) % d == 0
    ensures r == TruncRem(a, d)
  {
    var r0 := TruncRem(a, d);
    var x, y := a - r, a - r0;
    assert x == d * (x / d) && y == d * (y / d);
    assert r0 - r == d * (x / d - y / d);
    ScaledAwayFromZero(x / d - y / d, d);
  }
}

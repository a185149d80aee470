/**
 * Timestamp helpers of the database layer: the check that a timestamp is
 * timezone aware, and linear interpolation of a value between two dates.
 */
module TimestampUtils {
  import opened Wrappers
  import opened Calendar

  datatype TimestampError =
    | TimezoneMustBeSet
    | StartAfterEnd
    | TargetOutOfRange
    /** `end - start` is zero, and dividing by a zero timedelta raises. */
    | ZeroDuration
    /** Ordering a naive against an aware datetime raises a `TypeError`. */
    | MixedAwareness

  /**
   * `validate_datetime_timezone_utc`: a naive value is refused; an aware one
   * is converted to UTC, which keeps its instant.
   */
  function ValidateUtc(t: DateTime): (r: Result<DateTime, TimestampError>)
    ensures r.Ok? <==> t.aware
    ensures r.Ok? ==> r.value == t
    ensures r.Err? ==> r.error == TimezoneMustBeSet
  {
    if !t.aware then Err(TimezoneMustBeSet) else Ok(t)
  }

  /** `interpolate_value_between_dates`, its guards in the order of the source. */
  function Interpolate(startValue: real, endValue: real, start: DateTime, end: DateTime, target: DateTime): (r: Result<real, TimestampError>)
    ensures start.aware == end.aware == target.aware && start.micros <= target.micros <= end.micros && start.micros < end.micros
      ==> r.Ok?
  {
    if start.aware != end.aware then Err(MixedAwareness)
    else if start.micros > end.micros then Err(StartAfterEnd)
    else if start.aware != target.aware then Err(MixedAwareness)
    else if start.micros > target.micros || end.micros < target.micros then Err(TargetOutOfRange)
    else if end.micros == start.micros then Err(ZeroDuration)
    else Ok((endValue - startValue) * ((target.micros - start.micros) as real / (end.micros - start.micros) as real) + startValue)
  }

  /** The error cases, each exactly when its guard is the first to fail. */
  lemma InterpolateErrors(startValue: real, endValue: real, start: DateTime, end: DateTime, target: DateTime)
    requires start.aware == end.aware == target.aware
    ensures Interpolate(startValue, endValue, start, end, target) == Err(StartAfterEnd) <==> start.micros > end.micros
    ensures Interpolate(startValue, endValue, start, end, target) == Err(TargetOutOfRange)
      <==> start.micros <= end.micros && (target.micros < start.micros || target.micros > end.micros)
    ensures Interpolate(startValue, endValue, start, end, target) == Err(ZeroDuration)
      <==> start.micros == end.micros == target.micros
  {
  }

  /** The interpolation is the start value at the start, the end value at the end. */
  lemma InterpolateEnds(startValue: real, endValue: real, start: DateTime, end: DateTime)
    requires start.aware == end.aware && start.micros < end.micros
    ensures Interpolate(startValue, endValue, start, end, start) == Ok(startValue)
    ensures Interpolate(startValue, endValue, start, end, end) == Ok(endValue)
  {
    var q := (end.micros - start.micros) as real;
    assert q / q == 1.0;
  }

  /** The result lies between the start and the end value. */
  lemma InterpolateBetween(startValue: real, endValue: real, start: DateTime, end: DateTime, target: DateTime)
    requires start.aware == end.aware == target.aware
    requires start.micros <= target.micros <= end.micros && start.micros < end.micros
    ensures var v := Interpolate(startValue, endValue, start, end, target).value;
      (startValue <= endValue ==> startValue <= v <= endValue) &&
      (endValue <= startValue ==> endValue <= v <= startValue)
  {
    var f := (target.micros - start.micros) as real / (end.micros - start.micros) as real;
    assert 0.0 <= f <= 1.0 by {
      var p := (target.micros - start.micros) as real;
      var q := (end.micros - start.micros) as real;
      assert p <= q && q > 0.0 && p >= 0.0;
      assert f * q == p;
    }
    FractionScale(startValue, endValue, f);
  }

  lemma FractionScale(a: real, b: real, f: real)
    requires 0.0 <= f <= 1.0
    ensures a <= b ==> a <= (b - a) * f + a <= b
    ensures b <= a ==> b <= (b - a) * f + a <= a
  {
    if a <= b {
      MulNonNegative(b - a, f);
      MulNonNegative(b - a, 1.0 - f);
    } else {
      MulNonNegative(a - b, f);
      MulNonNegative(a - b, 1.0 - f);
    }
  }

  lemma MulNonNegative(x: real, y: real)
    requires x >= 0.0 && y >= 0.0
    ensures x * y >= 0.0
  {
  }

  /** Equal steps of time give equal steps of value: the result is linear in the target. */
  lemma InterpolateLinear(startValue: real, endValue: real, start: DateTime, end: DateTime, t1: DateTime, t2: DateTime)
    requires start.aware == end.aware == t1.aware == t2.aware
    requires start.micros <= t1.micros <= end.micros && start.micros <= t2.micros <= end.micros && start.micros < end.micros
    ensures var v1 := Interpolate(startValue, endValue, start, end, t1).value;
      var v2 := Interpolate(startValue, endValue, start, end, t2).value;
      (v2 - v1) * (end.micros - start.micros) as real == (endValue - startValue) * (t2.micros - t1.micros) as real
  {
    var q := (end.micros - start.micros) as real;
    var f1 := (t1.micros - start.micros) as real / q;
    var f2 := (t2.micros - start.micros) as real / q;
    assert f1 * q == (t1.micros - start.micros) as real;
    assert f2 * q == (t2.micros - start.micros) as real;
    var d := endValue - startValue;
    assert (d * f2 - d * f1) * q == d * (f2 * q - f1 * q);
  }

  /** Midnight, naive, of a day of January 2021. */
  function Jan2021(day: int): DateTime
  {
    DateTime(DaysFromCivil(2021, 1, day) * MicrosPerDay, false)
  }

  /** The vectors of the source's tests. */
  lemma InterpolateExamples()
    ensures Interpolate(0.0, 1.0, Jan2021(1), Jan2021(3), Jan2021(2)) == Ok(0.5)
    ensures Interpolate(0.0, 99.0, Jan2021(1), Jan2021(10), Jan2021(9)) == Ok(88.0)
    ensures Interpolate(10.0, 20.0, Jan2021(1), Jan2021(3), Jan2021(2)) == Ok(15.0)
    ensures Interpolate(0.0, 1.0, Jan2021(2), Jan2021(3), Jan2021(1)) == Err(TargetOutOfRange)
    ensures Interpolate(0.0, 1.0, Jan2021(2), Jan2021(1), DateTime(Jan2021(1).micros + 12 * 3600 * MicrosPerSecond, false))
      == Err(StartAfterEnd)
  {
    assert DaysFromCivil(2021, 1, 1) == 18628;
    assert DaysFromCivil(2021, 1, 2) == 18629;
    assert DaysFromCivil(2021, 1, 3) == 18630;
    assert DaysFromCivil(2021, 1, 9) == 18636;
    assert DaysFromCivil(2021, 1, 10) == 18637;
    assert (1 * MicrosPerDay) as real / (2 * MicrosPerDay) as real == 0.5;
    assert (8 * MicrosPerDay) as real / (9 * MicrosPerDay) as real == 8.0 / 9.0;
  }
}

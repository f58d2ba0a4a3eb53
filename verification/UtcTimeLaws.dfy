/**
 The arithmetic is exact: results are the mathematical ones, and an error says that the
 mathematical result does not fit.
 */
module UtcTimeLaws {
  import opened TimeTypes
  import opened UtcTime

  /** The value as a whole number of nanoseconds. */
  function Total(seconds: int, nanosecond: int): int {
    seconds * NANOSECONDS + nanosecond
  }

  function UtcTotal(u: Utc): int {
    Total(u.seconds, u.nanosecond)
  }

  function DurationTotal(d: Duration): int {
    Total(d.seconds, d.nanosecond)
  }

  /** Totals whose seconds fit 64 bits. */
  predicate Representable(total: int) {
    Total(INT64_MIN, 0) <= total < Total(INT64_MAX + 1, 0)
  }

  /** Addition gives the exact sum exactly when it fits. */
  lemma AddIsExact(u: Utc, d: Duration)
    requires UtcValid(u) && DurationValid(d)
    ensures var sum := UtcTotal(u) + DurationTotal(d);
            if Representable(sum)
            then UtcAdd(u, d).Ok? && UtcTotal(UtcAdd(u, d).value) == sum && UtcValid(UtcAdd(u, d).value)
            else UtcAdd(u, d) == Failed(OutOfRange)
  {
  }

  lemma SubtractNormalizedIsExact(left: Utc, right: Utc)
    requires UtcValid(left) && UtcValid(right)
    ensures var difference := UtcTotal(left) - UtcTotal(right);
            var result := SubtractNormalized(left, right);
            if Representable(difference)
            then result.Ok? && UtcTotal(result.value) == difference && UtcValid(result.value)
            else result == Failed(OutOfRange)
  {
  }

  /** So do subtraction and difference. */
  lemma SubtractIsExact(u: Utc, d: Duration)
    requires UtcValid(u) && DurationValid(d)
    ensures var difference := UtcTotal(u) - DurationTotal(d);
            if Representable(difference)
            then UtcSubtract(u, d).Ok? && UtcTotal(UtcSubtract(u, d).value) == difference && UtcValid(UtcSubtract(u, d).value)
            else UtcSubtract(u, d) == Failed(OutOfRange)
  {
    SubtractNormalizedIsExact(u, Utc(d.seconds, d.nanosecond));
  }

  lemma DifferenceIsExact(end: Utc, start: Utc)
    requires UtcValid(end) && UtcValid(start)
    ensures var difference := UtcTotal(end) - UtcTotal(start);
            if Representable(difference)
            then && UtcDifference(end, start).Ok? && DurationTotal(UtcDifference(end, start).value) == difference
                 && DurationValid(UtcDifference(end, start).value)
            else UtcDifference(end, start) == Failed(OutOfRange)
  {
    SubtractNormalizedIsExact(end, start);
  }

  /** A valid value is determined by its total, and its total fits. */
  lemma TotalDetermines(a: Utc, b: Utc)
    requires UtcValid(a) && UtcValid(b)
    ensures UtcTotal(a) == UtcTotal(b) <==> a == b
    ensures Representable(UtcTotal(a))
  {
  }

  /** The start plus the difference is the end, and subtracting it from the end is the start. */
  lemma StartPlusDifference(end: Utc, start: Utc)
    requires UtcValid(end) && UtcValid(start) && UtcDifference(end, start).Ok?
    ensures UtcAdd(start, UtcDifference(end, start).value) == Ok(end)
    ensures UtcSubtract(end, UtcDifference(end, start).value) == Ok(start)
  {
    hide UtcAdd, UtcSubtract, UtcDifference;
    var d := UtcDifference(end, start);
    DifferenceIsExact(end, start);
    AddIsExact(start, d.value);
    SubtractIsExact(end, d.value);
    TotalDetermines(end, end);
    TotalDetermines(start, start);
    TotalDetermines(UtcAdd(start, d.value).value, end);
    TotalDetermines(UtcSubtract(end, d.value).value, start);
  }

  /** Subtracting what was added returns the instant, and the difference is the duration. */
  lemma AddThenSubtract(u: Utc, d: Duration)
    requires UtcValid(u) && DurationValid(d) && UtcAdd(u, d).Ok?
    ensures UtcSubtract(UtcAdd(u, d).value, d) == Ok(u)
    ensures UtcDifference(UtcAdd(u, d).value, u) == Ok(d)
  {
    hide UtcAdd, UtcSubtract, UtcDifference;
    var sum := UtcAdd(u, d).value;
    AddIsExact(u, d);
    SubtractIsExact(sum, d);
    DifferenceIsExact(sum, u);
    TotalDetermines(u, u);
    TotalDetermines(UtcSubtract(sum, d).value, u);
    var back := UtcDifference(sum, u).value;
    TotalDetermines(Utc(d.seconds, d.nanosecond), Utc(back.seconds, back.nanosecond));
  }

  /** Comparison is the sign of the difference. */
  lemma CompareIsSign(left: Utc, right: Utc)
    requires UtcValid(left) && UtcValid(right)
    ensures var difference := UtcTotal(left) - UtcTotal(right);
            UtcCompare(left, right) == Ok(if difference < 0 then -1 else if difference > 0 then 1 else 0)
  {
  }

  /** Invalid nanoseconds, and nothing else, are an invalid argument. */
  lemma InvalidExactly(u: Utc, v: Utc, d: Duration)
    ensures UtcAdd(u, d) == Failed(InvalidArgument) <==> !UtcValid(u) || !DurationValid(d)
    ensures UtcSubtract(u, d) == Failed(InvalidArgument) <==> !UtcValid(u) || !DurationValid(d)
    ensures UtcDifference(u, v) == Failed(InvalidArgument) <==> !UtcValid(u) || !UtcValid(v)
    ensures UtcCompare(u, v) == Failed(InvalidArgument) <==> !UtcValid(u) || !UtcValid(v)
  {
  }

  // ----- Units -----

  /** The least number of units that converts back. */
  function LeastUnits(unit: Unit): int {
    PerSecond(unit) * Quotient(INT64_MIN, PerSecond(unit))
  }

  /** Reading a value in units rounds down, and is refused exactly outside `LeastUnits .. INT64_MAX`. */
  lemma ToUnitsRoundsDown(u: Utc, unit: Unit)
    requires UtcValid(u)
    ensures var units := UtcTotal(u) / NanosecondsPer(unit);
            UtcTo(u, unit) == if LeastUnits(unit) <= units <= INT64_MAX then Ok(units) else Failed(OutOfRange)
  {
    match unit
    case Milliseconds =>
    case Microseconds =>
    case Nanoseconds =>
  }

  /** Truncation with the correction is division rounding down. */
  lemma SplitRoundsDown(value: Int64, unit: Unit)
    ensures SplitUnits(value, unit) == (value / PerSecond(unit), value % PerSecond(unit))
  {
    hide Quotient, Remainder;
    CorrectedRoundsDown(value, PerSecond(unit));
  }

  /** Making an instant from units is exact. */
  lemma FromUnitsIsExact(value: Int64, unit: Unit)
    ensures UtcValid(UtcFrom(value, unit)) && UtcTotal(UtcFrom(value, unit)) == value * NanosecondsPer(unit)
  {
    hide SplitUnits;
    SplitRoundsDown(value, unit);
    match unit
    case Milliseconds =>
    case Microseconds =>
    case Nanoseconds =>
  }

  /** From units and back is the identity from `LeastUnits` on, and refused below: never a wrong value. */
  lemma UnitsRoundTrip(value: Int64, unit: Unit)
    ensures UtcTo(UtcFrom(value, unit), unit) == if value >= LeastUnits(unit) then Ok(value) else Failed(OutOfRange)
  {
    hide UtcTo, UtcFrom, LeastUnits;
    FromUnitsIsExact(value, unit);
    ToUnitsRoundsDown(UtcFrom(value, unit), unit);
    assert value * NanosecondsPer(unit) / NanosecondsPer(unit) == value by {
      match unit
      case Milliseconds =>
      case Microseconds =>
      case Nanoseconds =>
    }
  }

  /** The same for durations in nanoseconds. */
  lemma DurationRoundTrip(value: Int64)
    ensures DurationToNanoseconds(DurationFromNanoseconds(value)) ==
            if value >= LeastUnits(Nanoseconds) then Ok(value) else Failed(OutOfRange)
  {
    UnitsRoundTrip(value, Nanoseconds);
  }

  /** The values that are not read back are the lowest ones, in every unit: there is at least one. */
  lemma SomeValuesAreRefused(unit: Unit)
    ensures INT64_MIN < LeastUnits(unit)
    ensures UtcTo(UtcFrom(INT64_MIN, unit), unit) == Failed(OutOfRange)
  {
    UnitsRoundTrip(INT64_MIN, unit);
  }
}

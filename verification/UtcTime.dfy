/**
 Instants, durations and unit conversions (`utility_time.c`). Every intermediate value is
 declared with the width the program computes it in, so no operation wraps.
 */
module UtcTime {
  import opened TimeTypes

  datatype Duration = Duration(seconds: Int64, nanosecond: Unsigned)

  datatype Error = InvalidArgument | OutOfRange

  datatype Outcome<T> = Ok(value: T) | Failed(error: Error)

  type Uint64 = x: int | 0 <= x <= 0xffff_ffff_ffff_ffff

  predicate UtcValid(u: Utc) {
    u.nanosecond < NANOSECONDS
  }

  predicate DurationValid(d: Duration) {
    d.nanosecond < NANOSECONDS
  }

  // ----- Units -----

  datatype Unit = Milliseconds | Microseconds | Nanoseconds

  function PerSecond(unit: Unit): Int64 {
    match unit
    case Milliseconds => 1_000
    case Microseconds => 1_000_000
    case Nanoseconds => 1_000_000_000
  }

  function NanosecondsPer(unit: Unit): Unsigned {
    match unit
    case Milliseconds => 1_000_000
    case Microseconds => 1_000
    case Nanoseconds => 1
  }

  function SplitUnits(value: Int64, unit: Unit): (Int64, Unsigned) {
    var quotient: Int64 := Quotient(value, PerSecond(unit));
    var remainder: Int64 := Remainder(value, PerSecond(unit));
    if remainder < 0 then
      var borrowed: Int64 := quotient - 1;
      var positive: Int64 := remainder + PerSecond(unit);
      (borrowed, positive)
    else (quotient, remainder)
  }

  function ToUnits(seconds: Int64, nanosecond: Unsigned, unit: Unit): Outcome<Int64> {
    if nanosecond >= NANOSECONDS then Failed(InvalidArgument)
    else
      var fraction: Int64 := nanosecond / NanosecondsPer(unit);
      if seconds > Quotient(INT64_MAX, PerSecond(unit)) || seconds < Quotient(INT64_MIN, PerSecond(unit)) then
        Failed(OutOfRange)
      else if seconds == Quotient(INT64_MAX, PerSecond(unit)) && fraction > Remainder(INT64_MAX, PerSecond(unit)) then
        Failed(OutOfRange)
      else
        var whole: Int64 := seconds * PerSecond(unit);
        Ok(whole + fraction)
  }

  function UtcFrom(value: Int64, unit: Unit): Utc {
    var (seconds, fraction) := SplitUnits(value, unit);
    var nanosecond: Unsigned := fraction * NanosecondsPer(unit);
    Utc(seconds, nanosecond)
  }

  function UtcTo(u: Utc, unit: Unit): Outcome<Int64> {
    if !UtcValid(u) then Failed(InvalidArgument) else ToUnits(u.seconds, u.nanosecond, unit)
  }

  function DurationFromNanoseconds(value: Int64): Duration {
    var (seconds, fraction) := SplitUnits(value, Nanoseconds);
    Duration(seconds, fraction)
  }

  function DurationToNanoseconds(d: Duration): Outcome<Int64> {
    if !DurationValid(d) then Failed(InvalidArgument) else ToUnits(d.seconds, d.nanosecond, Nanoseconds)
  }

  // ----- Sums and differences -----

  function AddNormalized(leftSeconds: Int64, leftNanosecond: Unsigned, rightSeconds: Int64, rightNanosecond: Unsigned): Outcome<Utc> {
    var nanosecond: Uint64 := leftNanosecond + rightNanosecond;
    var carry: Unsigned := if nanosecond >= NANOSECONDS then 1 else 0;
    if carry != 0 && rightSeconds == INT64_MAX then
      if leftSeconds >= 0 then Failed(OutOfRange)
      else
        var below: Int64 := INT64_MAX + leftSeconds;
        var seconds: Int64 := below + 1;
        Ok(Utc(seconds, nanosecond % NANOSECONDS))
    else
      var adjustedRight: Int64 := rightSeconds + carry;
      if adjustedRight > 0 && (var room: Int64 := INT64_MAX - adjustedRight; leftSeconds > room) then Failed(OutOfRange)
      else if adjustedRight < 0 && (var room: Int64 := INT64_MIN - adjustedRight; leftSeconds < room) then Failed(OutOfRange)
      else
        var seconds: Int64 := leftSeconds + adjustedRight;
        Ok(Utc(seconds, nanosecond % NANOSECONDS))
  }

  function SubtractSeconds(left: Int64, right: Int64, borrow: Unsigned): Outcome<Int64>
    requires borrow <= 1
  {
    if borrow != 0 && right == INT64_MAX then
      if left < 0 then Failed(OutOfRange)
      else
        var result: Int64 := INT64_MIN + left;
        Ok(result)
    else
      var adjustedRight: Int64 := right + borrow;
      if adjustedRight > 0 && (var room: Int64 := INT64_MIN + adjustedRight; left < room) then Failed(OutOfRange)
      else if adjustedRight < 0 && (var room: Int64 := INT64_MAX + adjustedRight; left > room) then Failed(OutOfRange)
      else
        var result: Int64 := left - adjustedRight;
        Ok(result)
  }

  /** Seconds and nanoseconds of a difference of two valid values. */
  function SubtractNormalized(left: Utc, right: Utc): Outcome<Utc>
    requires UtcValid(left) && UtcValid(right)
  {
    var borrow: Unsigned := if left.nanosecond < right.nanosecond then 1 else 0;
    match SubtractSeconds(left.seconds, right.seconds, borrow)
    case Failed(error) => Failed(error)
    case Ok(seconds) =>
      if borrow == 0 then
        var nanosecond: Unsigned := left.nanosecond - right.nanosecond;
        Ok(Utc(seconds, nanosecond))
      else
        var short: Unsigned := right.nanosecond - left.nanosecond;
        var nanosecond: Unsigned := NANOSECONDS - short;
        Ok(Utc(seconds, nanosecond))
  }

  function UtcAdd(u: Utc, d: Duration): Outcome<Utc> {
    if !UtcValid(u) || !DurationValid(d) then Failed(InvalidArgument)
    else AddNormalized(u.seconds, u.nanosecond, d.seconds, d.nanosecond)
  }

  function UtcSubtract(u: Utc, d: Duration): Outcome<Utc> {
    if !UtcValid(u) || !DurationValid(d) then Failed(InvalidArgument)
    else SubtractNormalized(u, Utc(d.seconds, d.nanosecond))
  }

  function UtcDifference(end: Utc, start: Utc): Outcome<Duration> {
    if !UtcValid(end) || !UtcValid(start) then Failed(InvalidArgument)
    else
      match SubtractNormalized(end, start)
      case Failed(error) => Failed(error)
      case Ok(r) => Ok(Duration(r.seconds, r.nanosecond))
  }

  function UtcCompare(left: Utc, right: Utc): Outcome<int> {
    if !UtcValid(left) || !UtcValid(right) then Failed(InvalidArgument)
    else if left.seconds != right.seconds then Ok(if left.seconds < right.seconds then -1 else 1)
    else if left.nanosecond != right.nanosecond then Ok(if left.nanosecond < right.nanosecond then -1 else 1)
    else Ok(0)
  }
}

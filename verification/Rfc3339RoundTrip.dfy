/**
 Printing an instant, the round trips between instants and timestamps, and the loops of the
 printer and the parser.
 */
module Rfc3339RoundTrip {
  import opened Wrappers
  import opened Decimals
  import opened TimeTypes
  import opened Calendar
  import opened Rfc3339

  datatype Result = Ok | InvalidArgument | BufferTooSmall | OutOfRange

  predicate InRange(seconds: Int64) {
    MIN_SECONDS <= seconds <= MAX_SECONDS
  }

  // ----- Which instants have a four-digit year -----

  lemma Bounds()
    ensures IsDate(Date(1, 1, 1)) && DayNumber(Date(1, 1, 1)) * 86400 == MIN_SECONDS
    ensures IsDate(Date(9999, 12, 31)) && DayNumber(Date(9999, 12, 31)) * 86400 + 86399 == MAX_SECONDS
  {
    hide YearStart;
    YearStartClosed(1);
    YearStartClosed(9999);
    MonthStarts(1);
    MonthStarts(9999);
  }

  /** The instants within the range are those whose year has one to four digits. */
  lemma RangeIsYears(d: Date, secondOfDay: nat)
    requires IsDate(d) && secondOfDay < 86400
    ensures MIN_SECONDS <= DayNumber(d) * 86400 + secondOfDay <= MAX_SECONDS <==> 1 <= d.year <= 9999
  {
    hide DayNumber, IsLeapYear;
    Bounds();
    var first, last := Date(1, 1, 1), Date(9999, 12, 31);
    DayNumberIncreases(d, first);
    DayNumberIncreases(last, d);
  }

  // ----- The printer -----

  /** Days and second of the day, as the C operators and the correction give them. */
  function SplitDays(seconds: Int64): (int, int) {
    var days, rest := Quotient(seconds, 86400), Remainder(seconds, 86400);
    if rest < 0 then (days - 1, rest + 86400) else (days, rest)
  }

  lemma SplitDaysIsFloor(seconds: Int64)
    ensures var (days, rest) := SplitDays(seconds);
            0 <= rest < 86400 && seconds == days * 86400 + rest
  {
  }

  function StampAt(utc: Utc): Stamp
    requires utc.nanosecond < NANOSECONDS
  {
    var (days, rest) := SplitDays(utc.seconds);
    SplitDaysIsFloor(utc.seconds);
    Stamp(CivilFromDays(days), rest / 3600, rest / 60 % 60, rest % 60, Digits(utc.nanosecond, 9))
  }

  lemma {:induction false} ZeroPadded(fraction: string)
    requires |fraction| == 9 && AllDigits(fraction)
    ensures Nanoseconds(fraction) == DigitsValue(fraction)
  {
  }

  /** An instant in range is printed as a timestamp with nine fraction digits that names it. */
  lemma StampNamesInstant(utc: Utc)
    requires utc.nanosecond < NANOSECONDS && InRange(utc.seconds)
    ensures var t := StampAt(utc);
            IsStamp(t) && |t.fraction| == 9 && SecondsOf(t) == utc.seconds && Nanoseconds(t.fraction) == utc.nanosecond
  {
    hide Digits, DigitsValue, Nanoseconds, Power, AllDigits, DayNumber, CivilFromDays, DaysFromCivil, IsDate, Quotient;
    var (days, rest) := SplitDays(utc.seconds);
    SplitDaysIsFloor(utc.seconds);
    var d := DaysInvertCivil(days);
    RangeIsYears(d, rest);
    FitsWhenPrinted(d);
    Powers();
    DigitsShape(utc.nanosecond, 9);
    NumberOfDigits(utc.nanosecond, 9);
    ZeroPadded(Digits(utc.nanosecond, 9));
    Clock(rest);
  }

  lemma FitsWhenPrinted(d: Date)
    requires 1 <= d.year <= 9999
    ensures FitsInt(MarchYear(d)) && FitsInt(d.year)
  {
  }

  lemma Clock(rest: nat)
    requires rest < 86400
    ensures rest / 3600 < 24
    ensures rest == rest / 3600 * 3600 + rest / 60 % 60 * 60 + rest % 60
  {
    var m := rest / 60;
    QuotientUnique(rest, 3600, m / 60, m % 60 * 60 + rest % 60);
  }

  function Printed(utc: Utc): string
    requires utc.nanosecond < NANOSECONDS && InRange(utc.seconds)
  {
    StampNamesInstant(utc);
    Text(StampAt(utc))
  }

  lemma TextLength(t: Stamp)
    requires IsStamp(t)
    ensures |Text(t)| == if t.fraction == [] then 20 else 21 + |t.fraction|
  {
    hide Head, IsDate, AllDigits;
    HeadParts(t);
  }

  // ----- Round trips -----

  /** Parsing what was printed returns the instant, for every instant in range. */
  lemma ParseOfFormat(utc: Utc)
    requires utc.nanosecond < NANOSECONDS && InRange(utc.seconds)
    ensures |Printed(utc)| == 30 && Parsed(Printed(utc)) == Some((utc.seconds, utc.nanosecond))
  {
    hide Text, IsStamp, SecondsOf, Nanoseconds, StampAt, Parsed;
    StampNamesInstant(utc);
    TextIsParsed(StampAt(utc));
    TextLength(StampAt(utc));
  }

  lemma ClockUnique(a: Stamp, b: Stamp)
    requires IsStamp(a) && IsStamp(b) && SecondsOf(a) == SecondsOf(b)
    ensures a.date == b.date && a.hour == b.hour && a.minute == b.minute && a.second == b.second
  {
    hide DayNumber, IsDate, AllDigits;
    var x, y := a.hour * 3600 + a.minute * 60 + a.second, b.hour * 3600 + b.minute * 60 + b.second;
    assert DayNumber(a.date) == DayNumber(b.date);
    DayNumberIncreases(a.date, b.date);
    assert x == y;
  }

  /** Printing what a 30-character timestamp names returns that timestamp. */
  lemma FormatOfParse(text: string, utc: Utc)
    requires |text| == 30 && Parsed(text) == Some((utc.seconds, utc.nanosecond))
    ensures utc.nanosecond < NANOSECONDS && InRange(utc.seconds) && Printed(utc) == text
  {
    hide Text, SecondsOf, Nanoseconds, StampAt, Parsed, DigitsValue, IsDate, Digits, AllDigits;
    var t := ParsedIsText(text);
    TextLength(t);
    NamedInstant(t);
    StampNamesInstant(utc);
    ClockUnique(t, StampAt(utc));
    ZeroPadded(t.fraction);
    ZeroPadded(StampAt(utc).fraction);
    DigitsOfNumber(t.fraction);
    DigitsOfNumber(StampAt(utc).fraction);
  }

  /** What a timestamp names is an instant in range. */
  lemma NamedInstant(t: Stamp)
    requires IsStamp(t)
    ensures MIN_SECONDS <= SecondsOf(t) <= MAX_SECONDS && Nanoseconds(t.fraction) < NANOSECONDS
  {
    hide DayNumber, IsDate, Digits, DigitsValue, Power, AllDigits;
    RangeIsYears(t.date, t.hour * 3600 + t.minute * 60 + t.second);
    DigitsOfNumber(t.fraction);
    PowerSplit(|t.fraction|);
    Scaled(DigitsValue(t.fraction), Power(|t.fraction|), Power(9 - |t.fraction|));
  }

  lemma PowerSplit(n: nat)
    requires n <= 9
    ensures Power(n) * Power(9 - n) == NANOSECONDS && Power(9 - n) > 0
    decreases n
  {
    Powers();
    if n == 0 {
      assert Power(0) == 1;
    } else {
      PowerSplit(n - 1);
      assert Power(n) * Power(9 - n) == Power(n - 1) * (10 * Power(9 - n)) == Power(n - 1) * Power(10 - n);
    }
  }

  lemma Scaled(a: nat, b: nat, c: nat)
    requires a < b && c > 0
    ensures a * c < b * c
  {
  }
}

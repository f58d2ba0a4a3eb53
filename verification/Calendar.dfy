/**
 The proleptic Gregorian calendar: plain day counting, and the closed forms of
 `utility_time_rfc3339.c` that convert between dates and day numbers.
 */
module Calendar {
  import opened TimeTypes

  datatype Date = Date(year: int, month: int, day: int)

  // ----- The calendar rules -----

  predicate IsLeapYear(year: int) {
    year % 4 == 0 && (year % 100 != 0 || year % 400 == 0)
  }

  const MONTH_DAYS: seq<nat> := [31, 28, 31, 30, 31, 30, 31, 31, 30, 31, 30, 31]

  function MonthLength(year: int, month: int): nat
    requires 1 <= month <= 12
  {
    MONTH_DAYS[month - 1] + if month == 2 && IsLeapYear(year) then 1 else 0
  }

  predicate IsDate(d: Date) {
    1 <= d.month <= 12 && 1 <= d.day <= MonthLength(d.year, d.month)
  }

  function NextDay(d: Date): Date
    requires IsDate(d)
  {
    if d.day < MonthLength(d.year, d.month) then d.(day := d.day + 1)
    else if d.month < 12 then Date(d.year, d.month + 1, 1)
    else Date(d.year + 1, 1, 1)
  }

  function PreviousDay(d: Date): Date
    requires IsDate(d)
  {
    if d.day > 1 then d.(day := d.day - 1)
    else if d.month > 1 then Date(d.year, d.month - 1, MonthLength(d.year, d.month - 1))
    else Date(d.year - 1, 12, 31)
  }

  // ----- Counting days -----

  function YearLength(year: int): nat {
    if IsLeapYear(year) then 366 else 365
  }

  /** The day number of January 1, counting whole years from 1970. */
  function YearStart(year: int): int
    decreases if year >= 1970 then year - 1970 else 1970 - year
  {
    if year == 1970 then 0
    else if year > 1970 then YearStart(year - 1) + YearLength(year - 1)
    else YearStart(year + 1) - YearLength(year)
  }

  /** The days of the year before the month. */
  function MonthStart(year: int, month: int): nat
    requires 1 <= month <= 12
    decreases month
  {
    if month == 1 then 0 else MonthStart(year, month - 1) + MonthLength(year, month - 1)
  }

  /** Days since 1970-01-01. */
  function DayNumber(d: Date): int
    requires IsDate(d)
  {
    YearStart(d.year) + MonthStart(d.year, d.month) + d.day - 1
  }

  lemma YearStartNext(year: int)
    ensures YearStart(year + 1) == YearStart(year) + YearLength(year)
  {
  }

  lemma MonthStarts(year: int)
    ensures MonthStart(year, 1) == 0 && MonthStart(year, 2) == 31
    ensures var l := if IsLeapYear(year) then 1 else 0;
            && MonthStart(year, 3) == 59 + l && MonthStart(year, 4) == 90 + l && MonthStart(year, 5) == 120 + l
            && MonthStart(year, 6) == 151 + l && MonthStart(year, 7) == 181 + l && MonthStart(year, 8) == 212 + l
            && MonthStart(year, 9) == 243 + l && MonthStart(year, 10) == 273 + l && MonthStart(year, 11) == 304 + l
            && MonthStart(year, 12) == 334 + l
  {
    assert MonthStart(year, 2) == 31;
    assert MonthStart(year, 4) == MonthStart(year, 3) + 31;
    assert MonthStart(year, 6) == MonthStart(year, 5) + 31;
    assert MonthStart(year, 8) == MonthStart(year, 7) + 31;
    assert MonthStart(year, 10) == MonthStart(year, 9) + 30;
    assert MonthStart(year, 12) == MonthStart(year, 11) + 30;
  }

  lemma NextDayNumber(d: Date)
    requires IsDate(d)
    ensures IsDate(NextDay(d)) && DayNumber(NextDay(d)) == DayNumber(d) + 1
  {
    hide IsLeapYear;
    YearStartNext(d.year);
    MonthStarts(d.year);
  }

  lemma NextOfPrevious(d: Date)
    requires IsDate(d)
    ensures IsDate(PreviousDay(d)) && NextDay(PreviousDay(d)) == d
  {
    hide IsLeapYear;
  }

  /** The count starts at the epoch and grows by one each day: it is day-by-day counting. */
  lemma CountsDayByDay(d: Date)
    requires IsDate(d)
    ensures DayNumber(Date(1970, 1, 1)) == 0
    ensures IsDate(NextDay(d)) && DayNumber(NextDay(d)) == DayNumber(d) + 1
    ensures IsDate(PreviousDay(d)) && NextDay(PreviousDay(d)) == d
  {
    NextDayNumber(d);
    NextOfPrevious(d);
  }

  /** Every day number is that of some date. */
  lemma {:induction false} DateOf(n: int) returns (d: Date)
    ensures IsDate(d) && DayNumber(d) == n
    decreases if n >= 0 then n else -n
  {
    if n == 0 {
      d := Date(1970, 1, 1);
      CountsDayByDay(d);
    } else if n > 0 {
      var before := DateOf(n - 1);
      CountsDayByDay(before);
      d := NextDay(before);
    } else {
      var after := DateOf(n + 1);
      CountsDayByDay(after);
      d := PreviousDay(after);
      CountsDayByDay(d);
    }
  }

  // ----- Order -----

  predicate Before(a: Date, b: Date) {
    a.year < b.year || (a.year == b.year && (a.month < b.month || (a.month == b.month && a.day < b.day)))
  }

  lemma {:induction false} YearsGrow(a: int, b: int)
    requires a <= b
    ensures YearStart(a) + 365 * (b - a) <= YearStart(b)
    decreases b - a
  {
    if a < b {
      YearsGrow(a, b - 1);
      YearStartNext(b - 1);
    }
  }

  lemma WithinYear(d: Date)
    requires IsDate(d)
    ensures YearStart(d.year) <= DayNumber(d) < YearStart(d.year + 1)
  {
    YearStartNext(d.year);
    MonthStarts(d.year);
  }

  lemma {:induction false} MonthsGrow(year: int, a: int, b: int)
    requires 1 <= a < b <= 12
    ensures MonthStart(year, a) + MonthLength(year, a) <= MonthStart(year, b)
    decreases b
  {
    hide IsLeapYear;
    if a < b - 1 {
      MonthsGrow(year, a, b - 1);
    }
  }

  /** Later dates have larger day numbers. */
  lemma DayNumberIncreases(a: Date, b: Date)
    requires IsDate(a) && IsDate(b)
    ensures Before(a, b) <==> DayNumber(a) < DayNumber(b)
    ensures a == b <==> DayNumber(a) == DayNumber(b)
  {
    hide MonthLength, MonthStart, YearStart;
    WithinYear(a);
    WithinYear(b);
    if a.year < b.year {
      YearsGrow(a.year + 1, b.year);
    } else if b.year < a.year {
      YearsGrow(b.year + 1, a.year);
    } else if a.month < b.month {
      MonthsGrow(a.year, a.month, b.month);
    } else if b.month < a.month {
      MonthsGrow(a.year, b.month, a.month);
    }
  }

  // ----- days_from_civil -----

  lemma FloorOf400(year: int)
    ensures Quotient(if year >= 0 then year else year - 399, 400) == year / 400
  {
  }

  function DaysFromCivil(year: int, month: int, day: int): int
    requires 1 <= month <= 12 && 1 <= day <= 31
  {
    var y := year - if month <= 2 then 1 else 0;
    var era := Quotient(if y >= 0 then y else y - 399, 400);
    FloorOf400(y);
    var yearOfEra: Unsigned := y - era * 400;
    var dayOfYear: Unsigned := (153 * (if month > 2 then month - 3 else month + 9) + 2) / 5 + day - 1;
    var dayOfEra: Unsigned := yearOfEra * 365 + yearOfEra / 4 - yearOfEra / 100 + dayOfYear;
    era * 146097 + dayOfEra - 719468
  }

  /** The days of all years, begun in March, before year `y`. */
  function MarchYears(y: int): int {
    365 * y + y / 4 - y / 100 + y / 400
  }

  lemma EraSplit(y: int)
    ensures var era := y / 400; var yoe := y - 400 * era;
            0 <= yoe < 400 && era * 146097 + yoe * 365 + yoe / 4 - yoe / 100 == MarchYears(y)
  {
    var era := y / 400;
    var yoe := y - 400 * era;
    assert y / 4 == 100 * era + yoe / 4;
    assert y / 100 == 4 * era + yoe / 100;
  }

  lemma QuotientSteps(y: int, n: int)
    requires n > 0
    ensures (y + 1) / n == y / n + Multiple(y + 1, n)
  {
    var q, r := y / n, y % n;
    assert y + 1 == n * q + (r + 1);
    if r + 1 == n {
      assert y + 1 == n * (q + 1);
      QuotientUnique(y + 1, n, q + 1, 0);
    } else {
      QuotientUnique(y + 1, n, q, r + 1);
    }
  }

  function Multiple(y: int, n: int): int
    requires n > 0
  {
    if y % n == 0 then 1 else 0
  }

  lemma LeapByMultiples(y: int)
    ensures YearLength(y) == 365 + Multiple(y, 4) - Multiple(y, 100) + Multiple(y, 400)
  {
    if y % 400 == 0 {
      QuotientUnique(y, 100, 4 * (y / 400), 0);
    }
    if y % 100 == 0 {
      QuotientUnique(y, 4, 25 * (y / 100), 0);
    }
  }

  lemma MarchYearsNext(y: int)
    ensures MarchYears(y + 1) == MarchYears(y) + YearLength(y + 1)
  {
    hide YearLength, Multiple;
    QuotientSteps(y, 4);
    QuotientSteps(y, 100);
    QuotientSteps(y, 400);
    LeapByMultiples(y + 1);
  }

  lemma {:induction false} YearStartClosed(year: int)
    ensures YearStart(year) == MarchYears(year - 1) + 306 - 719468
    decreases if year >= 1970 then year - 1970 else 1970 - year
  {
    if year > 1970 {
      YearStartClosed(year - 1);
      MarchYearsNext(year - 2);
    } else if year < 1970 {
      YearStartClosed(year + 1);
      MarchYearsNext(year - 1);
    }
  }

  /** The year begun in March that holds the date. */
  function MarchYear(d: Date): int {
    d.year - if d.month <= 2 then 1 else 0
  }

  /** The day within the year begun in March. */
  function DayOfMarchYear(d: Date): int {
    (153 * (if d.month > 2 then d.month - 3 else d.month + 9) + 2) / 5 + d.day - 1
  }

  lemma MarchOffset(d: Date)
    requires IsDate(d)
    ensures MonthStart(d.year, d.month) + d.day - 1 ==
            DayOfMarchYear(d) + if d.month > 2 then YearLength(d.year) - 306 else -306
  {
    MonthStarts(d.year);
  }

  lemma DayNumberByMarch(d: Date)
    requires IsDate(d)
    ensures DayNumber(d) == MarchYears(MarchYear(d)) + DayOfMarchYear(d) - 719468
  {
    hide YearStart, MonthStart, IsLeapYear, MarchYears, DayOfMarchYear;
    YearStartClosed(d.year);
    MarchYearsNext(d.year - 1);
    MarchOffset(d);
  }

  /** The closed form counts days, for every date. */
  lemma DaysFromCivilCounts(d: Date)
    requires IsDate(d)
    ensures DaysFromCivil(d.year, d.month, d.day) == DayNumber(d)
  {
    hide DayNumber, MarchYears, Quotient;
    DayNumberByMarch(d);
    FloorOf400(MarchYear(d));
    EraSplit(MarchYear(d));
  }

  // ----- civil_from_days -----

  function ToUnsigned(x: int): Unsigned {
    x % 0x1_0000_0000
  }

  /** The cast of an unsigned value to `int`. */
  function ToInt(x: Unsigned): int {
    if x < 0x8000_0000 then x else x - 0x1_0000_0000
  }

  lemma FloorOfEra(n: int)
    ensures Quotient(if n >= 0 then n else n - 146096, 146097) == n / 146097
  {
  }

  function YearOfEra(dayOfEra: Unsigned): Unsigned
    requires dayOfEra < 146097
  {
    (dayOfEra - dayOfEra / 1460 + dayOfEra / 36524 - dayOfEra / 146096) / 365
  }

  function CivilFromDays(days: int): Date {
    var n := days + 719468;
    var era := Quotient(if n >= 0 then n else n - 146096, 146097);
    FloorOfEra(n);
    CivilInEra(era, n - era * 146097)
  }

  /**
   The rest of `civil_from_days`, from the era and the day in it. The last addition is exact
   here; in C it overflows when the resulting year does not fit `int`.
   */
  function CivilInEra(era: int, dayOfEra: Unsigned): Date
    requires dayOfEra < 146097
  {
    var yearOfEra := YearOfEra(dayOfEra);
    var yearValue := ToInt(ToUnsigned(yearOfEra + ToUnsigned(era * 400)));
    var dayOfYear := ToUnsigned(dayOfEra - (365 * yearOfEra + yearOfEra / 4 - yearOfEra / 100));
    var (month, day) := MonthAndDay(dayOfYear);
    Date(yearValue + if month <= 2 then 1 else 0, month, day)
  }

  function MonthAndDay(dayOfYear: Unsigned): (Unsigned, Unsigned) {
    var monthPrime: Unsigned := ToUnsigned(5 * dayOfYear + 2) / 153;
    (if monthPrime < 10 then monthPrime + 3 else monthPrime - 9,
     ToUnsigned(dayOfYear - (153 * monthPrime + 2) / 5 + 1))
  }

  lemma Unwrapped(x: int)
    requires 0 <= x < 0x1_0000_0000
    ensures ToUnsigned(x) == x
  {
  }

  lemma MonthAndDayOf(d: Date)
    requires IsDate(d)
    ensures 0 <= DayOfMarchYear(d) <= 365 && MonthAndDay(DayOfMarchYear(d)) == (d.month, d.day)
  {
    hide ToUnsigned, IsLeapYear, DayOfMarchYear;
    MarchLayout(d);
    var doy := DayOfMarchYear(d);
    Unwrapped(5 * doy + 2);
    Unwrapped(doy - (153 * ((5 * doy + 2) / 153) + 2) / 5 + 1);
  }

  predicate FitsInt(x: int) {
    -0x8000_0000 <= x < 0x8000_0000
  }

  lemma MarchLayout(d: Date)
    requires IsDate(d)
    ensures 0 <= DayOfMarchYear(d) <= 365
    ensures DayOfMarchYear(d) == 365 ==> IsLeapYear(MarchYear(d) + 1)
    ensures var month := (5 * DayOfMarchYear(d) + 2) / 153;
            && month == (if d.month > 2 then d.month - 3 else d.month + 9)
            && DayOfMarchYear(d) - (153 * month + 2) / 5 + 1 == d.day
  {
  }

  lemma CenturyOf(c: int, rest: int)
    requires 0 <= c < 4 && 0 <= rest < 36524 + if c == 3 then 1 else 0
    ensures (36524 * c + rest) / 36524 - (36524 * c + rest) / 146096 == c
  {
    if rest == 36524 {
      QuotientUnique(36524 * c + rest, 36524, 4, 0);
    } else {
      QuotientUnique(36524 * c + rest, 36524, c, rest);
    }
  }

  /** The year within the era is recovered from the day within the era. */
  lemma YearOfEraInverts(c: int, q: int, r: int, dayOfYear: int)
    requires 0 <= c < 4 && 0 <= q < 25 && 0 <= r < 4 && 0 <= dayOfYear <= 365
    requires dayOfYear == 365 ==> r == 3 && (q < 24 || c == 3)
    ensures var doe := 36524 * c + 1461 * q + 365 * r + dayOfYear;
            0 <= doe < 146097 && YearOfEra(doe) == 100 * c + 4 * q + r
  {
    var doe := 36524 * c + 1461 * q + 365 * r + dayOfYear;
    var t := 24 * c + q + 365 * r + dayOfYear;
    var carry := if t >= 1460 then 1 else 0;
    QuotientUnique(doe, 1460, 25 * c + q + carry, t - 1460 * carry);
    CenturyOf(c, 1461 * q + 365 * r + dayOfYear);
    QuotientUnique(doe - doe / 1460 + doe / 36524 - doe / 146096, 365, 100 * c + 4 * q + r,
                   dayOfYear - carry);
  }

  lemma SplitYear(y: int)
    ensures var yoe := y % 400; var c, q, r := yoe / 100, yoe % 100 / 4, yoe % 4;
            && 0 <= c < 4 && 0 <= q < 25 && 0 <= r < 4 && yoe == 100 * c + 4 * q + r
            && yoe * 365 + yoe / 4 - yoe / 100 == 36524 * c + 1461 * q + 365 * r
            && (IsLeapYear(y + 1) <==> r == 3 && (q < 24 || c == 3))
  {
    var yoe := y % 400;
    LeapInEra(y);
    QuotientUnique(yoe, 4, 25 * (yoe / 100) + yoe % 100 / 4, yoe % 100 % 4);
    LeapAfter(yoe / 100, yoe % 100 / 4, yoe % 4);
  }

  lemma LeapInEra(y: int)
    ensures IsLeapYear(y + 1) <==> IsLeapYear(y % 400 + 1)
  {
    var e, x := y / 400, y % 400 + 1;
    assert y + 1 == 400 * e + x;
    AddMultiple(x, 4, 100 * e);
    AddMultiple(x, 100, 4 * e);
    AddMultiple(x, 400, e);
  }

  lemma AddMultiple(x: int, n: int, k: int)
    requires n > 0
    ensures (n * k + x) % n == x % n
  {
    Distributes(n, k + x / n, k);
    QuotientUnique(n * k + x, n, k + x / n, x % n);
  }

  lemma LeapAfter(c: int, q: int, r: int)
    requires 0 <= c < 4 && 0 <= q < 25 && 0 <= r < 4
    ensures IsLeapYear(100 * c + 4 * q + r + 1) <==> r == 3 && (q < 24 || c == 3)
  {
    var y := 100 * c + 4 * q + r + 1;
    if r == 3 {
      QuotientUnique(y, 4, 25 * c + q + 1, 0);
      if q < 24 {
        QuotientUnique(y, 100, c, 4 * q + 4);
      } else {
        QuotientUnique(y, 100, c + 1, 0);
        assert y == 100 * (c + 1);
      }
    } else {
      QuotientUnique(y, 4, 25 * c + q, r + 1);
    }
  }

  lemma YearWraps(yoe: int, era: int)
    requires 0 <= yoe < 400
    ensures ToInt(ToUnsigned(yoe + ToUnsigned(era * 400))) == ToInt(ToUnsigned(era * 400 + yoe))
    ensures ToInt(ToUnsigned(era * 400 + yoe)) == era * 400 + yoe <==> FitsInt(era * 400 + yoe)
  {
  }

  /**
   `CivilFromDays` undoes the day count: month and day always, and the date, without an
   overflow of the last addition to the year, exactly when both the year and the year begun
   in March fit `int`.
   */
  lemma CivilInvertsDays(d: Date)
    requires IsDate(d)
    ensures var c := CivilFromDays(DayNumber(d));
            && c.month == d.month && c.day == d.day
            && (c == d && FitsInt(c.year) <==> FitsInt(MarchYear(d)) && FitsInt(d.year))
            && (c.year == d.year <==> FitsInt(MarchYear(d)))
  {
    hide DayNumber, DayOfEra, CivilInEra, Quotient;
    DayInEra(d);
    FloorOfEra(DayNumber(d) + 719468);
    CivilInEraInverts(d);
  }

  /** The day of the date within its era. */
  function DayOfEra(d: Date): int {
    var yoe := MarchYear(d) % 400;
    yoe * 365 + yoe / 4 - yoe / 100 + DayOfMarchYear(d)
  }

  lemma DayOfEraFits(d: Date)
    requires IsDate(d)
    ensures 0 <= DayOfEra(d) < 146097 && YearOfEra(DayOfEra(d)) == MarchYear(d) % 400
  {
    hide YearOfEra, DayOfMarchYear, IsLeapYear;
    SplitYear(MarchYear(d));
    MarchLayout(d);
    var yoe := MarchYear(d) % 400;
    YearOfEraInverts(yoe / 100, yoe % 100 / 4, yoe % 4, DayOfMarchYear(d));
  }

  lemma DayInEra(d: Date)
    requires IsDate(d)
    ensures var n := DayNumber(d) + 719468; var era := MarchYear(d) / 400;
            n / 146097 == era && n - era * 146097 == DayOfEra(d)
  {
    hide DayNumber, MarchYears, DayOfMarchYear;
    var n, era := DayNumber(d) + 719468, MarchYear(d) / 400;
    DayNumberByMarch(d);
    EraSplit(MarchYear(d));
    DayOfEraFits(d);
    QuotientUnique(n, 146097, era, DayOfEra(d));
  }

  lemma CivilInEraInverts(d: Date)
    requires IsDate(d)
    ensures 0 <= DayOfEra(d) < 146097
    ensures var c := CivilInEra(MarchYear(d) / 400, DayOfEra(d));
            && c.month == d.month && c.day == d.day
            && (c == d <==> FitsInt(MarchYear(d)))
  {
    hide YearOfEra, DayOfMarchYear, ToInt, FitsInt, ToUnsigned, MonthAndDay, IsLeapYear;
    DayOfEraFits(d);
    MonthAndDayOf(d);
    Unwrapped(DayOfMarchYear(d));
    YearWraps(MarchYear(d) % 400, MarchYear(d) / 400);
  }

  /** The first day of March 2147483648 is not recovered. */
  lemma YearBeyondInt()
    ensures var d := Date(0x8000_0000, 3, 1);
            IsDate(d) && CivilFromDays(DayNumber(d)).year != d.year
  {
    hide DayNumber, CivilFromDays;
    CivilInvertsDays(Date(0x8000_0000, 3, 1));
  }

  /**
   `CivilFromDays` finds the date of a day number, without that overflow, exactly when both
   years fit `int`: the other inverse.
   */
  lemma DaysInvertCivil(n: int) returns (d: Date)
    ensures IsDate(d) && DayNumber(d) == n && DaysFromCivil(d.year, d.month, d.day) == n
    ensures CivilFromDays(n) == d && FitsInt(CivilFromDays(n).year) <==> FitsInt(MarchYear(d)) && FitsInt(d.year)
  {
    d := DateOf(n);
    CivilInvertsDays(d);
    DaysFromCivilCounts(d);
  }
}

/**
 The RFC 3339 (section 5.6) printer and parser of `utility_time_rfc3339.c`: upper-case T and
 Z, no offset, no leap second, no fraction or one of 1 to 9 digits.
 */
module Rfc3339 {
  import opened Wrappers
  import opened Decimals
  import opened TimeTypes
  import opened Calendar

  const MIN_SECONDS: Int64 := -62135596800
  const MAX_SECONDS: Int64 := 253402300799
  const BUFFER_SIZE := 31

  // ----- Decimal numbers -----

  /** The last `width` decimal digits of `n`. */
  function Digits(n: nat, width: nat): string {
    if width == 0 then [] else Digits(n / 10, width - 1) + [Digit(n % 10)]
  }

  lemma {:induction false} DigitsShape(n: nat, width: nat)
    ensures |Digits(n, width)| == width && AllDigits(Digits(n, width))
  {
    if width > 0 {
      DigitsShape(n / 10, width - 1);
    }
  }

  lemma {:induction false} NumberOfDigits(n: nat, width: nat)
    requires n < Power(width)
    ensures AllDigits(Digits(n, width)) && DigitsValue(Digits(n, width)) == n
  {
    DigitsShape(n, width);
    if width > 0 {
      DigitsShape(n / 10, width - 1);
      NumberOfDigits(n / 10, width - 1);
      assert Digits(n, width)[..width - 1] == Digits(n / 10, width - 1);
    }
  }

  lemma {:induction false} DigitsOfNumber(s: string)
    requires AllDigits(s)
    ensures Digits(DigitsValue(s), |s|) == s && DigitsValue(s) < Power(|s|)
  {
    if s != [] {
      DigitsOfNumber(s[..|s| - 1]);
      assert s[..|s| - 1] + [s[|s| - 1]] == s;
    }
  }

  // ----- What a timestamp says -----

  datatype Stamp = Stamp(date: Date, hour: nat, minute: nat, second: nat, fraction: string)

  predicate IsStamp(t: Stamp) {
    && IsDate(t.date) && 1 <= t.date.year <= 9999
    && t.hour < 24 && t.minute < 60 && t.second < 60
    && AllDigits(t.fraction) && |t.fraction| <= 9
  }

  function Head(t: Stamp): string
    requires IsStamp(t)
  {
    Digits(t.date.year, 4) + "-" + Digits(t.date.month, 2) + "-" + Digits(t.date.day, 2) + "T"
    + Digits(t.hour, 2) + ":" + Digits(t.minute, 2) + ":" + Digits(t.second, 2)
  }

  function Tail(fraction: string): string {
    (if fraction == [] then [] else "." + fraction) + "Z"
  }

  function Text(t: Stamp): string
    requires IsStamp(t)
  {
    Head(t) + Tail(t.fraction)
  }

  function Nanoseconds(fraction: string): nat
    requires AllDigits(fraction) && |fraction| <= 9
  {
    DigitsValue(fraction) * Power(9 - |fraction|)
  }

  function SecondsOf(t: Stamp): int
    requires IsStamp(t)
  {
    DayNumber(t.date) * 86400 + t.hour * 3600 + t.minute * 60 + t.second
  }

  // ----- The parser -----

  function ValidDate(year: nat, month: nat, day: nat): (valid: bool)
    ensures valid <==> 1 <= year <= 9999 && IsDate(Date(year, month, day))
  {
    if year < 1 || year > 9999 || month < 1 || month > 12 then false
    else
      var maximum := MONTH_DAYS[month - 1] + if month == 2 && IsLeapYear(year) then 1 else 0;
      day >= 1 && day <= maximum
  }

  function ParsedDigits(text: string, at: nat, count: nat): Option<nat>
    requires at + count <= |text|
  {
    if AllDigits(text[at..at + count]) then Some(DigitsValue(text[at..at + count])) else None
  }

  datatype Fields = Fields(year: nat, month: nat, day: nat, hour: nat, minute: nat, second: nat)

  function ParsedDateTime(text: string): Option<Fields>
    requires |text| >= 20
  {
    if !(text[4] == '-' && text[7] == '-' && text[10] == 'T' && text[13] == ':' && text[16] == ':') then None
    else
      var year, month, day := ParsedDigits(text, 0, 4), ParsedDigits(text, 5, 2), ParsedDigits(text, 8, 2);
      var hour, minute, second := ParsedDigits(text, 11, 2), ParsedDigits(text, 14, 2), ParsedDigits(text, 17, 2);
      if year == None || month == None || day == None || hour == None || minute == None || second == None then None
      else Some(Fields(year.value, month.value, day.value, hour.value, minute.value, second.value))
  }

  /** How many digits there are from `i` on. */
  function DigitRun(text: string, i: nat): (n: nat)
    requires i <= |text|
    ensures i + n <= |text|
    ensures AllDigits(text[i..i + n])
    ensures i + n < |text| ==> !IsDigit(text[i + n])
    decreases |text| - i
  {
    if i < |text| && IsDigit(text[i]) then
      var n := 1 + DigitRun(text, i + 1);
      assert text[i..i + n] == [text[i]] + text[i + 1..i + n];
      n
    else 0
  }

  function ParsedFraction(text: string): Option<nat>
    requires |text| >= 20
  {
    if text[19] == '.' then
      var n := DigitRun(text, 20);
      if n == 0 || n > 9 || 21 + n != |text| || text[20 + n] != 'Z' then None
      else Some(Nanoseconds(text[20..20 + n]))
    else if |text| == 20 && text[19] == 'Z' then Some(0)
    else None
  }

  function Parsed(text: string): Option<(int, nat)> {
    if |text| < 20 || |text| > 30 then None
    else
      var fields, fraction := ParsedDateTime(text), ParsedFraction(text);
      if fields == None || fraction == None then None
      else
        var f := fields.value;
        if !ValidDate(f.year, f.month, f.day) || f.hour > 23 || f.minute > 59 || f.second > 59 then None
        else Some((DaysFromCivil(f.year, f.month, f.day) * 86400 + f.hour * 3600 + f.minute * 60 + f.second, fraction.value))
  }

  // ----- Printed text is parsed back -----

  lemma Layout(y: string, mo: string, d: string, h: string, mi: string, s: string)
    requires |y| == 4 && |mo| == |d| == |h| == |mi| == |s| == 2
    ensures var x := y + "-" + mo + "-" + d + "T" + h + ":" + mi + ":" + s;
            && |x| == 19 && x[4] == '-' && x[7] == '-' && x[10] == 'T' && x[13] == ':' && x[16] == ':'
            && x[0..4] == y && x[5..7] == mo && x[8..10] == d && x[11..13] == h && x[14..16] == mi && x[17..19] == s
  {
    var date := y + "-" + mo + "-" + d;
    assert |date| == 10 && date[0..4] == y && date[5..7] == mo && date[8..10] == d && date[4] == '-' && date[7] == '-';
    var time := h + ":" + mi + ":" + s;
    assert |time| == 8 && time[0..2] == h && time[3..5] == mi && time[6..8] == s && time[2] == ':' && time[5] == ':';
    var x := date + "T" + time;
    assert x == y + "-" + mo + "-" + d + "T" + h + ":" + mi + ":" + s;
    assert x[..10] == date && x[11..] == time;
    assert x[0..4] == date[0..4] && x[5..7] == date[5..7] && x[8..10] == date[8..10];
    assert x[11..13] == time[0..2] && x[14..16] == time[3..5] && x[17..19] == time[6..8];
    assert x[4] == date[4] && x[7] == date[7] && x[13] == time[2] && x[16] == time[5];
  }

  lemma HeadParts(t: Stamp)
    requires IsStamp(t)
    ensures var h := Head(t);
            && |h| == 19 && h[4] == '-' && h[7] == '-' && h[10] == 'T' && h[13] == ':' && h[16] == ':'
            && h[0..4] == Digits(t.date.year, 4) && h[5..7] == Digits(t.date.month, 2) && h[8..10] == Digits(t.date.day, 2)
            && h[11..13] == Digits(t.hour, 2) && h[14..16] == Digits(t.minute, 2) && h[17..19] == Digits(t.second, 2)
  {
    hide Digits, AllDigits, IsLeapYear;
    DigitsShape(t.date.year, 4);
    DigitsShape(t.date.month, 2);
    DigitsShape(t.date.day, 2);
    DigitsShape(t.hour, 2);
    DigitsShape(t.minute, 2);
    DigitsShape(t.second, 2);
    Layout(Digits(t.date.year, 4), Digits(t.date.month, 2), Digits(t.date.day, 2),
           Digits(t.hour, 2), Digits(t.minute, 2), Digits(t.second, 2));
  }

  lemma Powers()
    ensures Power(2) == 100 && Power(4) == 10_000 && Power(9) == NANOSECONDS
  {
    assert Power(4) == 10 * Power(3) == 100 * Power(2);
    assert Power(9) == 10 * Power(8) == 100 * Power(7) == 1000 * Power(6) == 10_000 * Power(5) == 100_000 * Power(4);
  }

  lemma FieldsRead(t: Stamp, text: string)
    requires IsStamp(t) && |text| >= 20 && text[..19] == Head(t)
    ensures ParsedDateTime(text) == Some(Fields(t.date.year, t.date.month, t.date.day, t.hour, t.minute, t.second))
  {
    hide Digits, DigitsValue, AllDigits, Head, IsLeapYear;
    Powers();
    HeadParts(t);
    var h := Head(t);
    assert text[0..4] == h[0..4] && text[5..7] == h[5..7] && text[8..10] == h[8..10];
    assert text[11..13] == h[11..13] && text[14..16] == h[14..16] && text[17..19] == h[17..19];
    assert text[4] == h[4] && text[7] == h[7] && text[10] == h[10] && text[13] == h[13] && text[16] == h[16];
    NumberOfDigits(t.date.year, 4);
    NumberOfDigits(t.date.month, 2);
    NumberOfDigits(t.date.day, 2);
    NumberOfDigits(t.hour, 2);
    NumberOfDigits(t.minute, 2);
    NumberOfDigits(t.second, 2);
  }

  lemma {:induction false} RunOfFraction(text: string, i: nat, n: nat)
    requires i + n < |text| && AllDigits(text[i..i + n]) && !IsDigit(text[i + n])
    ensures DigitRun(text, i) == n
    decreases n
  {
    if n > 0 {
      assert text[i] == text[i..i + n][0];
      assert text[i + 1..i + n] == text[i..i + n][1..];
      RunOfFraction(text, i + 1, n - 1);
    }
  }

  lemma FractionRead(text: string, fraction: string)
    requires |text| >= 20 && text[19..] == Tail(fraction) && AllDigits(fraction) && |fraction| <= 9
    ensures ParsedFraction(text) == Some(Nanoseconds(fraction))
  {
    hide Power;
    var tail := text[19..];
    assert text[19] == tail[0];
    if fraction != [] {
      var n := |fraction|;
      assert tail[1..1 + n] == fraction && text[20..20 + n] == tail[1..1 + n];
      assert text[20 + n] == tail[1 + n] == 'Z';
      RunOfFraction(text, 20, n);
    }
  }

  lemma {:induction false} TextIsParsed(t: Stamp)
    requires IsStamp(t)
    ensures Parsed(Text(t)) == Some((SecondsOf(t), Nanoseconds(t.fraction)))
  {
    hide Head, Digits, DigitsValue, Power, AllDigits, DayNumber, DaysFromCivil, ParsedDateTime, ParsedFraction, IsDate, Nanoseconds;
    HeadParts(t);
    var text := Text(t);
    assert text[..19] == Head(t) && text[19..] == Tail(t.fraction);
    FieldsRead(t, text);
    FractionRead(text, t.fraction);
    DaysFromCivilCounts(t.date);
  }

  // ----- Accepted text is printed text -----

  lemma Cut(h: string)
    requires |h| == 19 && h[4] == '-' && h[7] == '-' && h[10] == 'T' && h[13] == ':' && h[16] == ':'
    ensures h == h[0..4] + "-" + h[5..7] + "-" + h[8..10] + "T" + h[11..13] + ":" + h[14..16] + ":" + h[17..19]
  {
  }

  lemma FieldsPrinted(text: string, fraction: string)
    requires |text| >= 20 && ParsedDateTime(text).Some?
    requires var f := ParsedDateTime(text).value; IsStamp(Stamp(Date(f.year, f.month, f.day), f.hour, f.minute, f.second, fraction))
    ensures var f := ParsedDateTime(text).value;
            Head(Stamp(Date(f.year, f.month, f.day), f.hour, f.minute, f.second, fraction)) == text[..19]
  {
    hide Digits, DigitsValue, AllDigits, IsDate;
    var h := text[..19];
    assert text[0..4] == h[0..4] && text[5..7] == h[5..7] && text[8..10] == h[8..10];
    assert text[11..13] == h[11..13] && text[14..16] == h[14..16] && text[17..19] == h[17..19];
    Cut(h);
    DigitsOfNumber(text[0..4]);
    DigitsOfNumber(text[5..7]);
    DigitsOfNumber(text[8..10]);
    DigitsOfNumber(text[11..13]);
    DigitsOfNumber(text[14..16]);
    DigitsOfNumber(text[17..19]);
  }

  lemma FractionPrinted(text: string) returns (fraction: string)
    requires |text| >= 20 && ParsedFraction(text).Some?
    ensures AllDigits(fraction) && |fraction| <= 9 && text[19..] == Tail(fraction)
    ensures ParsedFraction(text).value == Nanoseconds(fraction)
  {
    hide Power;
    if text[19] == '.' {
      var n := DigitRun(text, 20);
      fraction := text[20..20 + n];
      assert text[19..] == "." + fraction + "Z";
    } else {
      fraction := [];
      assert text[19..] == "Z";
    }
  }

  lemma {:induction false} ParsedIsText(text: string) returns (t: Stamp)
    requires Parsed(text).Some?
    ensures IsStamp(t) && Text(t) == text && Parsed(text).value == (SecondsOf(t), Nanoseconds(t.fraction))
  {
    hide Head, Digits, DigitsValue, Power, AllDigits, DayNumber, DaysFromCivil, ParsedDateTime, ParsedFraction, IsDate, Nanoseconds, Tail;
    var fraction := FractionPrinted(text);
    var f := ParsedDateTime(text).value;
    t := Stamp(Date(f.year, f.month, f.day), f.hour, f.minute, f.second, fraction);
    FieldsPrinted(text, fraction);
    assert text == text[..19] + text[19..];
    DaysFromCivilCounts(t.date);
  }

  /** The parser accepts exactly the timestamps of the profile, and returns the instant they name. */
  lemma {:induction false} AcceptsExactlyTheProfile(text: string, seconds: int, nanosecond: nat)
    ensures Parsed(text) == Some((seconds, nanosecond)) <==>
            exists t :: IsStamp(t) && text == Text(t) && seconds == SecondsOf(t) && nanosecond == Nanoseconds(t.fraction)
  {
    hide Text, SecondsOf, Nanoseconds, Parsed;
    if Parsed(text) == Some((seconds, nanosecond)) {
      var t := ParsedIsText(text);
    }
    forall t | IsStamp(t) && text == Text(t) && seconds == SecondsOf(t) && nanosecond == Nanoseconds(t.fraction)
      ensures Parsed(text) == Some((seconds, nanosecond))
    {
      TextIsParsed(t);
    }
  }
}

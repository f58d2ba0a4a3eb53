/**
 The loops of the RFC 3339 parser and printer, in 32-bit arithmetic.
 */
module Rfc3339Service {
  import opened Wrappers
  import opened Decimals
  import opened TimeTypes
  import opened Calendar
  import opened Rfc3339
  import opened Rfc3339RoundTrip

  lemma {:induction false} PowersGrow(a: nat, b: nat)
    requires a <= b
    ensures Power(a) <= Power(b)
    decreases b
  {
    if a < b {
      PowersGrow(a, b - 1);
    }
  }

  lemma NumberNext(text: string, at: nat, i: nat)
    requires at + i < |text| && AllDigits(text[at..at + i]) && IsDigit(text[at + i])
    ensures AllDigits(text[at..at + i + 1])
    ensures DigitsValue(text[at..at + i + 1]) == DigitsValue(text[at..at + i]) * 10 + DigitValue(text[at + i])
  {
    assert text[at..at + i + 1][..i] == text[at..at + i];
  }

  lemma NumberFits(s: string)
    requires AllDigits(s) && |s| <= 9
    ensures DigitsValue(s) < NANOSECONDS
  {
    DigitsOfNumber(s);
    PowersGrow(|s|, 9);
    Powers();
  }

  method ParseDigits(text: string, at: nat, count: nat) returns (value: Option<nat>)
    requires at + count <= |text| && count <= 9
    ensures value == ParsedDigits(text, at, count)
  {
    hide DigitsValue, Power;
    var result: Unsigned := 0;
    var index := 0;
    assert DigitsValue(text[at..at]) == 0 by {
      NumberEmpty();
    }
    while index < count
      invariant index <= count
      invariant AllDigits(text[at..at + index]) && result == DigitsValue(text[at..at + index])
    {
      if text[at + index] < '0' || text[at + index] > '9' {
        assert !IsDigit(text[at..at + count][index]);
        return None;
      }
      NumberNext(text, at, index);
      NumberFits(text[at..at + index + 1]);
      result := result * 10 + DigitValue(text[at + index]);
      index := index + 1;
    }
    return Some(result);
  }

  lemma NumberEmpty()
    ensures DigitsValue([]) == 0
  {
  }

  lemma PowerNext(n: nat)
    ensures Power(n + 1) == 10 * Power(n) && Power(0) == 1
  {
  }

  lemma PadDone()
    ensures Power(9 - 9) == 1
  {
  }

  lemma PadStep(padded: nat, filled: nat)
    requires filled < 9 && padded < Power(filled)
    ensures padded * 10 < Power(filled + 1) && padded * 10 < NANOSECONDS
    ensures padded * 10 * Power(9 - (filled + 1)) == padded * Power(9 - filled)
  {
    hide Power;
    PowerNext(filled);
    PowerNext(8 - filled);
    PowersGrow(filled + 1, 9);
    Powers();
  }

  /** `value` after the missing digits of a fraction are filled with zeros. */
  method PadFraction(value: Unsigned, digits: nat) returns (padded: Unsigned)
    requires digits <= 9 && value < Power(digits)
    ensures padded == value * Power(9 - digits)
  {
    hide Power;
    padded := value;
    var filled := digits;
    PadDone();
    while filled < 9
      invariant digits <= filled <= 9
      invariant padded < Power(filled) && padded * Power(9 - filled) == value * Power(9 - digits)
    {
      PadStep(padded, filled);
      padded := padded * 10;
      filled := filled + 1;
    }
  }

  lemma {:induction false} RunAtLeast(text: string, i: nat, n: nat)
    requires i + n <= |text| && AllDigits(text[i..i + n])
    ensures DigitRun(text, i) == n + DigitRun(text, i + n)
    decreases n
  {
    if n > 0 {
      assert text[i] == text[i..i + n][0];
      assert text[i + 1..i + n] == text[i..i + n][1..];
      RunAtLeast(text, i + 1, n - 1);
    }
  }

  method ParseFractionAndZone(text: string) returns (nanosecond: Option<nat>)
    requires |text| >= 20
    ensures nanosecond == ParsedFraction(text)
  {
    hide DigitsValue, Power, AllDigits;
    var index, digits := 19, 0;
    var value: Unsigned := 0;
    if text[19] == '.' {
      index := 20;
      NumberNone(text);
      while index < |text| && '0' <= text[index] <= '9'
        invariant digits <= 9 && index == 20 + digits <= |text|
        invariant AllDigits(text[20..index]) && value == DigitsValue(text[20..index])
        decreases |text| - index
      {
        NumberNext(text, 20, digits);
        if digits == 9 {
          RunAtLeast(text, 20, 10);
          return None;
        }
        NumberFits(text[20..index + 1]);
        value := value * 10 + DigitValue(text[index]);
        digits := digits + 1;
        index := index + 1;
      }
      RunAtLeast(text, 20, digits);
      if digits == 0 {
        return None;
      }
      DigitsOfNumber(text[20..index]);
      value := PadFraction(value, digits);
    }
    if index + 1 != |text| || text[index] != 'Z' {
      return None;
    }
    return Some(value);
  }

  lemma NumberNone(text: string)
    requires |text| >= 20
    ensures AllDigits(text[20..20]) && DigitsValue(text[20..20]) == 0
  {
  }

  method ParseDateTime(text: string) returns (fields: Option<Fields>)
    requires |text| >= 20
    ensures fields == ParsedDateTime(text)
  {
    hide ParsedDigits;
    if !(text[4] == '-' && text[7] == '-' && text[10] == 'T' && text[13] == ':' && text[16] == ':') {
      return None;
    }
    var year := ParseDigits(text, 0, 4);
    var month := ParseDigits(text, 5, 2);
    var day := ParseDigits(text, 8, 2);
    var hour := ParseDigits(text, 11, 2);
    var minute := ParseDigits(text, 14, 2);
    var second := ParseDigits(text, 17, 2);
    if year == None || month == None || day == None || hour == None || minute == None || second == None {
      return None;
    }
    return Some(Fields(year.value, month.value, day.value, hour.value, minute.value, second.value));
  }

  lemma ParsedInRange(text: string)
    requires Parsed(text).Some?
    ensures MIN_SECONDS <= Parsed(text).value.0 <= MAX_SECONDS && Parsed(text).value.1 < NANOSECONDS
  {
    hide Parsed, Text, SecondsOf, IsDate, Nanoseconds;
    var t := ParsedIsText(text);
    NamedInstant(t);
  }

  /** The instant a timestamp names; `utc` is left alone when the text is refused. */
  method Parse(text: string, utc: Utc) returns (result: Result, parsed: Utc)
    ensures result == if Parsed(text) == None then InvalidArgument else Ok
    ensures result == Ok ==> Parsed(text) == Some((parsed.seconds, parsed.nanosecond))
    ensures result != Ok ==> parsed == utc
  {
    hide ParsedDateTime, ParsedFraction, DaysFromCivil, IsDate;
    if |text| < 20 || |text| > 30 {
      return InvalidArgument, utc;
    }
    var fields := ParseDateTime(text);
    if fields == None {
      return InvalidArgument, utc;
    }
    var fraction := ParseFractionAndZone(text);
    var f := fields.value;
    if fraction == None || !ValidDate(f.year, f.month, f.day) || f.hour > 23 || f.minute > 59 || f.second > 59 {
      return InvalidArgument, utc;
    }
    ParsedInRange(text);
    var days := DaysFromCivil(f.year, f.month, f.day);
    return Ok, Utc(days * 86400 + f.hour * 3600 + f.minute * 60 + f.second, fraction.value);
  }

  method CopyText(text: string, buffer: array<char>)
    requires |text| < buffer.Length
    modifies buffer
    ensures buffer[..] == text + ['\0'] + old(buffer[|text| + 1..])
  {
    var written := 0;
    while written < |text|
      invariant written <= |text|
      invariant forall i :: 0 <= i < written ==> buffer[i] == text[i]
      invariant forall i :: written <= i < buffer.Length ==> buffer[i] == old(buffer[i])
    {
      buffer[written] := text[written];
      written := written + 1;
    }
    buffer[written] := '\0';
  }

  /** The text with its terminating NUL at the start of the buffer. */
  method Format(utc: Utc, buffer: array<char>) returns (result: Result)
    modifies buffer
    ensures result == if utc.nanosecond >= NANOSECONDS then InvalidArgument
                      else if buffer.Length < BUFFER_SIZE then BufferTooSmall
                      else if !InRange(utc.seconds) then OutOfRange
                      else Ok
    ensures result == Ok ==> buffer[..] == Printed(utc) + ['\0'] + old(buffer[31..])
    ensures result != Ok ==> buffer[..] == old(buffer[..])
  {
    hide Printed, Parsed, ParsedDateTime, ParsedFraction;
    if utc.nanosecond >= NANOSECONDS {
      return InvalidArgument;
    }
    if buffer.Length < BUFFER_SIZE {
      return BufferTooSmall;
    }
    if utc.seconds < MIN_SECONDS || utc.seconds > MAX_SECONDS {
      return OutOfRange;
    }
    var text := Printed(utc);
    ParseOfFormat(utc);
    CopyText(text, buffer);
    return if |text| == 30 then Ok else OutOfRange;
  }
}

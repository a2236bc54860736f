/**
 * The temporal normaliser of utils.py: `convert_date` and `convert_time` turn an
 * optional string into an optional calendar date or time of day. A string that
 * does not parse yields no value and a logged diagnostic; nothing is raised.
 *
 * Only the canonical ISO 8601 extended forms are modelled: `YYYY-MM-DD` for dates
 * and `HH:MM` or `HH:MM:SS` for times, with ASCII digits.
 */
module Temporal {
  import opened Wrappers

  /** A `datetime.date`: meaningful only when `ValidDate` holds. */
  datatype Date = Date(year: nat, month: nat, day: nat)

  /** A naive `datetime.time` with no fractional seconds. */
  datatype Time = Time(hour: nat, minute: nat, second: nat)

  /** The Gregorian leap-year rule. */
  predicate IsLeapYear(y: nat)
  {
    (y % 4 == 0 && y % 100 != 0) || y % 400 == 0
  }

  function DaysInMonth(y: nat, m: nat): (n: nat)
    requires 1 <= m <= 12
    ensures 28 <= n <= 31
  {
    if m == 2 then (if IsLeapYear(y) then 29 else 28)
    else if m == 4 || m == 6 || m == 9 || m == 11 then 30
    else 31
  }

  /** The dates `datetime.date` can represent: years 1 to 9999, real months and days. */
  predicate ValidDate(d: Date)
  {
    1 <= d.year <= 9999 && 1 <= d.month <= 12 && 1 <= d.day <= DaysInMonth(d.year, d.month)
  }

  predicate ValidTime(t: Time)
  {
    t.hour < 24 && t.minute < 60 && t.second < 60
  }

  // ---------------------------------------------------------------------------
  // Ordering, as Python compares `date` and `time` objects

  /** Chronological order on dates: year, then month, then day. */
  predicate DateLe(a: Date, b: Date)
  {
    a.year < b.year || (a.year == b.year && (a.month < b.month || (a.month == b.month && a.day <= b.day)))
  }

  /** Chronological order on times of day: hour, then minute, then second. */
  predicate TimeLe(a: Time, b: Time)
  {
    a.hour < b.hour || (a.hour == b.hour && (a.minute < b.minute || (a.minute == b.minute && a.second <= b.second)))
  }

  lemma DateLeIsTotalOrder(a: Date, b: Date, c: Date)
    ensures DateLe(a, a)
    ensures DateLe(a, b) && DateLe(b, a) ==> a == b
    ensures DateLe(a, b) && DateLe(b, c) ==> DateLe(a, c)
    ensures DateLe(a, b) || DateLe(b, a)
  {
  }

  lemma TimeLeIsTotalOrder(a: Time, b: Time, c: Time)
    ensures TimeLe(a, a)
    ensures TimeLe(a, b) && TimeLe(b, a) ==> a == b
    ensures TimeLe(a, b) && TimeLe(b, c) ==> TimeLe(a, c)
    ensures TimeLe(a, b) || TimeLe(b, a)
  {
  }

  // ---------------------------------------------------------------------------
  // Decimal digits

  predicate IsDigit(c: char)
  {
    '0' <= c <= '9'
  }

  predicate AllDigits(s: string)
  {
    forall i | 0 <= i < |s| :: IsDigit(s[i])
  }

  function Pow10(n: nat): (p: nat)
    ensures p >= 1
  {
    if n == 0 then 1 else 10 * Pow10(n - 1)
  }

  /** The number a string of decimal digits denotes, leading zeros allowed. */
  function DigitsValue(s: string): (v: nat)
    requires AllDigits(s)
    ensures v < Pow10(|s|)
  {
    if s == [] then 0 else DigitsValue(s[..|s| - 1]) * 10 + Digit(s[|s| - 1])
  }

  /** The value of a decimal digit character. */
  function Digit(c: char): int
  {
    c as int - '0' as int
  }

  function DigitChar(d: nat): (c: char)
    requires d < 10
    ensures IsDigit(c)
  {
    ('0' as int + d) as char
  }

  /** The last `width` decimal digits of `n`, zero-padded on the left; higher digits are dropped. */
  function Pad(n: nat, width: nat): (s: string)
    ensures |s| == width && AllDigits(s)
  {
    if width == 0 then "" else Pad(n / 10, width - 1) + [DigitChar(n % 10)]
  }

  /** Reading back a padded number that fits its width gives the number. */
  lemma {:induction false} DigitsOfPad(n: nat, width: nat)
    requires n < Pow10(width)
    ensures DigitsValue(Pad(n, width)) == n
  {
    if width > 0 {
      var s := Pad(n, width);
      assert s[..|s| - 1] == Pad(n / 10, width - 1);
      DigitsOfPad(n / 10, width - 1);
    }
  }

  lemma DivModTen(a: nat, d: nat)
    requires d < 10
    ensures (a * 10 + d) / 10 == a && (a * 10 + d) % 10 == d
  {
  }

  /** Padding the value of a digit string to its own length gives the string back. */
  lemma {:induction false} PadOfDigits(s: string)
    requires AllDigits(s)
    ensures Pad(DigitsValue(s), |s|) == s
  {
    if s != [] {
      var init, last := s[..|s| - 1], s[|s| - 1];
      assert AllDigits(init);
      var x, d := DigitsValue(init), Digit(last);
      assert DigitsValue(s) == x * 10 + d;
      PadOfDigits(init);
      DivModTen(x, d);
      assert Pad(x * 10 + d, |s|) == Pad(x, |init|) + [DigitChar(d)];
      assert DigitChar(d) == last;
      assert s == init + [last];
    }
  }

  // ---------------------------------------------------------------------------
  // Canonical text forms, as `date.isoformat()` and `time.isoformat()` print them

  function FormatDate(d: Date): (s: string)
  {
    Pad(d.year, 4) + "-" + Pad(d.month, 2) + "-" + Pad(d.day, 2)
  }

  function FormatTime(t: Time): (s: string)
  {
    Pad(t.hour, 2) + ":" + Pad(t.minute, 2) + ":" + Pad(t.second, 2)
  }

  /** The `HH:MM` form, which leaves the seconds out. */
  function FormatShortTime(t: Time): (s: string)
  {
    Pad(t.hour, 2) + ":" + Pad(t.minute, 2)
  }

  // ---------------------------------------------------------------------------
  // Parsing (`date.fromisoformat`, `time.fromisoformat` on the canonical forms)

  function CheckedDate(d: Date): (r: Option<Date>)
  {
    if ValidDate(d) then Some(d) else None
  }

  function CheckedTime(t: Time): (r: Option<Time>)
  {
    if ValidTime(t) then Some(t) else None
  }

  /** `YYYY-MM-DD`: four, two and two digits separated by hyphens, denoting a real date. */
  function ParseDate(s: string): (r: Option<Date>)
    ensures r.Some? ==> ValidDate(r.value)
  {
    if |s| == 10 && s[4] == '-' && s[7] == '-'
       && AllDigits(s[..4]) && AllDigits(s[5..7]) && AllDigits(s[8..])
    then CheckedDate(Date(DigitsValue(s[..4]), DigitsValue(s[5..7]), DigitsValue(s[8..])))
    else None
  }

  /** `HH:MM` (seconds zero) or `HH:MM:SS`, two digits each, colon separated, in range. */
  function ParseTime(s: string): (r: Option<Time>)
    ensures r.Some? ==> ValidTime(r.value)
  {
    if |s| == 5 && s[2] == ':' && AllDigits(s[..2]) && AllDigits(s[3..])
    then CheckedTime(Time(DigitsValue(s[..2]), DigitsValue(s[3..]), 0))
    else if |s| == 8 && s[2] == ':' && s[5] == ':'
       && AllDigits(s[..2]) && AllDigits(s[3..5]) && AllDigits(s[6..])
    then CheckedTime(Time(DigitsValue(s[..2]), DigitsValue(s[3..5]), DigitsValue(s[6..])))
    else None
  }

  lemma {:induction false} FormatDateParts(d: Date)
    ensures var s := FormatDate(d);
      |s| == 10 && s[4] == '-' && s[7] == '-'
      && s[..4] == Pad(d.year, 4) && s[5..7] == Pad(d.month, 2) && s[8..] == Pad(d.day, 2)
  {
    var s := FormatDate(d);
    assert s[..4] == Pad(d.year, 4);
    assert s[5..7] == Pad(d.month, 2);
    assert s[8..] == Pad(d.day, 2);
  }

  /** Formatting a valid date and parsing it back gives the same date. */
  lemma {:induction false} DateRoundTrip(d: Date)
    requires ValidDate(d)
    ensures ParseDate(FormatDate(d)) == Some(d)
  {
    FormatDateParts(d);
    DigitsOfPad(d.year, 4);
    DigitsOfPad(d.month, 2);
    DigitsOfPad(d.day, 2);
  }

  /** A string that parses is the canonical text of the date it denotes. */
  lemma {:induction false} ParsedDateIsCanonical(s: string)
    requires ParseDate(s).Some?
    ensures FormatDate(ParseDate(s).value) == s
  {
    var d := ParseDate(s).value;
    PadOfDigits(s[..4]);
    PadOfDigits(s[5..7]);
    PadOfDigits(s[8..]);
    assert s == s[..4] + "-" + s[5..7] + "-" + s[8..];
  }

  /** `ParseDate` accepts exactly the canonical texts of valid dates. */
  lemma ParseDateExactly(s: string, d: Date)
    ensures ParseDate(s) == Some(d) <==> ValidDate(d) && s == FormatDate(d)
  {
    if ParseDate(s) == Some(d) {
      ParsedDateIsCanonical(s);
    }
    if ValidDate(d) && s == FormatDate(d) {
      DateRoundTrip(d);
    }
  }

  lemma {:induction false} FormatTimeParts(t: Time)
    ensures var s := FormatTime(t);
      |s| == 8 && s[2] == ':' && s[5] == ':'
      && s[..2] == Pad(t.hour, 2) && s[3..5] == Pad(t.minute, 2) && s[6..] == Pad(t.second, 2)
  {
    var s := FormatTime(t);
    assert s[..2] == Pad(t.hour, 2);
    assert s[3..5] == Pad(t.minute, 2);
    assert s[6..] == Pad(t.second, 2);
  }

  lemma {:induction false} FormatShortTimeParts(t: Time)
    ensures var s := FormatShortTime(t);
      |s| == 5 && s[2] == ':' && s[..2] == Pad(t.hour, 2) && s[3..] == Pad(t.minute, 2)
  {
    var s := FormatShortTime(t);
    assert s[..2] == Pad(t.hour, 2);
    assert s[3..] == Pad(t.minute, 2);
  }

  /** Formatting a valid time as `HH:MM:SS` and parsing it back gives the same time. */
  lemma {:induction false} TimeRoundTrip(t: Time)
    requires ValidTime(t)
    ensures ParseTime(FormatTime(t)) == Some(t)
  {
    FormatTimeParts(t);
    DigitsOfPad(t.hour, 2);
    DigitsOfPad(t.minute, 2);
    DigitsOfPad(t.second, 2);
  }

  /** `HH:MM` parses to that hour and minute with the seconds zero. */
  lemma {:induction false} ShortTimeRoundTrip(t: Time)
    requires ValidTime(t)
    ensures ParseTime(FormatShortTime(t)) == Some(Time(t.hour, t.minute, 0))
  {
    FormatShortTimeParts(t);
    DigitsOfPad(t.hour, 2);
    DigitsOfPad(t.minute, 2);
  }

  /** A string that parses is the `HH:MM:SS` text of its time, or its `HH:MM` text when the seconds are zero. */
  lemma {:induction false} ParsedTimeIsCanonical(s: string)
    requires ParseTime(s).Some?
    ensures var t := ParseTime(s).value;
      s == FormatTime(t) || (t.second == 0 && s == FormatShortTime(t))
  {
    if |s| == 5 {
      PadOfDigits(s[..2]);
      PadOfDigits(s[3..]);
      assert s == s[..2] + ":" + s[3..];
    } else {
      PadOfDigits(s[..2]);
      PadOfDigits(s[3..5]);
      PadOfDigits(s[6..]);
      assert s == s[..2] + ":" + s[3..5] + ":" + s[6..];
    }
  }

  /** `ParseTime` accepts exactly the `HH:MM:SS` texts of valid times and the `HH:MM` texts of valid whole minutes. */
  lemma ParseTimeExactly(s: string, t: Time)
    ensures ParseTime(s) == Some(t)
        <==> ValidTime(t) && (s == FormatTime(t) || (t.second == 0 && s == FormatShortTime(t)))
  {
    if ParseTime(s) == Some(t) {
      ParsedTimeIsCanonical(s);
    }
    if ValidTime(t) && s == FormatTime(t) {
      TimeRoundTrip(t);
    }
    if ValidTime(t) && t.second == 0 && s == FormatShortTime(t) {
      ShortTimeRoundTrip(t);
    }
  }

  // ---------------------------------------------------------------------------
  // The converters (utils.py)

  /** The value a conversion yields, and the diagnostic it logs, if any. */
  datatype Conversion<T> = Conversion(value: Option<T>, log: Option<string>)

  const DateFailure: string := "Date conversion failed for input "
  const TimeFailure: string := "Time conversion failed for input "

  /** `convert_date`: no input gives no value; a failed parse gives no value and logs. */
  function ConvertDate(input: Option<string>): (c: Conversion<Date>)
    ensures input.None? ==> c == Conversion(None, None)
    ensures c.value.Some? ==> ValidDate(c.value.value)
    ensures c.log.Some? <==> input.Some? && c.value.None?
    ensures c.log.Some? ==> DateFailure + input.value <= c.log.value
  {
    match input
    case None => Conversion(None, None)
    case Some(s) =>
      var r := ParseDate(s);
      if r.Some? then Conversion(r, None) else Conversion(None, Some(DateFailure + s))
  }

  /** `convert_time`: no input gives no value; a failed parse gives no value and logs. */
  function ConvertTime(input: Option<string>): (c: Conversion<Time>)
    ensures input.None? ==> c == Conversion(None, None)
    ensures c.value.Some? ==> ValidTime(c.value.value)
    ensures c.log.Some? <==> input.Some? && c.value.None?
    ensures c.log.Some? ==> TimeFailure + input.value <= c.log.value
  {
    match input
    case None => Conversion(None, None)
    case Some(s) =>
      var r := ParseTime(s);
      if r.Some? then Conversion(r, None) else Conversion(None, Some(TimeFailure + s))
  }

  /** A supplied date string converts exactly as it parses. */
  lemma ConvertDateIsParse(s: string, d: Date)
    ensures ConvertDate(Some(s)).value == Some(d) <==> ValidDate(d) && s == FormatDate(d)
  {
    ParseDateExactly(s, d);
  }

  /** A supplied time string converts exactly as it parses. */
  lemma ConvertTimeIsParse(s: string, t: Time)
    ensures ConvertTime(Some(s)).value == Some(t)
        <==> ValidTime(t) && (s == FormatTime(t) || (t.second == 0 && s == FormatShortTime(t)))
  {
    ParseTimeExactly(s, t);
  }

  // ---------------------------------------------------------------------------
  // The cases tests/test_utils.py checks

  lemma DigitsValueOfTwo(s: string)
    requires |s| == 2 && AllDigits(s)
    ensures DigitsValue(s) == 10 * Digit(s[0]) + Digit(s[1])
  {
    assert s[..1][..0] == [];
  }

  lemma DigitsValueOfFour(s: string)
    requires |s| == 4 && AllDigits(s)
    ensures DigitsValue(s) == 1000 * Digit(s[0]) + 100 * Digit(s[1]) + 10 * Digit(s[2]) + Digit(s[3])
  {
    DigitsValueOfTwo(s[..2]);
    assert s[..3][..2] == s[..2];
  }

  /** Reads the three fields of a string shaped like `YYYY-MM-DD`, given its characters. */
  lemma DateFields(y0: char, y1: char, y2: char, y3: char, m0: char, m1: char, d0: char, d1: char, d: Date)
    requires IsDigit(y0) && IsDigit(y1) && IsDigit(y2) && IsDigit(y3)
    requires IsDigit(m0) && IsDigit(m1) && IsDigit(d0) && IsDigit(d1)
    requires d.year == 1000 * Digit(y0) + 100 * Digit(y1) + 10 * Digit(y2) + Digit(y3)
    requires d.month == 10 * Digit(m0) + Digit(m1) && d.day == 10 * Digit(d0) + Digit(d1)
    ensures ParseDate([y0, y1, y2, y3, '-', m0, m1, '-', d0, d1]) == CheckedDate(d)
  {
    var s := [y0, y1, y2, y3, '-', m0, m1, '-', d0, d1];
    assert s[..4] == [y0, y1, y2, y3] && s[5..7] == [m0, m1] && s[8..] == [d0, d1];
    DigitsValueOfFour(s[..4]);
    DigitsValueOfTwo(s[5..7]);
    DigitsValueOfTwo(s[8..]);
  }

  lemma ValidDateExamples()
    ensures ConvertDate(Some("2020-01-01")).value == Some(Date(2020, 1, 1))
    ensures ConvertDate(Some("1999-12-31")).value == Some(Date(1999, 12, 31))
    ensures ConvertDate(Some("2000-02-29")).value == Some(Date(2000, 2, 29))
  {
    assert ParseDate("2020-01-01") == Some(Date(2020, 1, 1)) by {
      DateFields('2', '0', '2', '0', '0', '1', '0', '1', Date(2020, 1, 1));
    }
    assert ParseDate("1999-12-31") == Some(Date(1999, 12, 31)) by {
      DateFields('1', '9', '9', '9', '1', '2', '3', '1', Date(1999, 12, 31));
    }
    assert ParseDate("2000-02-29") == Some(Date(2000, 2, 29)) by {
      DateFields('2', '0', '0', '0', '0', '2', '2', '9', Date(2000, 2, 29));
    }
  }

  lemma InvalidDateExamples()
    ensures ConvertDate(Some("")).value == None
    ensures ConvertDate(Some("not a date")).value == None
    ensures ConvertDate(Some("2020-13-01")).value == None
    ensures ConvertDate(Some("2020-00-10")).value == None
    ensures ConvertDate(Some("2020-02-30")).value == None
    ensures ConvertDate(Some("01-01-2020")).value == None
    ensures ConvertDate(Some("2020/01/01")).value == None
  {
    assert ParseDate("2020-13-01") == None by {
      DateFields('2', '0', '2', '0', '1', '3', '0', '1', Date(2020, 13, 1));
    }
    assert ParseDate("2020-00-10") == None by {
      DateFields('2', '0', '2', '0', '0', '0', '1', '0', Date(2020, 0, 10));
    }
    assert ParseDate("2020-02-30") == None by {
      DateFields('2', '0', '2', '0', '0', '2', '3', '0', Date(2020, 2, 30));
    }
  }

  /** Reads the fields of a string shaped like `HH:MM`, given its characters. */
  lemma ShortTimeFields(h0: char, h1: char, m0: char, m1: char, t: Time)
    requires IsDigit(h0) && IsDigit(h1) && IsDigit(m0) && IsDigit(m1)
    requires t == Time(10 * Digit(h0) + Digit(h1), 10 * Digit(m0) + Digit(m1), 0)
    ensures ParseTime([h0, h1, ':', m0, m1]) == CheckedTime(t)
  {
    var s := [h0, h1, ':', m0, m1];
    assert s[..2] == [h0, h1] && s[3..] == [m0, m1];
    DigitsValueOfTwo(s[..2]);
    DigitsValueOfTwo(s[3..]);
  }

  /** Reads the fields of a string shaped like `HH:MM:SS`, given its characters. */
  lemma LongTimeFields(h0: char, h1: char, m0: char, m1: char, s0: char, s1: char, t: Time)
    requires IsDigit(h0) && IsDigit(h1) && IsDigit(m0) && IsDigit(m1) && IsDigit(s0) && IsDigit(s1)
    requires t == Time(10 * Digit(h0) + Digit(h1), 10 * Digit(m0) + Digit(m1), 10 * Digit(s0) + Digit(s1))
    ensures ParseTime([h0, h1, ':', m0, m1, ':', s0, s1]) == CheckedTime(t)
  {
    var s := [h0, h1, ':', m0, m1, ':', s0, s1];
    assert s[..2] == [h0, h1] && s[3..5] == [m0, m1] && s[6..] == [s0, s1];
    DigitsValueOfTwo(s[..2]);
    DigitsValueOfTwo(s[3..5]);
    DigitsValueOfTwo(s[6..]);
  }

  lemma ValidShortTimeExamples()
    ensures ConvertTime(Some("00:00")).value == Some(Time(0, 0, 0))
    ensures ConvertTime(Some("23:59")).value == Some(Time(23, 59, 0))
    ensures ConvertTime(Some("12:34")).value == Some(Time(12, 34, 0))
    ensures ConvertTime(Some("07:45")).value == Some(Time(7, 45, 0))
  {
    assert ParseTime("00:00") == Some(Time(0, 0, 0)) by {
      ShortTimeFields('0', '0', '0', '0', Time(0, 0, 0));
    }
    assert ParseTime("23:59") == Some(Time(23, 59, 0)) by {
      ShortTimeFields('2', '3', '5', '9', Time(23, 59, 0));
    }
    assert ParseTime("12:34") == Some(Time(12, 34, 0)) by {
      ShortTimeFields('1', '2', '3', '4', Time(12, 34, 0));
    }
    assert ParseTime("07:45") == Some(Time(7, 45, 0)) by {
      ShortTimeFields('0', '7', '4', '5', Time(7, 45, 0));
    }
  }

  lemma ValidLongTimeExample()
    ensures ConvertTime(Some("23:59:59")).value == Some(Time(23, 59, 59))
  {
    LongTimeFields('2', '3', '5', '9', '5', '9', Time(23, 59, 59));
  }

  lemma InvalidTimeExamples()
    ensures ConvertTime(Some("")).value == None
    ensures ConvertTime(Some("not a time")).value == None
    ensures ConvertTime(Some("24:00")).value == None
    ensures ConvertTime(Some("12:60")).value == None
    ensures ConvertTime(Some("12-34")).value == None
    ensures ConvertTime(Some("99:99")).value == None
  {
    assert ParseTime("24:00") == None by {
      ShortTimeFields('2', '4', '0', '0', Time(24, 0, 0));
    }
    assert ParseTime("12:60") == None by {
      ShortTimeFields('1', '2', '6', '0', Time(12, 60, 0));
    }
    assert ParseTime("99:99") == None by {
      ShortTimeFields('9', '9', '9', '9', Time(99, 99, 0));
    }
  }
}

/**
 * The retry-after instant a rate-limited call reports: text in the format
 * "yyyy-MM-ddTHH:mm:ss.fffZ", read field by field as `DateTime.ParseExact`
 * reads the digits and separators of that format, with the closing "Z" taken
 * as the one char 'Z'; and the instant as a count of milliseconds since
 * 0001-01-01T00:00:00.000.
 */
module Timestamps {
  import opened Wrappers

  /** The fields of one timestamp. */
  datatype Fields = Fields(year: int, month: int, day: int, hour: int, minute: int, second: int, milli: int)

  /** The Gregorian leap-year rule used by DateTime. */
  predicate IsLeapYear(y: int)
  {
    y % 4 == 0 && (y % 100 != 0 || y % 400 == 0)
  }

  function DaysInMonth(y: int, m: int): int
    requires 1 <= m <= 12
  {
    if m == 2 then (if IsLeapYear(y) then 29 else 28)
    else if m == 4 || m == 6 || m == 9 || m == 11 then 30
    else 31
  }

  /** The field ranges DateTime accepts: years 1 to 9999 and real calendar days. */
  predicate Valid(f: Fields)
  {
    && 1 <= f.year <= 9999
    && 1 <= f.month <= 12
    && 1 <= f.day <= DaysInMonth(f.year, f.month)
    && 0 <= f.hour < 24 && 0 <= f.minute < 60 && 0 <= f.second < 60
    && 0 <= f.milli < 1000
  }

  /** Days from 0001-01-01 to January 1st of year `y`. */
  function DaysBeforeYear(y: int): int
  {
    var p := y - 1;
    365 * p + p / 4 - p / 100 + p / 400
  }

  /** Days from January 1st of year `y` to the first day of month `m`. */
  function DaysBeforeMonth(y: int, m: int): int
    requires 1 <= m <= 12
  {
    [0, 31, 59, 90, 120, 151, 181, 212, 243, 273, 304, 334][m - 1]
    + (if m > 2 && IsLeapYear(y) then 1 else 0)
  }

  /** The instant, in milliseconds since 0001-01-01T00:00:00.000. */
  function ToMillis(f: Fields): int
    requires Valid(f)
  {
    var days := DaysBeforeYear(f.year) + DaysBeforeMonth(f.year, f.month) + f.day - 1;
    (((days * 24 + f.hour) * 60 + f.minute) * 60 + f.second) * 1000 + f.milli
  }

  /** The instant is never negative, and its remainders are the time-of-day fields. */
  lemma ToMillisTimeOfDay(f: Fields)
    requires Valid(f)
    ensures var r := ToMillis(f);
            && 0 <= r
            && r % 1000 == f.milli && r / 1000 % 60 == f.second
            && r / 1000 / 60 % 60 == f.minute && r / 1000 / 60 / 60 % 24 == f.hour
  {
    var days := DaysBeforeYear(f.year) + DaysBeforeMonth(f.year, f.month) + f.day - 1;
    var hours := days * 24 + f.hour;
    var minutes := hours * 60 + f.minute;
    var seconds := minutes * 60 + f.second;
    assert 0 <= days;
    assert ToMillis(f) == seconds * 1000 + f.milli;
    assert (seconds * 1000 + f.milli) / 1000 == seconds;
    assert seconds / 60 == minutes && minutes / 60 == hours && hours % 24 == f.hour;
  }

  predicate IsDigit(ch: char)
  {
    '0' <= ch <= '9'
  }

  predicate AllDigits(s: string)
  {
    forall i :: 0 <= i < |s| ==> IsDigit(s[i])
  }

  function Pow10(n: nat): (r: nat)
    ensures r >= 1
  {
    if n == 0 then 1 else 10 * Pow10(n - 1)
  }

  /** The value of a run of decimal digits. */
  function Number(s: string): (r: nat)
    requires AllDigits(s)
    ensures r < Pow10(|s|)
  {
    if s == [] then 0
    else Number(s[..|s| - 1]) * 10 + (s[|s| - 1] as int - '0' as int)
  }

  /** `n` written with exactly `width` decimal digits, zero-padded on the left. */
  function Digits(n: nat, width: nat): (r: string)
    ensures |r| == width && AllDigits(r)
  {
    if width == 0 then ""
    else Digits(n / 10, width - 1) + [('0' as int + n % 10) as char]
  }

  /** Writing a number that fits and reading it back gives the number. */
  lemma {:induction false} NumberOfDigits(n: nat, width: nat)
    requires n < Pow10(width)
    ensures Number(Digits(n, width)) == n
  {
    if width > 0 {
      var d := Digits(n, width);
      assert d[..width - 1] == Digits(n / 10, width - 1);
      NumberOfDigits(n / 10, width - 1);
    }
  }

  /** Reading digits and writing them back at the same width gives the digits. */
  lemma {:induction false} DigitsOfNumber(s: string)
    requires AllDigits(s)
    ensures Digits(Number(s), |s|) == s
  {
    if s != [] {
      var init := s[..|s| - 1];
      var n := Number(s);
      assert n / 10 == Number(init);
      DigitsOfNumber(init);
      assert s == init + [s[|s| - 1]];
    }
  }

  /** The text of a timestamp in the format "yyyy-MM-ddTHH:mm:ss.fffZ". */
  function Render(f: Fields): (r: string)
    requires Valid(f)
    ensures |r| == 24
  {
    Digits(f.year, 4) + "-" + Digits(f.month, 2) + "-" + Digits(f.day, 2)
    + "T" + Digits(f.hour, 2) + ":" + Digits(f.minute, 2) + ":" + Digits(f.second, 2)
    + "." + Digits(f.milli, 3) + "Z"
  }

  /** Every char of a rendered timestamp is a digit or one of "-T:.Z": never white space or '('. */
  lemma RenderChars(f: Fields)
    requires Valid(f)
    ensures forall i :: 0 <= i < |Render(f)| ==> '-' <= Render(f)[i] <= 'Z'
  {
    var s := Render(f);
    assert s[0..4] == Digits(f.year, 4);
    assert s[5..7] == Digits(f.month, 2);
    assert s[8..10] == Digits(f.day, 2);
    assert s[11..13] == Digits(f.hour, 2);
    assert s[14..16] == Digits(f.minute, 2);
    assert s[17..19] == Digits(f.second, 2);
    assert s[20..23] == Digits(f.milli, 3);
    forall i | 0 <= i < |s| ensures '-' <= s[i] <= 'Z' {
      if i < 4 { assert s[i] == s[0..4][i]; }
      else if 5 <= i < 7 { assert s[i] == s[5..7][i - 5]; }
      else if 8 <= i < 10 { assert s[i] == s[8..10][i - 8]; }
      else if 11 <= i < 13 { assert s[i] == s[11..13][i - 11]; }
      else if 14 <= i < 16 { assert s[i] == s[14..16][i - 14]; }
      else if 17 <= i < 19 { assert s[i] == s[17..19][i - 17]; }
      else if 20 <= i < 23 { assert s[i] == s[20..23][i - 20]; }
    }
  }

  /** The separators of the format and where they stand. */
  predicate HasLayout(s: string)
  {
    && |s| == 24
    && s[4] == '-' && s[7] == '-' && s[10] == 'T' && s[13] == ':' && s[16] == ':'
    && s[19] == '.' && s[23] == 'Z'
    && AllDigits(s[0..4]) && AllDigits(s[5..7]) && AllDigits(s[8..10]) && AllDigits(s[11..13])
    && AllDigits(s[14..16]) && AllDigits(s[17..19]) && AllDigits(s[20..23])
  }

  /**
   * DateTime.ParseExact(s, "yyyy-MM-ddTHH:mm:ss.fffZ", en-US) on text of
   * exactly 24 chars ending in 'Z': the fields of `s`, or None for a wrong
   * length, separator or digit, or a field out of range.
   */
  function ParseExact(s: string): (r: Option<Fields>)
    ensures r.Some? ==> Valid(r.value)
  {
    if !HasLayout(s) then None
    else
      var f := Fields(Number(s[0..4]), Number(s[5..7]), Number(s[8..10]), Number(s[11..13]),
                      Number(s[14..16]), Number(s[17..19]), Number(s[20..23]));
      if Valid(f) then Some(f) else None
  }

  /** What ParseExact accepts is exactly the text Render writes for valid fields. */
  lemma ParsedRenders(s: string)
    ensures ParseExact(s).Some? ==> Render(ParseExact(s).value) == s
  {
    if ParseExact(s).Some? {
      RenderParsed(s, ParseExact(s).value);
    }
  }

  /** Rendering the fields read from well-laid-out text gives the text back. */
  lemma RenderParsed(s: string, f: Fields)
    requires HasLayout(s) && Valid(f)
    requires f == Fields(Number(s[0..4]), Number(s[5..7]), Number(s[8..10]), Number(s[11..13]),
                         Number(s[14..16]), Number(s[17..19]), Number(s[20..23]))
    ensures Render(f) == s
  {
    DigitsOfNumber(s[0..4]);
    DigitsOfNumber(s[5..7]);
    DigitsOfNumber(s[8..10]);
    DigitsOfNumber(s[11..13]);
    DigitsOfNumber(s[14..16]);
    DigitsOfNumber(s[17..19]);
    DigitsOfNumber(s[20..23]);
    assert s == s[0..4] + [s[4]] + s[5..7] + [s[7]] + s[8..10] + [s[10]] + s[11..13] + [s[13]]
              + s[14..16] + [s[16]] + s[17..19] + [s[19]] + s[20..23] + [s[23]];
  }

  /** Every valid timestamp is read back from its own text. */
  lemma ParseRender(f: Fields)
    requires Valid(f)
    ensures ParseExact(Render(f)) == Some(f)
  {
    var s := Render(f);
    assert s[0..4] == Digits(f.year, 4);
    assert s[5..7] == Digits(f.month, 2);
    assert s[8..10] == Digits(f.day, 2);
    assert s[11..13] == Digits(f.hour, 2);
    assert s[14..16] == Digits(f.minute, 2);
    assert s[17..19] == Digits(f.second, 2);
    assert s[20..23] == Digits(f.milli, 3);
    NumberOfDigits(f.year, 4);
    NumberOfDigits(f.month, 2);
    NumberOfDigits(f.day, 2);
    NumberOfDigits(f.hour, 2);
    NumberOfDigits(f.minute, 2);
    NumberOfDigits(f.second, 2);
    NumberOfDigits(f.milli, 3);
  }
}

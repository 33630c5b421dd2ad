/** Calendar dates and times as Go's `time` package parses and formats them
    for the layouts the organizer uses: "20060102", "2006-01-02", "2006",
    "2006-01-02 15:04:05" and "2006:01:02 15:04:05". */
module Calendar {
  import opened Text
  import opened Options

  /** A wall-clock time in its own location, to the second. */
  datatype DateTime = DateTime(year: int, month: int, day: int, hour: int, minute: int, second: int)

  /** Gregorian leap years, as Go's `isLeap`. */
  predicate IsLeapYear(y: int) {
    y % 4 == 0 && (y % 100 != 0 || y % 400 == 0)
  }

  function DaysIn(month: int, year: int): (n: int)
    requires 1 <= month <= 12
    ensures 28 <= n <= 31
    ensures month == 2 ==> (n == 29 <==> IsLeapYear(year))
  {
    if month == 2 then (if IsLeapYear(year) then 29 else 28)
    else if month == 4 || month == 6 || month == 9 || month == 11 then 30
    else 31
  }

  predicate ValidDate(year: int, month: int, day: int) {
    1 <= month <= 12 && 1 <= day <= DaysIn(month, year)
  }

  predicate Valid(t: DateTime) {
    ValidDate(t.year, t.month, t.day)
    && 0 <= t.hour < 24 && 0 <= t.minute < 60 && 0 <= t.second < 60
  }

  /** Every `time.Time` the program handles is a real calendar instant. */
  type Instant = t: DateTime | Valid(t) witness DateTime(1970, 1, 1, 0, 0, 0)

  function Midnight(year: int, month: int, day: int): DateTime {
    DateTime(year, month, day, 0, 0, 0)
  }

  // ---------------------------------------------------------------------------
  // Parsing (time.Parse)
  // ---------------------------------------------------------------------------

  /** `time.Parse("20060102", s)`: exactly eight digits forming a valid date;
      the result is midnight UTC of that date. Go rejects a month outside
      1..12 while parsing and a day outside the month after parsing. */
  function ParseCompact(s: string): (r: Option<Instant>)
    ensures r.Some? ==> r.value.hour == 0 && r.value.minute == 0 && r.value.second == 0
    ensures r.Some? ==> 0 <= r.value.year < 10000
  {
    if |s| == 8 && AllDigits(s) then
      var y, m, d := DecimalValue(s[..4]), DecimalValue(s[4..6]), DecimalValue(s[6..]);
      assert DecimalValue(s[..4]) < 10000 by { DecimalBound(s[..4]); }
      if ValidDate(y, m, d) then Some(Midnight(y, m, d)) else None
    else None
  }

  /** `time.Parse("2006-01-02", s)`: four digits, '-', two digits, '-', two
      digits, forming a valid date. */
  function ParseIso(s: string): (r: Option<Instant>)
    ensures r.Some? ==> r.value.hour == 0 && r.value.minute == 0 && r.value.second == 0
    ensures r.Some? ==> 0 <= r.value.year < 10000
  {
    if |s| == 10 && AllDigits(s[..4]) && s[4] == '-' && AllDigits(s[5..7]) && s[7] == '-' && AllDigits(s[8..]) then
      var y, m, d := DecimalValue(s[..4]), DecimalValue(s[5..7]), DecimalValue(s[8..]);
      assert DecimalValue(s[..4]) < 10000 by { DecimalBound(s[..4]); }
      if ValidDate(y, m, d) then Some(Midnight(y, m, d)) else None
    else None
  }

  /** A string of n digits denotes a number below 10^n. */
  lemma {:induction false} DecimalBound(s: string)
    requires AllDigits(s)
    ensures DecimalValue(s) < Pow10(|s|)
  {
    if s != [] {
      DecimalBound(s[..|s| - 1]);
    }
  }

  /** The value of a two- and a four-digit string, digit by digit. */
  lemma DecimalValue2(s: string)
    requires |s| == 2 && AllDigits(s)
    ensures DecimalValue(s) == 10 * DigitValue(s[0]) + DigitValue(s[1])
  {
    assert s[..1][..0] == [] && s[..1][0] == s[0];
    assert DecimalValue(s[..1]) == DigitValue(s[0]);
  }

  lemma DecimalValue4(s: string)
    requires |s| == 4 && AllDigits(s)
    ensures DecimalValue(s) == 1000 * DigitValue(s[0]) + 100 * DigitValue(s[1]) + 10 * DigitValue(s[2]) + DigitValue(s[3])
  {
    assert s[..3][..2] == s[..2];
    DecimalValue2(s[..2]);
  }

  function Pow10(n: nat): (p: nat)
    ensures p >= 1
  {
    if n == 0 then 1 else 10 * Pow10(n - 1)
  }

  // ---------------------------------------------------------------------------
  // Formatting (Time.Format)
  // ---------------------------------------------------------------------------

  /** Layout "2006": at least four digits, zero-padded, with a leading '-'
      for years before year 0 (Go's `appendInt(b, year, 4)`). */
  function FormatYear(y: int): string {
    var digits := PadLeft(Itoa(if y < 0 then -y else y), 4);
    if y < 0 then "-" + digits else digits
  }

  /** A year is written as its decimal digits, at least four of them, after
      a '-' when it is negative. */
  lemma YearDigits(y: int)
    ensures var r := FormatYear(y);
      && (0 <= y ==> AllDigits(r) && DecimalValue(r) == y)
      && (0 <= y < 10000 ==> |r| == 4)
      && (y < 0 ==> |r| > 1 && r[0] == '-' && AllDigits(r[1..]) && DecimalValue(r[1..]) == -y)
  {
    var n := if y < 0 then -y else y;
    var digits := PadLeft(Itoa(n), 4);
    ZeroPadValue(Itoa(n), 4);
    ItoaLength(n, 4);
    if y < 0 {
      assert ("-" + digits)[1..] == digits;
    }
  }

  /** A number below 10^k has at most k digits. */
  lemma {:induction false} ItoaLength(n: nat, k: nat)
    requires 1 <= k
    ensures n < Pow10(k) ==> |Itoa(n)| <= k
    decreases k
  {
    if n >= 10 && k > 1 {
      ItoaLength(n / 10, k - 1);
    }
  }

  /** Digit strings of equal length and equal value are equal. */
  lemma {:induction false} SameDigits(a: string, b: string)
    requires AllDigits(a) && AllDigits(b) && |a| == |b|
    requires DecimalValue(a) == DecimalValue(b)
    ensures a == b
    decreases |a|
  {
    if a != [] {
      var n := |a|;
      assert DigitValue(a[n - 1]) == DecimalValue(a) % 10;
      assert DigitValue(b[n - 1]) == DecimalValue(b) % 10;
      SameDigits(a[..n - 1], b[..n - 1]);
      assert a == a[..n - 1] + [a[n - 1]] && b == b[..n - 1] + [b[n - 1]];
    }
  }

  /** Leading zeros do not change a decimal value. */
  lemma ZeroPadValue(s: string, width: nat)
    requires AllDigits(s)
    ensures AllDigits(PadLeft(s, width)) && DecimalValue(PadLeft(s, width)) == DecimalValue(s)
  {
    if |s| < width {
      var zeros := seq(width - |s|, _ => '0');
      ZerosValue(zeros, s);
    }
  }

  lemma {:induction false} ZerosValue(zeros: string, s: string)
    requires forall i :: 0 <= i < |zeros| ==> zeros[i] == '0'
    requires AllDigits(s)
    ensures AllDigits(zeros + s) && DecimalValue(zeros + s) == DecimalValue(s)
    decreases |s|
  {
    var z := zeros + s;
    if s == [] {
      assert z == zeros;
      AllZerosValue(zeros);
    } else {
      assert z[..|z| - 1] == zeros + s[..|s| - 1];
      ZerosValue(zeros, s[..|s| - 1]);
    }
  }

  lemma {:induction false} AllZerosValue(zeros: string)
    requires forall i :: 0 <= i < |zeros| ==> zeros[i] == '0'
    ensures AllDigits(zeros) && DecimalValue(zeros) == 0
  {
    if zeros != [] {
      AllZerosValue(zeros[..|zeros| - 1]);
    }
  }

  /** Layout "2006-01-02": the date folder name. */
  function DateFolder(t: Instant): (r: string)
  {
    FormatYear(t.year) + "-" + Pad2(t.month) + "-" + Pad2(t.day)
  }

  /** Layout "20060102". */
  function CompactDate(t: Instant): (r: string)
  {
    FormatYear(t.year) + Pad2(t.month) + Pad2(t.day)
  }

  /** Layout "2006<sep>01<sep>02 15:04:05": "-" gives the manifest's
      file_modified form, ":" its capture_date form. */
  function FormatStamp(t: Instant, sep: char): (r: string)
  {
    FormatYear(t.year) + [sep] + Pad2(t.month) + [sep] + Pad2(t.day)
      + " " + Pad2(t.hour) + ":" + Pad2(t.minute) + ":" + Pad2(t.second)
  }

  // ---------------------------------------------------------------------------
  // Round trips between parsing and formatting
  // ---------------------------------------------------------------------------

  /** A successful "20060102" parse reads back the text it came from. */
  lemma ParseCompactFormats(s: string)
    requires ParseCompact(s).Some?
    ensures CompactDate(ParseCompact(s).value) == s
  {
    var t := ParseCompact(s).value;
    YearDigits(t.year);
    SameDigits(FormatYear(t.year), s[..4]);
    Pad2Digits(t.month);
    Pad2Digits(t.day);
    SameDigits(Pad2(t.month), s[4..6]);
    SameDigits(Pad2(t.day), s[6..]);
    assert s == s[..4] + s[4..6] + s[6..];
  }

  /** Every valid date of years 0..9999 survives formatting and re-parsing. */
  lemma CompactRoundTrip(t: Instant)
    requires 0 <= t.year < 10000 && t.hour == 0 && t.minute == 0 && t.second == 0
    ensures ParseCompact(CompactDate(t)) == Some(t)
  {
    var s := CompactDate(t);
    YearDigits(t.year);
    assert s[..4] == FormatYear(t.year);
    Pad2Digits(t.month);
    Pad2Digits(t.day);
    assert s[4..6] == Pad2(t.month);
    assert s[6..] == Pad2(t.day);
  }

  /** A successful "2006-01-02" parse reads back the text it came from: the
      text is the date folder name of the parsed date. */
  lemma ParseIsoFormats(s: string)
    requires ParseIso(s).Some?
    ensures DateFolder(ParseIso(s).value) == s
  {
    var t := ParseIso(s).value;
    YearDigits(t.year);
    SameDigits(FormatYear(t.year), s[..4]);
    Pad2Digits(t.month);
    Pad2Digits(t.day);
    SameDigits(Pad2(t.month), s[5..7]);
    SameDigits(Pad2(t.day), s[8..]);
    assert s == s[..4] + "-" + s[5..7] + "-" + s[8..];
  }

  /** Every valid date of years 0..9999 survives the date folder format and
      re-parsing. */
  lemma IsoRoundTrip(t: Instant)
    requires 0 <= t.year < 10000 && t.hour == 0 && t.minute == 0 && t.second == 0
    ensures ParseIso(DateFolder(t)) == Some(t)
  {
    var s := DateFolder(t);
    YearDigits(t.year);
    assert s[..4] == FormatYear(t.year);
    Pad2Digits(t.month);
    Pad2Digits(t.day);
    assert s[5..7] == Pad2(t.month);
    assert s[8..] == Pad2(t.day);
  }

  /** The "2006" part of the date folder is its prefix, followed by '-'. */
  lemma YearPrefixOfDateFolder(t: Instant)
    ensures var y := FormatYear(t.year);
      |y| < |DateFolder(t)| && DateFolder(t)[..|y|] == y && DateFolder(t)[|y|] == '-'
  {
  }

  /** Leap-day handling: 29 February exists exactly in leap years. */
  lemma LeapDay(y: int)
    ensures ValidDate(y, 2, 29) <==> IsLeapYear(y)
    ensures ValidDate(2024, 2, 29) && !ValidDate(2025, 2, 29)
    ensures !ValidDate(1900, 2, 29) && ValidDate(2000, 2, 29)
  {
  }
}

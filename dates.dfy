/**
 * Calendar dates as `datetime.strptime(text, '%Y-%m-%d')` reads them, and the
 * `'%Y-%m-%d %H:%M:%S'` timestamps the server writes with `strftime`.
 *
 * Python's `_strptime` turns the format into the regular expression
 *   (?P<Y>\d\d\d\d)-(?P<m>1[0-2]|0[1-9]|[1-9])-(?P<d>3[01]|[12]\d|0[1-9]|[1-9]| [1-9])
 * matched at the start of the text; text left over after the match is an error
 * ("unconverted data remains"), and so is a date that `datetime` refuses
 * (year 0, or a day past the end of its month).
 */
module Dates {
  import opened Wrappers

  datatype Date = Date(year: int, month: int, day: int)

  /** A time of day on a date, as `datetime.now()` gives it (to the second). */
  datatype DateTime = DateTime(date: Date, hour: int, minute: int, second: int)

  predicate IsLeapYear(y: int) {
    y % 4 == 0 && (y % 100 != 0 || y % 400 == 0)
  }

  function DaysInMonth(y: int, m: int): int
    requires 1 <= m <= 12
  {
    if m == 2 then (if IsLeapYear(y) then 29 else 28)
    else if m == 4 || m == 6 || m == 9 || m == 11 then 30
    else 31
  }

  /** The dates `datetime.date` accepts: years 1 to 9999 of the proleptic Gregorian calendar. */
  predicate ValidDate(d: Date) {
    1 <= d.year <= 9999 && 1 <= d.month <= 12 && 1 <= d.day <= DaysInMonth(d.year, d.month)
  }

  /**
   * A date's place on a calendar of twelve 31-day months: valid dates in
   * calendar order have increasing keys.
   */
  function DayKey(d: Date): int {
    (d.year * 12 + d.month - 1) * 31 + d.day - 1
  }

  /**
   * `a <= b` on dates: the order in which `datetime` values at midnight
   * compare. On valid dates it agrees with the order of their day keys.
   */
  predicate NotAfter(a: Date, b: Date)
    ensures ValidDate(a) && ValidDate(b) ==> (NotAfter(a, b) <==> DayKey(a) <= DayKey(b))
  {
    a.year < b.year ||
    (a.year == b.year && (a.month < b.month || (a.month == b.month && a.day <= b.day)))
  }

  /** Any two dates compare, and two dates each not after the other are the same date. */
  lemma DateOrderTotal(a: Date, b: Date)
    ensures NotAfter(a, b) || NotAfter(b, a)
    ensures NotAfter(a, b) && NotAfter(b, a) ==> a == b
  {
  }

  predicate IsDigit(c: char) { '0' <= c <= '9' }

  predicate IsNonZeroDigit(c: char) { '1' <= c <= '9' }

  function DigitValue(c: char): (v: int)
    requires IsDigit(c)
    ensures 0 <= v <= 9
  {
    c as int - '0' as int
  }

  /**
   * The `%m` field followed by the literal '-': the alternatives `1[0-2]` and
   * `0[1-9]` take two characters and `[1-9]` one, and only one of them can be
   * followed by '-'. Gives the month and the text after the '-'.
   */
  function MonthField(s: string): (r: Option<(int, string)>)
    ensures r.Some? ==> 1 <= r.value.0 <= 12 && |r.value.1| < |s|
  {
    if |s| >= 3 && s[2] == '-' &&
       ((s[0] == '1' && '0' <= s[1] <= '2') || (s[0] == '0' && IsNonZeroDigit(s[1])))
    then Some((10 * DigitValue(s[0]) + DigitValue(s[1]), s[3..]))
    else if |s| >= 2 && s[1] == '-' && IsNonZeroDigit(s[0])
    then Some((DigitValue(s[0]), s[2..]))
    else None
  }

  /**
   * Width of the first alternative of `3[01]|[12]\d|0[1-9]|[1-9]| [1-9]` that
   * matches at the start of `s`, or 0 when none does.
   */
  function DayWidth(s: string): (w: nat)
    ensures w <= 2 && w <= |s|
  {
    if |s| >= 2 &&
       ((s[0] == '3' && (s[1] == '0' || s[1] == '1')) ||
        ((s[0] == '1' || s[0] == '2') && IsDigit(s[1])) ||
        (s[0] == '0' && IsNonZeroDigit(s[1])))
    then 2
    else if |s| >= 1 && IsNonZeroDigit(s[0]) then 1
    else if |s| >= 2 && s[0] == ' ' && IsNonZeroDigit(s[1]) then 2
    else 0
  }

  /**
   * The `%d` field, last in the format: the alternative the regular expression
   * picks must use up all of `s`. The value is what `int` reads from it (a
   * leading blank is skipped).
   */
  function DayField(s: string): (r: Option<int>)
    ensures r.Some? ==> 1 <= r.value <= 31 && 1 <= |s| <= 2
  {
    var w := DayWidth(s);
    if w == 0 || w != |s| then None
    else if w == 1 then Some(DigitValue(s[0]))
    else if s[0] == ' ' then Some(DigitValue(s[1]))
    else Some(10 * DigitValue(s[0]) + DigitValue(s[1]))
  }

  /** `datetime.strptime(s, '%Y-%m-%d')`, with `None` where Python raises `ValueError`. */
  function ParseIsoDate(s: string): (r: Option<Date>)
    ensures r.Some? ==> ValidDate(r.value)
    ensures r.Some? ==> 8 <= |s| <= 10 && s[4] == '-'
  {
    if |s| < 5 || !(IsDigit(s[0]) && IsDigit(s[1]) && IsDigit(s[2]) && IsDigit(s[3])) || s[4] != '-'
    then None
    else
      var year := 1000 * DigitValue(s[0]) + 100 * DigitValue(s[1]) + 10 * DigitValue(s[2]) + DigitValue(s[3]);
      match MonthField(s[5..])
      case None => None
      case Some((month, rest)) =>
        match DayField(rest)
        case None => None
        case Some(day) =>
          if 1 <= year && day <= DaysInMonth(year, month) then Some(Date(year, month, day)) else None
  }

  /** `n` written with exactly `width` decimal digits, zero-padded (the last `width` digits of `n`). */
  function Digits(n: nat, width: nat): (s: string)
    ensures |s| == width
    ensures forall i :: 0 <= i < |s| ==> IsDigit(s[i])
  {
    if width == 0 then "" else Digits(n / 10, width - 1) + [('0' as int + n % 10) as char]
  }

  lemma TwoDigits(n: nat)
    requires n < 100
    ensures Digits(n, 2) == [('0' as int + n / 10) as char, ('0' as int + n % 10) as char]
  {
    assert Digits(n / 10, 1) == Digits(n / 100, 0) + [('0' as int + (n / 10) % 10) as char];
  }

  lemma FourDigits(n: nat)
    requires n < 10000
    ensures var s := Digits(n, 4);
            1000 * DigitValue(s[0]) + 100 * DigitValue(s[1]) + 10 * DigitValue(s[2]) + DigitValue(s[3]) == n
  {
    var s := Digits(n, 4);
    var s3 := Digits(n / 10, 3);
    var s2 := Digits(n / 100, 2);
    TwoDigits(n / 100);
    assert s == s3 + [('0' as int + n % 10) as char];
    assert s3 == s2 + [('0' as int + (n / 10) % 10) as char];
    assert s[..2] == s2;
  }

  /** The `%Y-%m-%d` text `strftime` writes for a date of a four-digit year. */
  function FormatIsoDate(d: Date): (s: string)
    requires 0 <= d.year && 0 <= d.month && 0 <= d.day
  {
    Digits(d.year, 4) + "-" + Digits(d.month, 2) + "-" + Digits(d.day, 2)
  }

  /** Reading back a date written as `%Y-%m-%d` gives the same date. */
  lemma {:induction false} ParseFormatRoundTrip(d: Date)
    requires ValidDate(d)
    ensures ParseIsoDate(FormatIsoDate(d)) == Some(d)
  {
    var s := FormatIsoDate(d);
    var y, m, dd := Digits(d.year, 4), Digits(d.month, 2), Digits(d.day, 2);
    assert s == y + "-" + m + "-" + dd;
    FourDigits(d.year);
    TwoDigits(d.month);
    TwoDigits(d.day);
    assert s[..4] == y;
    assert s[5..] == m + "-" + dd;
    assert MonthField(s[5..]) == Some((d.month, dd));
    assert DayField(dd) == Some(d.day);
  }

  // ---------------------------------------------------------------------------
  // Which texts read as which dates

  /** The texts `%m` reads as month `m`: two digits, or one digit for months below 10. */
  function MonthTexts(m: nat): set<string> {
    {Digits(m, 2)} + (if m < 10 then {Digits(m, 1)} else {})
  }

  /**
   * The texts `%d` reads as day `d`: two digits, or for days below 10 one
   * digit, alone or after a blank.
   */
  function DayTexts(d: nat): set<string> {
    {Digits(d, 2)} + (if d < 10 then {Digits(d, 1), " " + Digits(d, 1)} else {})
  }

  /** `s` spells `d` as `%Y-%m-%d` in one of the forms `strptime` reads. */
  ghost predicate Spells(s: string, d: Date) {
    0 <= d.year && 0 <= d.month && 0 <= d.day &&
    exists mt, dt :: mt in MonthTexts(d.month) && dt in DayTexts(d.day) &&
                     s == Digits(d.year, 4) + "-" + mt + "-" + dt
  }

  lemma OneDigit(n: nat)
    requires n < 10
    ensures Digits(n, 1) == [('0' as int + n) as char]
  {
    assert Digits(n, 1) == Digits(n / 10, 0) + [('0' as int + n % 10) as char];
  }

  /** Two digit characters are the two-digit spelling of the number they denote. */
  lemma DigitsOfTwo(c0: char, c1: char)
    requires IsDigit(c0) && IsDigit(c1)
    ensures Digits(10 * DigitValue(c0) + DigitValue(c1), 2) == [c0, c1]
  {
    var n := 10 * DigitValue(c0) + DigitValue(c1);
    TwoDigits(n);
    assert n / 10 == DigitValue(c0) && n % 10 == DigitValue(c1);
  }

  /** Four digit characters are the four-digit spelling of the year they denote. */
  lemma DigitsOfFour(s: string)
    requires |s| >= 4 && IsDigit(s[0]) && IsDigit(s[1]) && IsDigit(s[2]) && IsDigit(s[3])
    ensures Digits(1000 * DigitValue(s[0]) + 100 * DigitValue(s[1]) + 10 * DigitValue(s[2]) + DigitValue(s[3]), 4)
            == s[..4]
  {
    var a, b, c, d := DigitValue(s[0]), DigitValue(s[1]), DigitValue(s[2]), DigitValue(s[3]);
    var n := 1000 * a + 100 * b + 10 * c + d;
    assert n % 10 == d && n / 10 == 100 * a + 10 * b + c;
    assert (n / 10) % 10 == c && (n / 10) / 10 == 10 * a + b;
    DigitsOfTwo(s[0], s[1]);
    assert Digits(n / 10, 3) == Digits(10 * a + b, 2) + [s[2]];
    assert Digits(n, 4) == Digits(n / 10, 3) + [s[3]];
  }

  /** What `MonthField` reads is spelled by the text before the '-' it stops at. */
  lemma MonthFieldSpelling(s: string)
    requires MonthField(s).Some?
    ensures var (m, rest) := MonthField(s).value;
            var w := s[..|s| - |rest| - 1];
            0 <= m && w in MonthTexts(m) && s == w + "-" + rest
  {
    if |s| >= 3 && s[2] == '-' &&
       ((s[0] == '1' && '0' <= s[1] <= '2') || (s[0] == '0' && IsNonZeroDigit(s[1]))) {
      var m := 10 * DigitValue(s[0]) + DigitValue(s[1]);
      DigitsOfTwo(s[0], s[1]);
      assert s[..2] == [s[0], s[1]] == Digits(m, 2);
      assert s == s[..2] + "-" + s[3..];
    } else {
      var m := DigitValue(s[0]);
      OneDigit(m);
      assert ('0' as int + m) as char == s[0];
      assert s[..1] == Digits(m, 1) && m < 10;
      assert s == s[..1] + "-" + s[2..];
    }
  }

  /** Every spelling of a month, followed by '-', reads as that month. */
  lemma MonthFieldReads(m: nat, w: string, rest: string)
    requires 1 <= m <= 12 && w in MonthTexts(m)
    ensures MonthField(w + "-" + rest) == Some((m, rest))
  {
    var s := w + "-" + rest;
    TwoDigits(m);
    if w == Digits(m, 2) {
      assert s[..3] == w + "-" && s[3..] == rest;
    } else {
      OneDigit(m);
      assert s[..2] == w + "-" && s[2..] == rest;
    }
  }

  /** What `DayField` reads is spelled by the whole text. */
  lemma DayFieldSpelling(s: string)
    requires DayField(s).Some?
    ensures 0 <= DayField(s).value && s in DayTexts(DayField(s).value)
  {
    if |s| == 1 {
      OneDigit(DigitValue(s[0]));
      assert s == [s[0]];
    } else if s[0] == ' ' {
      OneDigit(DigitValue(s[1]));
      assert s == " " + [s[1]];
    } else {
      DigitsOfTwo(s[0], s[1]);
      assert s == [s[0], s[1]];
    }
  }

  /** Every spelling of a day reads as that day. */
  lemma DayFieldReads(d: nat, t: string)
    requires 1 <= d <= 31 && t in DayTexts(d)
    ensures DayField(t) == Some(d)
  {
    TwoDigits(d);
    if d < 10 {
      OneDigit(d);
    }
  }

  /** A text `strptime` reads as a date spells that date. */
  lemma ParseIsoDateSound(s: string, d: Date)
    requires ParseIsoDate(s) == Some(d)
    ensures Spells(s, d)
  {
    DigitsOfFour(s);
    var (m, rest) := MonthField(s[5..]).value;
    MonthFieldSpelling(s[5..]);
    DayFieldSpelling(rest);
    var mt := s[5..][..|s[5..]| - |rest| - 1];
    assert s[5..] == mt + "-" + rest;
    assert s == s[..4] + "-" + s[5..];
    assert s == Digits(d.year, 4) + "-" + mt + "-" + rest;
  }

  /** Every spelling of a date `datetime` accepts reads as that date. */
  lemma ParseIsoDateComplete(s: string, d: Date)
    requires ValidDate(d) && Spells(s, d)
    ensures ParseIsoDate(s) == Some(d)
  {
    var mt, dt :| mt in MonthTexts(d.month) && dt in DayTexts(d.day) &&
                  s == Digits(d.year, 4) + "-" + mt + "-" + dt;
    var y := Digits(d.year, 4);
    FourDigits(d.year);
    assert s[..4] == y && s[4] == '-';
    assert s[5..] == mt + "-" + dt;
    MonthFieldReads(d.month, mt, dt);
    DayFieldReads(d.day, dt);
  }

  /**
   * `strptime(s, '%Y-%m-%d')` succeeds with `d` exactly when `d` is a date
   * `datetime` accepts and `s` spells it: four year digits, a month of one or
   * two digits, a day of two digits, one digit or a blank and one digit, and
   * nothing else. Every other text is refused.
   */
  lemma ParseIsoDateExact(s: string, d: Date)
    ensures ParseIsoDate(s) == Some(d) <==> ValidDate(d) && Spells(s, d)
  {
    if ParseIsoDate(s) == Some(d) {
      ParseIsoDateSound(s, d);
    }
    if ValidDate(d) && Spells(s, d) {
      ParseIsoDateComplete(s, d);
    }
  }

  /** Unpadded months and days, and a day after a blank, read like their zero-padded forms. */
  lemma LooseSpellingsRead()
    ensures ParseIsoDate("2024-1-5") == Some(Date(2024, 1, 5))
    ensures ParseIsoDate("2024-01- 5") == Some(Date(2024, 1, 5))
  {
    var d := Date(2024, 1, 5);
    OneDigit(1);
    OneDigit(5);
    TwoDigits(1);
    FourDigits(2024);
    assert Digits(2024, 4) == "2024" by {
      assert Digits(2024, 4) == Digits(202, 3) + "4";
      assert Digits(202, 3) == Digits(20, 2) + "2";
      TwoDigits(20);
    }
    assert "2024-1-5" == Digits(2024, 4) + "-" + Digits(1, 1) + "-" + Digits(5, 1);
    assert "2024-01- 5" == Digits(2024, 4) + "-" + Digits(1, 2) + "-" + (" " + Digits(5, 1));
    assert Digits(1, 1) in MonthTexts(1) && Digits(5, 1) in DayTexts(5);
    assert Spells("2024-1-5", d);
    ParseIsoDateComplete("2024-1-5", d);
    assert Digits(1, 2) in MonthTexts(1) && " " + Digits(5, 1) in DayTexts(5);
    assert Spells("2024-01- 5", d);
    ParseIsoDateComplete("2024-01- 5", d);
  }

  /**
   * Texts `strptime` refuses: a thirteenth month, 29 February of a common
   * year, year 0, and a date followed by a time of day.
   */
  lemma RefusedTexts()
    ensures ParseIsoDate("2024-13-01").None?
    ensures ParseIsoDate("2023-02-29").None?
    ensures ParseIsoDate("0000-01-01").None?
    ensures ParseIsoDate("2024-01-05 10:00").None?
  {
    assert "2024-13-01"[5..] == "13-01";
    assert MonthField("13-01").None?;
    assert "2023-02-29"[5..] == "02-29" && "02-29"[3..] == "29";
    assert MonthField("02-29") == Some((2, "29"));
    assert DayField("29") == Some(29);
    assert "2024-01-05 10:00"[5..] == "01-05 10:00" && "01-05 10:00"[3..] == "05 10:00";
    assert MonthField("01-05 10:00") == Some((1, "05 10:00"));
    assert DayWidth("05 10:00") == 2;
  }

  /** The clock readings the model covers: `datetime.now()` in a four-digit year. */
  predicate ValidClock(t: DateTime) {
    ValidDate(t.date) && 1000 <= t.date.year &&
    0 <= t.hour < 24 && 0 <= t.minute < 60 && 0 <= t.second < 60
  }

  /** `t.strftime('%Y-%m-%d %H:%M:%S')`. */
  function FormatTimestamp(t: DateTime): (s: string)
    requires ValidClock(t)
    ensures |s| == 19 && s[4] == '-' && s[7] == '-' && s[10] == ' ' && s[13] == ':' && s[16] == ':'
    ensures forall i :: 0 <= i < |s| && i != 4 && i != 7 && i != 10 && i != 13 && i != 16 ==> IsDigit(s[i])
  {
    FormatIsoDate(t.date) + " " + Digits(t.hour, 2) + ":" + Digits(t.minute, 2) + ":" + Digits(t.second, 2)
  }

  /** The part of a timestamp before its first blank: `ts.split(' ')[0]`. */
  function DateToken(ts: string): (t: string)
    ensures t <= ts
    ensures ' ' !in t
    ensures |t| < |ts| ==> ts[|t|] == ' '
  {
    if ts == [] || ts[0] == ' ' then [] else [ts[0]] + DateToken(ts[1..])
  }

  /** Whatever follows the first blank (the time of day) has no part in the date token. */
  lemma {:induction false} TimeOfDayIgnored(day: string, rest: string)
    requires ' ' !in day
    ensures DateToken(day + " " + rest) == day
  {
    var ts := day + " " + rest;
    if day != [] {
      assert day[0] in day;
      assert ts[1..] == day[1..] + " " + rest;
      TimeOfDayIgnored(day[1..], rest);
    }
  }

  /** A timestamp the server writes reads back, through its date token, as the day it was written. */
  lemma StampedDateReadsBack(t: DateTime)
    requires ValidClock(t)
    ensures DateToken(FormatTimestamp(t)) == FormatIsoDate(t.date)
    ensures ParseIsoDate(DateToken(FormatTimestamp(t))) == Some(t.date)
  {
    var day := FormatIsoDate(t.date);
    var rest := Digits(t.hour, 2) + ":" + Digits(t.minute, 2) + ":" + Digits(t.second, 2);
    assert FormatTimestamp(t) == day + " " + rest;
    forall i | 0 <= i < |day| ensures day[i] != ' ' {
      assert day == Digits(t.date.year, 4) + "-" + Digits(t.date.month, 2) + "-" + Digits(t.date.day, 2);
    }
    TimeOfDayIgnored(day, rest);
    ParseFormatRoundTrip(t.date);
  }
}

/** Dates and times of the timecard bot: the proleptic Gregorian calendar of
    Python's `datetime` (years 1 to 9999), the fixed-width `strptime` formats the
    handlers parse ("%Y/%m/%d %H:%M", "%H:%M", "%Y/%m") and the `strftime`
    formats the exports write. A `datetime.time` value is kept at minute
    resolution as the number of minutes since midnight. */
module Calendar {
  import opened Text

  datatype DateTime = DateTime(year: int, month: int, day: int, hour: int, minute: int, second: int)

  predicate IsLeapYear(y: int)
  {
    y % 4 == 0 && (y % 100 != 0 || y % 400 == 0)
  }

  function DaysInMonth(y: int, m: int): (n: int)
    requires 1 <= m <= 12
    ensures 28 <= n <= 31
    ensures n == 29 <==> m == 2 && IsLeapYear(y)
  {
    if m == 2 then (if IsLeapYear(y) then 29 else 28)
    else if m == 4 || m == 6 || m == 9 || m == 11 then 30
    else 31
  }

  predicate ValidDate(y: int, m: int, d: int)
  {
    1 <= y <= 9999 && 1 <= m <= 12 && 1 <= d <= DaysInMonth(y, m)
  }

  predicate ValidDateTime(t: DateTime)
  {
    && ValidDate(t.year, t.month, t.day)
    && 0 <= t.hour < 24 && 0 <= t.minute < 60 && 0 <= t.second < 60
  }

  /** A value of Python's `datetime.datetime` (microseconds aside). */
  type Timestamp = t: DateTime | ValidDateTime(t) witness DateTime(1, 1, 1, 0, 0, 0)

  /** A value of Python's `datetime.time` at minute resolution: minutes since midnight. */
  type ClockTime = m: int | 0 <= m < 1440

  // ------------------------------------------------------------ ordinals

  /** Days in the months of year y before month m. */
  function DaysBeforeMonth(y: int, m: int): (n: int)
    requires 1 <= m <= 12
    ensures 0 <= n <= 31 * (m - 1)
    ensures n >= 28 * (m - 1)
  {
    if m == 1 then 0 else DaysBeforeMonth(y, m - 1) + DaysInMonth(y, m - 1)
  }

  /** Days in the years 1 .. y-1, year by year. */
  function DaysBeforeYear(y: int): int
  {
    if y <= 1 then 0 else DaysBeforeYear(y - 1) + (if IsLeapYear(y - 1) then 366 else 365)
  }

  /** The day's ordinal: 0001/01/01 is day 1 (Python's `date.toordinal()`). */
  function DayNumber(y: int, m: int, d: int): int
    requires 1 <= m <= 12
  {
    DaysBeforeYear(y) + DaysBeforeMonth(y, m) + d
  }

  /** The instant as seconds since 0001/01/01 00:00:00 minus one day; only
      differences and comparisons of these numbers are ever used. */
  function Seconds(t: Timestamp): int
  {
    DayNumber(t.year, t.month, t.day) * 86400 + t.hour * 3600 + t.minute * 60 + t.second
  }

  /** Chronological order of two instants (datetime's `<`). */
  predicate Before(a: Timestamp, b: Timestamp)
  {
    Seconds(a) < Seconds(b)
  }

  /** December ends where the next year starts. */
  lemma {:induction false} YearIsTwelveMonths(y: int)
    requires y >= 1
    ensures DaysBeforeMonth(y, 12) + DaysInMonth(y, 12) == DaysBeforeYear(y + 1) - DaysBeforeYear(y)
  {
    var leap := if IsLeapYear(y) then 1 else 0;
    assert DaysBeforeMonth(y, 3) == 59 + leap;
    assert DaysBeforeMonth(y, 5) == 120 + leap;
    assert DaysBeforeMonth(y, 7) == 181 + leap;
    assert DaysBeforeMonth(y, 9) == 243 + leap;
    assert DaysBeforeMonth(y, 11) == 304 + leap;
    assert DaysBeforeMonth(y, 12) == 334 + leap;
  }

  // --------------------------------------------------------------- months

  /** The (year, month) after (y, m): December rolls over to January of y + 1.
      Its first day comes right after the last day of (y, m). */
  function NextMonth(y: int, m: int): (r: (int, int))
    requires 1 <= m <= 12
    ensures 1 <= r.1 <= 12
    ensures 1 <= y ==> DayNumber(r.0, r.1, 1) == DayNumber(y, m, 1) + DaysInMonth(y, m)
  {
    if m < 12 then (y, m + 1)
    else if y < 1 then (y + 1, 1)
    else YearIsTwelveMonths(y); (y + 1, 1)
  }

  /** The first instant of month (y, m): `date(year=y, month=m, day=1)`. */
  function MonthStart(y: int, m: int): (t: DateTime)
    ensures t.year == y && t.month == m
    ensures t.day == 1 && t.hour == 0 && t.minute == 0 && t.second == 0
  {
    DateTime(y, m, 1, 0, 0, 0)
  }

  /** The month a query covers: from its first day up to the first day of the next month. */
  datatype Window = Window(from: Timestamp, until: Timestamp)

  /** `first_day + relativedelta(months=1)` fails with a ValueError past year 9999. */
  function MonthWindow(y: int, m: int): (w: Option<Window>)
    requires 1 <= y <= 9999 && 1 <= m <= 12
    ensures w.None? <==> y == 9999 && m == 12
    ensures w.Some? ==> w.value.from == MonthStart(y, m)
    ensures w.Some? ==> w.value.until == MonthStart(NextMonth(y, m).0, NextMonth(y, m).1)
  {
    if y == 9999 && m == 12 then None
    else
      var n := NextMonth(y, m);
      Some(Window(MonthStart(y, m), MonthStart(n.0, n.1)))
  }

  predicate InWindow(start: Timestamp, end: Timestamp, w: Window)
  {
    Seconds(start) >= Seconds(w.from) && Seconds(end) < Seconds(w.until)
  }

  /** Months in the same year come one after the other. */
  lemma {:induction false} MonthsIncrease(y: int, m1: int, m2: int)
    requires 1 <= m1 < m2 <= 12
    ensures DaysBeforeMonth(y, m1) + DaysInMonth(y, m1) <= DaysBeforeMonth(y, m2)
  {
    if m1 + 1 < m2 {
      MonthsIncrease(y, m1, m2 - 1);
    }
  }

  /** Later years start later. */
  lemma {:induction false} YearsIncrease(y1: int, y2: int)
    requires y1 < y2
    ensures DaysBeforeYear(y1 + 1) <= DaysBeforeYear(y2)
    decreases y2 - y1
  {
    if y1 + 1 < y2 {
      YearsIncrease(y1 + 1, y2);
    }
  }

  /** Every day of a month other than (y, m) lies before its first day or on or
      after the first day of the next month. */
  lemma {:induction false} OtherMonthOutside(y: int, m: int, t: Timestamp)
    requires 1 <= y && 1 <= m <= 12
    requires (t.year, t.month) != (y, m)
    ensures DayNumber(t.year, t.month, t.day) < DayNumber(y, m, 1)
         || DayNumber(t.year, t.month, t.day) >= DayNumber(NextMonth(y, m).0, NextMonth(y, m).1, 1)
  {
    var n := NextMonth(y, m);
    if t.year == y {
      if t.month < m {
        MonthsIncrease(y, t.month, m);
      } else if m < 12 {
        if t.month > m + 1 { MonthsIncrease(y, m + 1, t.month); }
      } else {
        assert false;
      }
    } else if t.year < y {
      YearsIncrease(t.year, y);
      YearIsTwelveMonths(t.year);
      if t.month < 12 { MonthsIncrease(t.year, t.month, 12); }
    } else {
      if m < 12 {
        YearsIncrease(y, t.year);
        YearIsTwelveMonths(y);
        if m + 1 < 12 { MonthsIncrease(y, m + 1, 12); }
      } else if t.year > y + 1 {
        YearsIncrease(y + 1, t.year);
      }
    }
  }

  /** The window of (y, m) contains exactly the instants of that calendar month. */
  lemma {:induction false} WindowIsCalendarMonth(y: int, m: int, t: Timestamp)
    requires 1 <= y <= 9999 && 1 <= m <= 12 && !(y == 9999 && m == 12)
    ensures var w := MonthWindow(y, m).value;
      Seconds(w.from) <= Seconds(t) < Seconds(w.until) <==> t.year == y && t.month == m
  {
    var w := MonthWindow(y, m).value;
    var n := NextMonth(y, m);
    var dn := DayNumber(t.year, t.month, t.day);
    assert Seconds(t) == dn * 86400 + t.hour * 3600 + t.minute * 60 + t.second;
    assert 0 <= t.hour * 3600 + t.minute * 60 + t.second < 86400;
    assert Seconds(w.from) == DayNumber(y, m, 1) * 86400;
    assert Seconds(w.until) == DayNumber(n.0, n.1, 1) * 86400;
    if t.year == y && t.month == m {
      if m == 12 { YearIsTwelveMonths(y); }
      assert DayNumber(y, m, 1) <= dn < DayNumber(n.0, n.1, 1);
    } else {
      OtherMonthOutside(y, m, t);
    }
  }

  /** datetime's comparison, field by field from the year down to the second. */
  predicate Precedes(a: Timestamp, b: Timestamp)
  {
    if a.year != b.year then a.year < b.year
    else if a.month != b.month then a.month < b.month
    else if a.day != b.day then a.day < b.day
    else a.hour * 3600 + a.minute * 60 + a.second < b.hour * 3600 + b.minute * 60 + b.second
  }

  /** A date earlier field by field has a smaller ordinal. */
  lemma {:induction false} DayNumberIncreases(a: Timestamp, b: Timestamp)
    requires a.year < b.year || (a.year == b.year && (a.month < b.month || (a.month == b.month && a.day < b.day)))
    ensures DayNumber(a.year, a.month, a.day) < DayNumber(b.year, b.month, b.day)
  {
    if a.year < b.year {
      if a.month < 12 { MonthsIncrease(a.year, a.month, 12); }
      YearIsTwelveMonths(a.year);
      YearsIncrease(a.year, b.year);
    } else if a.month < b.month {
      MonthsIncrease(a.year, a.month, b.month);
    }
  }

  /** Comparing field by field is comparing the instants in time. */
  lemma {:induction false} PrecedesIsBefore(a: Timestamp, b: Timestamp)
    ensures Precedes(a, b) <==> Before(a, b)
  {
    var sa := a.hour * 3600 + a.minute * 60 + a.second;
    var sb := b.hour * 3600 + b.minute * 60 + b.second;
    assert 0 <= sa < 86400 && 0 <= sb < 86400;
    var da := DayNumber(a.year, a.month, a.day);
    var db := DayNumber(b.year, b.month, b.day);
    assert Seconds(a) == da * 86400 + sa && Seconds(b) == db * 86400 + sb;
    if (a.year, a.month, a.day) == (b.year, b.month, b.day) {
    } else if a.year < b.year || (a.year == b.year && (a.month < b.month || (a.month == b.month && a.day < b.day))) {
      DayNumberIncreases(a, b);
      assert Precedes(a, b);
    } else {
      DayNumberIncreases(b, a);
      assert !Precedes(a, b);
    }
  }

  // -------------------------------------------------------------- parsing

  /** "%Y/%m/%d %H:%M" at fixed width (four-digit year, two-digit fields), as
      `datetime.strptime` reads it; the result has zero seconds. */
  function ParseDateTime(s: string): (r: Option<Timestamp>)
    ensures r.Some? ==> r.value.second == 0
  {
    if |s| == 16 && s[4] == '/' && s[7] == '/' && s[10] == ' ' && s[13] == ':'
       && AllDigits(s[0..4]) && AllDigits(s[5..7]) && AllDigits(s[8..10])
       && AllDigits(s[11..13]) && AllDigits(s[14..16])
    then
      var t := DateTime(Value(s[0..4]), Value(s[5..7]), Value(s[8..10]),
                        Value(s[11..13]), Value(s[14..16]), 0);
      if ValidDateTime(t) then Some(t) else None
    else None
  }

  /** Year, month and day joined by sep, then hour and minute: "%Y/%m/%d %H:%M"
      for sep '/', and the first sixteen characters of `str(datetime)` for '-'. */
  function MinuteForm(t: Timestamp, sep: char): (s: string)
    ensures |s| == 16
  {
    Digits(t.year, 4) + [sep] + Digits(t.month, 2) + [sep] + Digits(t.day, 2) + " "
      + Digits(t.hour, 2) + ":" + Digits(t.minute, 2)
  }

  /** "%Y/%m/%d %H:%M" as strftime writes it. */
  function FormatMinute(t: Timestamp): (s: string)
    ensures |s| == 16
  {
    MinuteForm(t, '/')
  }

  /** Where FormatMinute puts each field: four digits of year, then month,
      day, hour and minute in two digits each, behind '/', '/', ' ', ':'. */
  lemma {:induction false} FormatMinuteFields(t: Timestamp)
    ensures var s := FormatMinute(t);
      && s[4] == '/' && s[7] == '/' && s[10] == ' ' && s[13] == ':'
      && s[0..4] == Digits(t.year, 4) && s[5..7] == Digits(t.month, 2)
      && s[8..10] == Digits(t.day, 2) && s[11..13] == Digits(t.hour, 2)
      && s[14..16] == Digits(t.minute, 2)
  {
  }

  /** "%Y/%m/%d %H:%M:%S" as strftime writes it. */
  function FormatStamp(t: Timestamp): (s: string)
    ensures |s| == 19
  {
    FormatMinute(t) + ":" + Digits(t.second, 2)
  }

  /** FormatStamp is FormatMinute followed by ':' and two digits of second. */
  lemma {:induction false} FormatStampFields(t: Timestamp)
    ensures var s := FormatStamp(t);
      s[..16] == FormatMinute(t) && s[16] == ':' && s[17..] == Digits(t.second, 2)
  {
    var s := FormatStamp(t);
    assert s == FormatMinute(t) + ":" + Digits(t.second, 2);
  }

  /** `str(datetime)`: "%Y-%m-%d %H:%M:%S" (an instant with no microseconds). */
  function IsoStamp(t: Timestamp): (s: string)
    ensures |s| == 19
  {
    MinuteForm(t, '-') + ":" + Digits(t.second, 2)
  }

  /** Where `str(datetime)` puts each field: four digits of year, then month,
      day, hour, minute and second in two digits each, behind '-', '-', ' ',
      ':', ':'. */
  lemma {:induction false} IsoStampFields(t: Timestamp)
    ensures var s := IsoStamp(t);
      && s[4] == '-' && s[7] == '-' && s[10] == ' ' && s[13] == ':' && s[16] == ':'
      && s[0..4] == Digits(t.year, 4) && s[5..7] == Digits(t.month, 2) && s[8..10] == Digits(t.day, 2)
      && s[11..13] == Digits(t.hour, 2) && s[14..16] == Digits(t.minute, 2) && s[17..19] == Digits(t.second, 2)
  {
    var m := MinuteForm(t, '-');
    var s := IsoStamp(t);
    assert m[4] == '-' && m[7] == '-' && m[10] == ' ' && m[13] == ':'
      && m[0..4] == Digits(t.year, 4) && m[5..7] == Digits(t.month, 2) && m[8..10] == Digits(t.day, 2)
      && m[11..13] == Digits(t.hour, 2) && m[14..16] == Digits(t.minute, 2);
    assert s[..16] == m && s[16] == ':' && s[17..19] == Digits(t.second, 2);
    assert s[0..4] == m[0..4] && s[5..7] == m[5..7] && s[8..10] == m[8..10];
    assert s[11..13] == m[11..13] && s[14..16] == m[14..16];
  }

  /** Parsing what FormatMinute writes gives the instant back. */
  lemma {:induction false} ParseFormatMinute(t: Timestamp)
    requires t.second == 0
    ensures ParseDateTime(FormatMinute(t)) == Some(t)
  {
    FormatMinuteFields(t);
  }

  /** Two 16-character strings with the same separators and the same five fields are equal. */
  lemma {:induction false} SameMinuteFields(a: string, b: string)
    requires |a| == 16 && |b| == 16
    requires a[4] == b[4] && a[7] == b[7] && a[10] == b[10] && a[13] == b[13]
    requires a[0..4] == b[0..4] && a[5..7] == b[5..7] && a[8..10] == b[8..10]
    requires a[11..13] == b[11..13] && a[14..16] == b[14..16]
    ensures a == b
  {
    forall i | 0 <= i < 16
      ensures a[i] == b[i]
    {
      if i < 4 { assert a[i] == a[0..4][i] && b[i] == b[0..4][i]; }
      else if 5 <= i < 7 { assert a[i] == a[5..7][i - 5] && b[i] == b[5..7][i - 5]; }
      else if 8 <= i < 10 { assert a[i] == a[8..10][i - 8] && b[i] == b[8..10][i - 8]; }
      else if 11 <= i < 13 { assert a[i] == a[11..13][i - 11] && b[i] == b[11..13][i - 11]; }
      else if 14 <= i { assert a[i] == a[14..16][i - 14] && b[i] == b[14..16][i - 14]; }
    }
  }

  /** A string ParseDateTime accepts is exactly what FormatMinute writes for the result. */
  lemma {:induction false} FormatParseMinute(s: string)
    requires ParseDateTime(s).Some?
    ensures FormatMinute(ParseDateTime(s).value) == s
  {
    DigitsOfValue(s[0..4]);
    DigitsOfValue(s[5..7]);
    DigitsOfValue(s[8..10]);
    DigitsOfValue(s[11..13]);
    DigitsOfValue(s[14..16]);
    FormatMinuteFields(ParseDateTime(s).value);
    SameMinuteFields(FormatMinute(ParseDateTime(s).value), s);
  }

  /** "%H:%M" read by strptime into a `datetime.time`: two-digit hour below 24,
      two-digit minute below 60. */
  function ParseClock(s: string): (r: Option<ClockTime>)
  {
    if |s| == 5 && s[2] == ':' && AllDigits(s[0..2]) && AllDigits(s[3..5])
       && Value(s[0..2]) < 24 && Value(s[3..5]) < 60
    then Some(Value(s[0..2]) * 60 + Value(s[3..5]))
    else None
  }

  /** A time of day written "%H" + sep + "%M" ("%H:%M" or "%H%M"). */
  function FormatClock(c: ClockTime, sep: string): (s: string)
    ensures |s| == 4 + |sep|
  {
    Digits(c / 60, 2) + sep + Digits(c % 60, 2)
  }

  /** ParseClock reads back what FormatClock writes with ':'. */
  lemma {:induction false} ClockRoundTrip(c: ClockTime)
    ensures ParseClock(FormatClock(c, ":")) == Some(c)
  {
    var f := FormatClock(c, ":");
    assert f[0..2] == Digits(c / 60, 2) && f[3..5] == Digits(c % 60, 2);
  }

  /** Every string ParseClock accepts is what FormatClock writes for its value. */
  lemma {:induction false} ClockOfParse(s: string)
    requires ParseClock(s).Some?
    ensures FormatClock(ParseClock(s).value, ":") == s
  {
    var h := Value(s[0..2]);
    var m := Value(s[3..5]);
    DigitsOfValue(s[0..2]);
    DigitsOfValue(s[3..5]);
    SplitMinutes(h, m);
    assert s == s[0..2] + ":" + s[3..5];
  }

  /** The hour and minute of h * 60 + m. */
  lemma SplitMinutes(h: int, m: int)
    requires 0 <= m < 60
    ensures (h * 60 + m) / 60 == h && (h * 60 + m) % 60 == m
  {
  }

  /** The time of day of an instant, as a `datetime.time` at minute resolution. */
  function ClockOf(t: Timestamp): (c: ClockTime)
    ensures c / 60 == t.hour && c % 60 == t.minute
  {
    t.hour * 60 + t.minute
  }

  /** "%Y/%m" read by strptime: four digits of year 1 to 9999, then a month
      written as 1 to 9 or as 01 to 12. */
  function ParseYearMonth(s: string): (r: Option<(int, int)>)
    ensures r.Some? ==> 1 <= r.value.0 <= 9999 && 1 <= r.value.1 <= 12
  {
    if (|s| == 6 || |s| == 7) && s[4] == '/' && AllDigits(s[0..4]) && AllDigits(s[5..])
       && Value(s[0..4]) >= 1
    then
      var m := Value(s[5..]);
      if |s| == 6 && 1 <= m <= 9 then Some((Value(s[0..4]), m))
      else if |s| == 7 && 1 <= m <= 12 then Some((Value(s[0..4]), m))
      else None
    else None
  }

  /** The usual spelling "%Y/%m" of every month is accepted and read back. */
  lemma {:induction false} ParseYearMonthOfFormat(y: int, m: int)
    requires 1 <= y <= 9999 && 1 <= m <= 12
    ensures ParseYearMonth(Digits(y, 4) + "/" + Digits(m, 2)) == Some((y, m))
  {
    var s := Digits(y, 4) + "/" + Digits(m, 2);
    assert s[0..4] == Digits(y, 4) && s[5..] == Digits(m, 2);
  }

  /** `(datetime.min + delta).time()` at minute resolution, for a delta of
      `secs` seconds: the time of day `secs` after midnight of 0001/01/01, or
      None when that falls before year 1 (Python raises OverflowError). */
  function TimeOfDelta(secs: int): (r: Option<ClockTime>)
    ensures r.None? <==> secs < 0
    ensures r.Some? ==> r.value * 60 <= secs % 86400 < r.value * 60 + 60
  {
    if secs < 0 then None else Some((secs % 86400) / 60)
  }
}

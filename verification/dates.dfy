/** Calendar dates as the task forms see them: the `YYYY-MM-DD` pattern both forms
    check, the date a JavaScript engine reads from such a string (`new Date(s)`), and
    the order `>=` puts on two such dates. */
module Dates {
  import opened Wrappers
  import opened Text

  /** The pattern `^\d{4}-\d{2}-\d{2}$`: four digits, '-', two digits, '-', two digits. */
  predicate IsDateString(s: string) {
    && |s| == 10
    && s[4] == '-' && s[7] == '-'
    && AllDigits(s[..4]) && AllDigits(s[5..7]) && AllDigits(s[8..])
  }

  datatype Date = Date(year: nat, month: nat, day: nat)

  /** The year, month and day fields of a pattern-matching string. */
  function ParseDate(s: string): (d: Date)
    requires IsDateString(s)
    ensures Formattable(d)
  {
    DigitsValueBound(s[..4]);
    DigitsValueBound(s[5..7]);
    DigitsValueBound(s[8..]);
    Date(DigitsValue(s[..4]), DigitsValue(s[5..7]), DigitsValue(s[8..]))
  }

  predicate Formattable(d: Date) {
    d.year < 10000 && d.month < 100 && d.day < 100
  }

  /** `YYYY-MM-DD` with zero padding, the form a date input produces. */
  function FormatDate(d: Date): (s: string)
    requires Formattable(d)
    ensures IsDateString(s)
  {
    var s := Padded(d.year, 4) + "-" + Padded(d.month, 2) + "-" + Padded(d.day, 2);
    assert s[..4] == Padded(d.year, 4);
    assert s[5..7] == Padded(d.month, 2);
    assert s[8..] == Padded(d.day, 2);
    s
  }

  /** Reading the fields of a date string and formatting them again gives the string back. */
  lemma DateStringRoundTrip(s: string)
    requires IsDateString(s)
    ensures FormatDate(ParseDate(s)) == s
  {
    PaddedOfValue(s[..4]);
    PaddedOfValue(s[5..7]);
    PaddedOfValue(s[8..]);
    assert s == s[..4] + "-" + s[5..7] + "-" + s[8..];
  }

  /** Formatting a date and reading it back gives the same date. */
  lemma DateRoundTrip(d: Date)
    requires Formattable(d)
    ensures ParseDate(FormatDate(d)) == d
  {
    var y, m, dd := Padded(d.year, 4), Padded(d.month, 2), Padded(d.day, 2);
    var s := FormatDate(d);
    assert s == y + "-" + m + "-" + dd;
    assert s[..4] == y;
    assert s[5..7] == m;
    assert s[8..] == dd;
    assert DigitsValue(y) == d.year;
    assert DigitsValue(m) == d.month;
    assert DigitsValue(dd) == d.day;
  }

  // ---------------------------------------------------------------- calendar

  /** Gregorian leap-year rule. */
  predicate IsLeapYear(y: nat) {
    y % 4 == 0 && (y % 100 != 0 || y % 400 == 0)
  }

  function DaysInMonth(y: nat, m: nat): nat
    requires 1 <= m <= 12
  {
    if m == 2 then (if IsLeapYear(y) then 29 else 28)
    else if m == 4 || m == 6 || m == 9 || m == 11 then 30
    else 31
  }

  function DaysInYear(y: nat): nat {
    if IsLeapYear(y) then 366 else 365
  }

  /** A day that exists on the proleptic Gregorian calendar. */
  predicate IsCalendarDate(d: Date) {
    1 <= d.month <= 12 && 1 <= d.day <= DaysInMonth(d.year, d.month)
  }

  /** Days of year `y` before the first of month `m` (`m == 13` gives the whole year). */
  function MonthStart(y: nat, m: nat): nat
    requires 1 <= m <= 13
    decreases m
  {
    if m == 1 then 0 else MonthStart(y, m - 1) + DaysInMonth(y, m - 1)
  }

  /** Days from 0000-01-01 to the first day of year `y`. */
  function YearStart(y: nat): nat {
    if y == 0 then 0 else YearStart(y - 1) + DaysInYear(y - 1)
  }

  /** Days from 0000-01-01 to `d`: the JavaScript time value of `d` at midnight UTC,
      up to a fixed offset and the factor of 86400000 ms per day, neither of which
      changes how two dates compare. */
  function DayNumber(d: Date): nat
    requires IsCalendarDate(d)
  {
    YearStart(d.year) + MonthStart(d.year, d.month) + d.day - 1
  }

  /** The twelve months add up to the year's length. */
  lemma MonthsFillYear(y: nat)
    ensures MonthStart(y, 13) == DaysInYear(y)
  {
    var feb := if IsLeapYear(y) then 29 else 28;
    assert MonthStart(y, 2) == 31;
    assert MonthStart(y, 3) == 31 + feb;
    assert MonthStart(y, 4) == 62 + feb;
    assert MonthStart(y, 5) == 92 + feb;
    assert MonthStart(y, 6) == 123 + feb;
    assert MonthStart(y, 7) == 153 + feb;
    assert MonthStart(y, 8) == 184 + feb;
    assert MonthStart(y, 9) == 215 + feb;
    assert MonthStart(y, 10) == 245 + feb;
    assert MonthStart(y, 11) == 276 + feb;
    assert MonthStart(y, 12) == 306 + feb;
  }

  /** Every day of an earlier month comes before the first of a later month. */
  lemma {:induction false} MonthStartGrows(y: nat, m1: nat, m2: nat)
    requires 1 <= m1 < m2 <= 13
    ensures MonthStart(y, m1) + DaysInMonth(y, m1) <= MonthStart(y, m2)
    decreases m2
  {
    if m2 > m1 + 1 {
      MonthStartGrows(y, m1, m2 - 1);
    }
  }

  /** Every day of an earlier year comes before the first of a later year. */
  lemma {:induction false} YearStartGrows(y1: nat, y2: nat)
    requires y1 < y2
    ensures YearStart(y1) + DaysInYear(y1) <= YearStart(y2)
    decreases y2
  {
    if y2 > y1 + 1 {
      YearStartGrows(y1, y2 - 1);
    }
  }

  /** Year, then month, then day: the order of dates on the calendar. */
  predicate DateLe(a: Date, b: Date) {
    || a.year < b.year
    || (a.year == b.year && a.month < b.month)
    || (a.year == b.year && a.month == b.month && a.day <= b.day)
  }

  /** A strictly earlier calendar date has a strictly smaller day number. */
  lemma DayNumberGrows(a: Date, b: Date)
    requires IsCalendarDate(a) && IsCalendarDate(b)
    requires DateLe(a, b) && a != b
    ensures DayNumber(a) < DayNumber(b)
  {
    if a.year < b.year {
      MonthStartGrows(a.year, a.month, 13);
      MonthsFillYear(a.year);
      YearStartGrows(a.year, b.year);
    } else if a.month < b.month {
      MonthStartGrows(a.year, a.month, b.month);
    }
  }

  /** Comparing day numbers is comparing year, month and day in turn. */
  lemma DayNumberOrder(a: Date, b: Date)
    requires IsCalendarDate(a) && IsCalendarDate(b)
    ensures DayNumber(a) <= DayNumber(b) <==> DateLe(a, b)
  {
    if a != b {
      if DateLe(a, b) {
        DayNumberGrows(a, b);
      } else {
        DayNumberGrows(b, a);
      }
    }
  }

  // ---------------------------------------------------------------- JavaScript dates

  /** A pattern-matching string that names a day on the calendar. */
  predicate IsValidDateString(s: string) {
    IsDateString(s) && IsCalendarDate(ParseDate(s))
  }

  /** A JavaScript `Date` object: either a day, or the Invalid Date (time value NaN). */
  datatype DateValue = Invalid | Valid(date: Date)

  /** `new Date(s)` as this model reads it: a `YYYY-MM-DD` string naming a calendar day
      gives that day; every other string is read as the Invalid Date. JavaScript also
      accepts other forms (`YYYY`, `YYYY-MM`, date-times, extended years); those are not
      modelled. */
  function ParseJsDate(s: string): (v: DateValue)
    ensures v.Valid? <==> IsValidDateString(s)
    ensures v.Valid? ==> IsCalendarDate(v.date) && ShowsAs(v, s)
  {
    if IsValidDateString(s) then
      DateStringRoundTrip(s);
      Valid(ParseDate(s))
    else Invalid
  }

  /** `v` is a day whose `YYYY-MM-DD` text is `s`. */
  predicate ShowsAs(v: DateValue, s: string) {
    v.Valid? && Formattable(v.date) && FormatDate(v.date) == s
  }

  /** `new Date(later) >= new Date(earlier)`: false as soon as either side is the
      Invalid Date, since every comparison with NaN is false. */
  predicate NotBefore(later: string, earlier: string) {
    var l := ParseJsDate(later);
    var e := ParseJsDate(earlier);
    l.Valid? && e.Valid? && DayNumber(l.date) >= DayNumber(e.date)
  }

  /** On two calendar-valid date strings, `>=` holds exactly when the first is the same
      day as the second or a later one; with an invalid side it never holds. */
  lemma NotBeforeMeansLater(later: string, earlier: string)
    ensures NotBefore(later, earlier) ==> IsValidDateString(later) && IsValidDateString(earlier)
    ensures IsValidDateString(later) && IsValidDateString(earlier) ==>
              (NotBefore(later, earlier) <==> DateLe(ParseDate(earlier), ParseDate(later)))
  {
    if IsValidDateString(later) && IsValidDateString(earlier) {
      DayNumberOrder(ParseDate(earlier), ParseDate(later));
    }
  }

  /** A calendar date is never before itself. */
  lemma NotBeforeReflexive(s: string)
    requires IsValidDateString(s)
    ensures NotBefore(s, s)
  {
  }
}

/** `date_to_weekday`: the English weekday name (`strftime("%A")`) of a remote
    date `yyyy-mm-dd` in the proleptic Gregorian calendar that Python's
    `datetime.date` uses. The weekday is computed from the day count since
    0001-01-01, a Monday, as `date.weekday()` does. */
module Calendar {
  import opened Wrappers
  import opened Faults
  import opened Text

  datatype Date = Date(year: int, month: int, day: int)

  const MinYear := 1
  const MaxYear := 9999

  predicate IsLeapYear(y: int) {
    y % 4 == 0 && (y % 100 != 0 || y % 400 == 0)
  }

  function DaysInMonth(y: int, m: int): (n: int)
    requires 1 <= m <= 12
    ensures 28 <= n <= 31
  {
    if m == 2 then (if IsLeapYear(y) then 29 else 28)
    else if m == 4 || m == 6 || m == 9 || m == 11 then 30
    else 31
  }

  /** The range `datetime.date` accepts; anything else raises `ValueError`. */
  predicate ValidDate(d: Date) {
    && MinYear <= d.year <= MaxYear
    && 1 <= d.month <= 12
    && 1 <= d.day <= DaysInMonth(d.year, d.month)
  }

  /** Days in the years 1 .. y-1. */
  function DaysBeforeYear(y: int): int
    requires y >= 1
  {
    var p := y - 1;
    365 * p + p / 4 - p / 100 + p / 400
  }

  /** Days in the months 1 .. m-1 of year y. */
  function DaysBeforeMonth(y: int, m: int): int
    requires 1 <= m <= 12
  {
    [0, 31, 59, 90, 120, 151, 181, 212, 243, 273, 304, 334][m - 1]
      + (if m > 2 && IsLeapYear(y) then 1 else 0)
  }

  /** `date.toordinal()`: 0001-01-01 is day 1. */
  function Ordinal(d: Date): (n: int)
    requires ValidDate(d)
    ensures n >= 1
  {
    DaysBeforeYear(d.year) + DaysBeforeMonth(d.year, d.month) + d.day
  }

  /** `date.weekday()`: 0 is Monday, 6 is Sunday. */
  function Weekday(d: Date): (w: int)
    requires ValidDate(d)
    ensures 0 <= w < 7
  {
    (Ordinal(d) + 6) % 7
  }

  const DayNames: seq<string> :=
    ["Monday", "Tuesday", "Wednesday", "Thursday", "Friday", "Saturday", "Sunday"]

  function DayName(d: Date): (name: string)
    requires ValidDate(d)
    ensures name in DayNames
  {
    DayNames[Weekday(d)]
  }

  /** The calendar day after `d`. */
  function NextDate(d: Date): Date
    requires ValidDate(d)
  {
    if d.day < DaysInMonth(d.year, d.month) then Date(d.year, d.month, d.day + 1)
    else if d.month < 12 then Date(d.year, d.month + 1, 1)
    else Date(d.year + 1, 1, 1)
  }

  /** `datetime.date(*(int(s) for s in d.split('-')))`: three digit strings
      whose values form a valid date, or nothing. */
  function ParseDate(s: string): (r: Option<Date>)
    ensures r.Some? ==> ValidDate(r.value)
  {
    var parts := Split(s, '-');
    if |parts| == 3 && IsDigits(parts[0]) && IsDigits(parts[1]) && IsDigits(parts[2]) then
      var d := Date(DigitsValue(parts[0]), DigitsValue(parts[1]), DigitsValue(parts[2]));
      if ValidDate(d) then Some(d) else None
    else None
  }

  /** The ISO 8601 extended form `yyyy-mm-dd` the remote service sends. */
  function FormatDate(d: Date): (s: string)
    requires ValidDate(d)
    ensures |s| == 10
  {
    Padded(d.year, 4) + "-" + Padded(d.month, 2) + "-" + Padded(d.day, 2)
  }

  /** `date_to_weekday(d)`: the weekday name, or the exception the date raises. */
  function DateToWeekday(s: string): (r: Result<string, Fault>)
    ensures r.Ok? <==> ParseDate(s).Some?
    ensures r.Ok? ==> r.value == DayName(ParseDate(s).value) && r.value in DayNames
    ensures r.Err? ==> r.error == InvalidDate(s)
  {
    match ParseDate(s)
    case Some(d) => Ok(DayName(d))
    case None => Err(InvalidDate(s))
  }

  /** A year has 365 days, 366 in a leap year. */
  lemma {:induction false} DaysInYear(y: int)
    requires y >= 1
    ensures DaysBeforeYear(y + 1) - DaysBeforeYear(y) == if IsLeapYear(y) then 366 else 365
  {
    assert y / 4 - (y - 1) / 4 == if y % 4 == 0 then 1 else 0;
    assert y / 100 - (y - 1) / 100 == if y % 100 == 0 then 1 else 0;
    assert y / 400 - (y - 1) / 400 == if y % 400 == 0 then 1 else 0;
  }

  /** Consecutive calendar days have consecutive ordinals. */
  lemma {:induction false} NextDateOrdinal(d: Date)
    requires ValidDate(d) && d != Date(MaxYear, 12, 31)
    ensures ValidDate(NextDate(d))
    ensures Ordinal(NextDate(d)) == Ordinal(d) + 1
  {
    if d.day == DaysInMonth(d.year, d.month) {
      if d.month < 12 {
        assert DaysBeforeMonth(d.year, d.month + 1) == DaysBeforeMonth(d.year, d.month) + DaysInMonth(d.year, d.month);
      } else {
        DaysInYear(d.year);
      }
    }
  }

  /** So the weekday of the next day is the next weekday, Sunday wrapping
      round to Monday. */
  lemma NextDateIsNextWeekday(d: Date)
    requires ValidDate(d) && d != Date(MaxYear, 12, 31)
    ensures ValidDate(NextDate(d))
    ensures Weekday(NextDate(d)) == (Weekday(d) + 1) % 7
  {
    NextDateOrdinal(d);
    WeekStep(Ordinal(d) + 6);
  }

  lemma WeekStep(x: int)
    ensures (x + 1) % 7 == (x % 7 + 1) % 7
  {
    var q, r := x / 7, x % 7;
    assert x == 7 * q + r && 0 <= r < 7;
    if r < 6 {
      assert x + 1 == 7 * q + (r + 1);
    } else {
      assert x + 1 == 7 * (q + 1);
    }
  }

  /** The epoch of the day count: 0001-01-01 is a Monday. */
  lemma EpochIsMonday()
    ensures ValidDate(Date(1, 1, 1))
    ensures Weekday(Date(1, 1, 1)) == 0 && DayNames[0] == "Monday"
  {
  }

  /** A date written in the ISO form parses back to itself. */
  lemma ParseFormatRoundTrip(d: Date)
    requires ValidDate(d)
    ensures ParseDate(FormatDate(d)) == Some(d)
  {
    var y, m, dd := Padded(d.year, 4), Padded(d.month, 2), Padded(d.day, 2);
    assert [y, m, dd][1..] == [m, dd] && [m, dd][1..] == [dd];
    assert Join([dd], '-') == dd;
    assert Join([m, dd], '-') == m + ['-'] + dd;
    assert Join([y, m, dd], '-') == y + ['-'] + (m + ['-'] + dd);
    assert FormatDate(d) == Join([y, m, dd], '-');
    SplitJoin([y, m, dd], '-');
    DigitsValuePadded(d.year, 4);
    DigitsValuePadded(d.month, 2);
    DigitsValuePadded(d.day, 2);
  }

  /** 2024-01-03 was a Wednesday. */
  lemma WeekdayExample()
    ensures DateToWeekday("2024-01-03") == Ok("Wednesday")
  {
    var d := Date(2024, 1, 3);
    FormatsAs(d);
    ParseFormatRoundTrip(d);
    assert DaysBeforeYear(2024) == 738885;
    assert Weekday(d) == 2;
  }

  lemma FormatsAs(d: Date)
    requires d == Date(2024, 1, 3)
    ensures ValidDate(d) && FormatDate(d) == "2024-01-03"
  {
    assert Padded(2024, 4) == "2024";
    assert Padded(1, 2) == "01";
    assert Padded(3, 2) == "03";
  }

  /** A month number 13 makes `datetime.date` raise. */
  lemma InvalidMonthExample()
    ensures DateToWeekday("2024-13-01") == Err(InvalidDate("2024-13-01"))
  {
    SplitsAs();
    assert DigitsValue("13") == 13;
  }

  lemma SplitsAs()
    ensures Split("2024-13-01", '-') == ["2024", "13", "01"]
  {
    var parts := ["2024", "13", "01"];
    assert parts[1..] == ["13", "01"] && parts[1..][1..] == ["01"];
    assert Join(parts, '-') == "2024-13-01";
    SplitJoin(parts, '-');
  }
}

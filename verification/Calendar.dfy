/** The proleptic Gregorian calendar. Times are in seconds since 1970. */
module Calendar {
  import opened Wrappers

  const I64_MAX := 0x7FFF_FFFF_FFFF_FFFF

  /** Fifty years of 365.2425 days. */
  const FIFTY_YEARS := 50 * 31_556_952

  const DAY := 86_400

  /** 365.25 days. */
  const JULIAN_YEAR := 31_557_600

  // ── Calendar ─────────────────────────────────────────────

  predicate IsLeap(year: int) { year % 4 == 0 && (year % 100 != 0 || year % 400 == 0) }

  function DaysInMonth(year: int, month: int): int {
    if month == 2 then (if IsLeap(year) then 29 else 28)
    else if month == 4 || month == 6 || month == 9 || month == 11 then 30
    else 31
  }

  /** Days since 1970-01-01 of a date of the proleptic Gregorian calendar. */
  function DaysFromCivil(year: int, month: int, day: int): int {
    var y := if month <= 2 then year - 1 else year;
    var era := y / 400;
    var yoe := y - era * 400;
    var mp := (month + 9) % 12;
    var doy := (153 * mp + 2) / 5 + day - 1;
    var doe := yoe * 365 + yoe / 4 - yoe / 100 + doy;
    era * 146_097 + doe - 719_468
  }

  /** The first year of `now`'s century, years counted as of 365.25 days. */
  function ThisCentury(now: int): int {
    var thisYear := 1970 + now / JULIAN_YEAR;
    thisYear - thisYear % 100
  }

  function Timestamp(year: int, month: int, day: int, seconds: int): Option<int> {
    if day < 1 || day > DaysInMonth(year, month) then None
    else Some(DaysFromCivil(year, month, day) * DAY + seconds)
  }

  datatype Date = Date(year: int, month: int, day: int) {
    predicate Valid() { 1 <= month <= 12 && 1 <= day <= DaysInMonth(year, month) }

    function Days(): int { DaysFromCivil(year, month, day) }

    function Next(): Date {
      if day < DaysInMonth(year, month) then Date(year, month, day + 1)
      else if month < 12 then Date(year, month + 1, 1)
      else Date(year + 1, 1, 1)
    }
  }

  /** Days before 1 March of year `y`, leap days counted. */
  function DaysBefore(y: int): int { 365 * y + y / 4 - y / 100 + y / 400 - 719_468 }

  /** Days from 1 March to the first of a month. */
  function DaysInto(month: int): int { (153 * ((month + 9) % 12) + 2) / 5 }

  lemma CivilByYears(year: int, month: int, day: int)
    ensures DaysFromCivil(year, month, day)
         == DaysBefore(if month <= 2 then year - 1 else year) + DaysInto(month) + day - 1
  {
    var y := if month <= 2 then year - 1 else year;
    EraSplits(y / 400, y % 400);
  }

  lemma EraSplits(era: int, yoe: int)
    requires 0 <= yoe < 400
    ensures var y := era * 400 + yoe;
      y / 400 == era && y / 4 == era * 100 + yoe / 4 && y / 100 == era * 4 + yoe / 100
  {}

  lemma OneMore(y: int)
    ensures y / 4 == (y - 1) / 4 + (if y % 4 == 0 then 1 else 0)
  {}

  lemma OneMoreCentury(y: int)
    ensures y / 100 == (y - 1) / 100 + (if y % 100 == 0 then 1 else 0)
  {}

  lemma OneMoreEra(y: int)
    ensures y / 400 == (y - 1) / 400 + (if y % 400 == 0 then 1 else 0)
  {}

  lemma ErasHaveCenturies(y: int)
    ensures (y % 400 == 0 ==> y % 100 == 0) && (y % 100 == 0 ==> y % 4 == 0)
  {
    var century := y / 100;
    assert y == 100 * century + y % 100;
    assert y % 400 == 0 ==> y == 100 * (4 * (y / 400));
    assert y % 100 == 0 ==> y == 4 * (25 * century);
  }

  lemma LeapDay(year: int)
    ensures DaysBefore(year) - DaysBefore(year - 1) == if IsLeap(year) then 366 else 365
  {
    OneMore(year);
    OneMoreCentury(year);
    OneMoreEra(year);
    ErasHaveCenturies(year);
  }

  lemma MonthTable(month: int)
    requires 1 <= month <= 12
    ensures DaysInto(month) == [306, 337, 0, 31, 61, 92, 122, 153, 184, 214, 245, 275][month - 1]
  {}

  /** The days count up by one from each date to the next, from 0 on 1 January 1970. */
  lemma NextDayCounts(d: Date)
    requires d.Valid()
    ensures d.Next().Valid() && d.Next().Days() == d.Days() + 1
    ensures Date(1970, 1, 1).Days() == 0
  {
    hide DaysFromCivil, DaysInto, DaysBefore, IsLeap;
    CivilByYears(d.year, d.month, d.day);
    CivilByYears(d.Next().year, d.Next().month, d.Next().day);
    MonthTable(d.month);
    MonthTable(d.Next().month);
    LeapDay(d.year);
    Epoch();
  }

  lemma Epoch()
    ensures DaysFromCivil(1970, 1, 1) == 0
  {}

  predicate Before(a: Date, b: Date) {
    a.year < b.year || (a.year == b.year && (a.month < b.month || (a.month == b.month && a.day < b.day)))
  }

  function FirstOf(year: int): Date { Date(year, 1, 1) }

  lemma {:induction false} YearsInOrder(a: int, b: int)
    requires a <= b
    ensures FirstOf(b).Days() - FirstOf(a).Days() >= 365 * (b - a)
    decreases b - a
  {
    if a < b {
      hide DaysFromCivil, DaysBefore, IsLeap;
      YearsInOrder(a + 1, b);
      CivilByYears(a, 1, 1);
      CivilByYears(a + 1, 1, 1);
      LeapDay(a);
    }
  }

  lemma WithinYear(d: Date)
    requires d.Valid()
    ensures FirstOf(d.year).Days() <= d.Days() < FirstOf(d.year + 1).Days()
  {
    hide DaysFromCivil, DaysInto, DaysBefore, IsLeap;
    CivilByYears(d.year, d.month, d.day);
    CivilByYears(d.year, 1, 1);
    CivilByYears(d.year + 1, 1, 1);
    MonthTable(d.month);
    MonthTable(1);
    LeapDay(d.year);
  }

  lemma {:induction false} MonthsInOrder(year: int, a: int, b: int)
    requires 1 <= a < b <= 12
    ensures Date(year, b, 1).Days() >= Date(year, a, 1).Days() + DaysInMonth(year, a)
    decreases b - a
  {
    NextDayCounts(Date(year, a, DaysInMonth(year, a)));
    if a + 1 < b {
      MonthsInOrder(year, a + 1, b);
    }
  }

  /** A later date has more days behind it: no two dates are the same day. */
  lemma DatesInOrder(a: Date, b: Date)
    requires a.Valid() && b.Valid() && Before(a, b)
    ensures a.Days() < b.Days()
  {
    if a.year < b.year {
      WithinYear(a);
      WithinYear(b);
      YearsInOrder(a.year + 1, b.year);
    } else if a.month < b.month {
      MonthsInOrder(a.year, a.month, b.month);
    }
  }
}

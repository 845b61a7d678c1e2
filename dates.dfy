/**
 * Calendar arithmetic behind `src/utils/dates.ts`: the proleptic Gregorian
 * calendar, the normalisation that the JavaScript `Date(year, month, day)`
 * constructor performs, and the two date helpers `getDaysInMonth` and
 * `getNextAvailableDay`.
 *
 * A calendar day is `Date(year, month, day)` with `month` counted from 0
 * (January) to 11 (December), as `Date.getMonth` does.  A point in time is a
 * `DateTime`: a day plus the minutes since local midnight.  Time zones,
 * daylight saving and seconds are not modelled.
 */
module Dates {
  import opened Arith

  datatype Date = Date(year: int, month: int, day: int)

  datatype DateTime = DateTime(date: Date, minute: int)

  const MinutesPerDay := 1440

  /** Gregorian leap years: every fourth year, except centuries not divisible by 400. */
  predicate IsLeapYear(year: int)
  {
    (year % 4 == 0 && year % 100 != 0) || year % 400 == 0
  }

  /** The number of days of a month of the Gregorian calendar. */
  function MonthLength(year: int, month: int): (n: int)
    requires 0 <= month < 12
    ensures 28 <= n <= 31
    ensures n == 29 <==> month == 1 && IsLeapYear(year)
  {
    if month == 1 then (if IsLeapYear(year) then 29 else 28)
    else if month == 3 || month == 5 || month == 8 || month == 10 then 30
    else 31
  }

  /** A day that exists in the calendar; every JavaScript `Date` denotes one. */
  predicate ValidDate(d: Date)
  {
    0 <= d.month < 12 && 1 <= d.day <= MonthLength(d.year, d.month)
  }

  predicate ValidDateTime(t: DateTime)
  {
    ValidDate(t.date) && 0 <= t.minute < MinutesPerDay
  }

  /**
   * The carrying that `new Date(year, month, day)` performs: a month outside
   * 0..11 carries into the year, and a day outside the month carries into
   * the neighbouring months.  The constructor's reading of a year from 0 to
   * 99 as 1900 + year is not part of this model.
   */
  function MakeDate(year: int, month: int, day: int): (d: Date)
    ensures ValidDate(d)
    decreases if day < 1 then 64 - day else day
  {
    var y := year + month / 12;
    var m := month % 12;
    if day < 1 then
      var py := if m == 0 then y - 1 else y;
      var pm := if m == 0 then 11 else m - 1;
      MakeDate(py, pm, day + MonthLength(py, pm))
    else if day > MonthLength(y, m) then
      MakeDate(y, m + 1, day - MonthLength(y, m))
    else
      Date(y, m, day)
  }

  /** The calendar day after `d`. */
  function NextDay(d: Date): (r: Date)
    requires ValidDate(d)
    ensures ValidDate(r)
  {
    if d.day < MonthLength(d.year, d.month) then Date(d.year, d.month, d.day + 1)
    else if d.month < 11 then Date(d.year, d.month + 1, 1)
    else Date(d.year + 1, 0, 1)
  }

  /**
   * Days since 1970-01-01, computed in a year that starts in March so that
   * the leap day is the last day of its year.
   */
  function DayNumber(d: Date): int
  {
    var y := MarchYear(d);
    365 * y + y / 4 - y / 100 + y / 400 + DaysFromMarch(d.month) + d.day - 1 - 719468
  }

  /** The year counted from March, so that January and February belong to the year before. */
  function MarchYear(d: Date): int
  {
    if d.month < 2 then d.year - 1 else d.year
  }

  /** Days from 1 March to the first of `month`, with January and February at the end of the year. */
  function DaysFromMarch(month: int): int
  {
    var mp := if month < 2 then month + 10 else month - 2;
    (153 * mp + 2) / 5
  }

  /** `Date.getDay`: 0 is Sunday and 6 is Saturday; 1970-01-01 was a Thursday. */
  function Weekday(d: Date): (w: int)
    ensures 0 <= w < 7
  {
    (DayNumber(d) + 4) % 7
  }

  predicate IsWeekend(d: Date)
  {
    Weekday(d) == 0 || Weekday(d) == 6
  }

  /** Two fixed points of the real calendar: 1 January 1970 and 1 February 2024 were Thursdays. */
  lemma WeekdayExamples()
    ensures Weekday(Date(1970, 0, 1)) == 4
    ensures Weekday(Date(2024, 1, 1)) == 4
    ensures Weekday(Date(2024, 1, 3)) == 6 && IsWeekend(Date(2024, 1, 3))
  {
  }

  /** JavaScript compares dates by their timestamps. */
  function Stamp(t: DateTime): int
  {
    DayNumber(t.date) * MinutesPerDay + t.minute
  }

  predicate Before(a: DateTime, b: DateTime)
  {
    Stamp(a) < Stamp(b)
  }

  /** `t` moved forward by `n` minutes, with the overflow carried into the day (`setMinutes`). */
  function AddMinutes(t: DateTime, n: int): DateTime
  {
    var total := t.minute + n;
    DateTime(MakeDate(t.date.year, t.date.month, t.date.day + total / MinutesPerDay), total % MinutesPerDay)
  }

  // ---------------------------------------------------------------------------
  // getDaysInMonth (src/utils/dates.ts:32-34)
  // ---------------------------------------------------------------------------

  /** `getDaysInMonth`: day 0 of the following month is the last day of this one. */
  function DaysInMonth(year: int, month: int): (n: int)
    ensures n == MonthLength(year + month / 12, month % 12)
    ensures 28 <= n <= 31
    ensures n == 29 <==> month % 12 == 1 && IsLeapYear(year + month / 12)
  {
    MakeDateDayZero(year, month);
    MakeDate(year, month + 1, 0).day
  }

  // ---------------------------------------------------------------------------
  // How MakeDate normalises the days that the source constructs
  // ---------------------------------------------------------------------------

  lemma MakeDateDayZero(year: int, month: int)
    ensures MakeDate(year, month + 1, 0)
         == Date(year + month / 12, month % 12, MonthLength(year + month / 12, month % 12))
  {
    var y := year + (month + 1) / 12;
    var m := (month + 1) % 12;
    var py := if m == 0 then y - 1 else y;
    var pm := if m == 0 then 11 else m - 1;
    assert py == year + month / 12 && pm == month % 12;
  }

  /** A day inside its month is left alone. */
  lemma MakeDateOfValid(d: Date)
    requires ValidDate(d)
    ensures MakeDate(d.year, d.month, d.day) == d
  {
  }

  /** Days 0, -1, ... of a month are the last days of the month before it. */
  lemma MakeDateBeforeMonth(year: int, month: int, day: int)
    requires 0 <= month < 12 && -27 <= day <= 0
    ensures var p := if month == 0 then Date(year - 1, 11, 1) else Date(year, month - 1, 1);
            MakeDate(year, month, day) == Date(p.year, p.month, MonthLength(p.year, p.month) + day)
  {
  }

  /** Day `day` (1..28) of the month after `month` is that day of the following month, January of the next year after December. */
  lemma MakeDateFollowingMonth(year: int, month: int, day: int)
    requires 0 <= month < 12 && 1 <= day <= 28
    ensures var q := if month == 11 then Date(year + 1, 0, day) else Date(year, month + 1, day);
            MakeDate(year, month + 1, day) == q
  {
  }

  /** `setDate(getDate() + 1)` is the next calendar day. */
  lemma MakeDateTomorrow(d: Date)
    requires ValidDate(d)
    ensures MakeDate(d.year, d.month, d.day + 1) == NextDay(d)
  {
    assert d.month / 12 == 0 && d.month % 12 == d.month;
    if d.day + 1 > MonthLength(d.year, d.month) {
      MakeDateFollowingMonth(d.year, d.month, 1);
    }
  }

  /** `setDate(getDate() + 2)` is the day after the next. */
  lemma MakeDateInTwoDays(d: Date)
    requires ValidDate(d)
    ensures MakeDate(d.year, d.month, d.day + 2) == NextDay(NextDay(d))
  {
    var n := MonthLength(d.year, d.month);
    assert d.month / 12 == 0 && d.month % 12 == d.month;
    if d.day + 2 > n {
      MakeDateFollowingMonth(d.year, d.month, d.day + 2 - n);
    }
  }

  // ---------------------------------------------------------------------------
  // Day numbers advance by one from each day to the next
  // ---------------------------------------------------------------------------

  /** The leap days counted by the day-number formula from March-year `y - 1` to `y`. */
  lemma LeapDayCount(y: int)
    ensures (y / 4 - (y - 1) / 4) - (y / 100 - (y - 1) / 100) + (y / 400 - (y - 1) / 400)
         == if IsLeapYear(y) then 1 else 0
  {
    DivStep(y, 4);
    DivStep(y, 100);
    DivStep(y, 400);
  }

  lemma {:induction false} NextDayNumber(d: Date)
    requires ValidDate(d)
    ensures DayNumber(NextDay(d)) == DayNumber(d) + 1
  {
    var e := NextDay(d);
    if d.day < MonthLength(d.year, d.month) {
      assert e == Date(d.year, d.month, d.day + 1);
    } else if d.month == 1 {
      assert e == Date(d.year, 2, 1);
      assert DaysFromMarch(1) == 337 && DaysFromMarch(2) == 0;
      LeapDayCount(d.year);
    } else {
      MonthsFollow(d.year, d.month);
      if d.month < 11 {
        assert e == Date(d.year, d.month + 1, 1);
        assert MarchYear(e) == MarchYear(d);
      } else {
        assert e == Date(d.year + 1, 0, 1);
        assert MarchYear(e) == MarchYear(d);
      }
    }
  }

  /** Outside February, the next month starts `MonthLength` days after this one. */
  lemma MonthsFollow(year: int, month: int)
    requires 0 <= month < 12 && month != 1
    ensures DaysFromMarch((month + 1) % 12) == DaysFromMarch(month) + MonthLength(year, month)
  {
    if month == 0 {
    } else if month == 2 {
    } else if month == 3 {
    } else if month == 4 {
    } else if month == 5 {
    } else if month == 6 {
    } else if month == 7 {
    } else if month == 8 {
    } else if month == 9 {
    } else if month == 10 {
    } else {
    }
  }

  /** The weekday advances by one from each day to the next, Saturday wrapping to Sunday. */
  lemma NextDayWeekday(d: Date)
    requires ValidDate(d)
    ensures Weekday(NextDay(d)) == if Weekday(d) == 6 then 0 else Weekday(d) + 1
  {
    NextDayNumber(d);
    WeekdayStep(DayNumber(d) + 4);
  }

  lemma WeekdayStep(a: int)
    ensures (a + 1) % 7 == (a % 7 + 1) % 7
  {
  }

  /** The day `k` days after `d`, for `k` from 1 to 3. */
  lemma DaysAhead(d: Date)
    requires ValidDate(d)
    ensures DayNumber(NextDay(d)) == DayNumber(d) + 1
    ensures DayNumber(NextDay(NextDay(d))) == DayNumber(d) + 2
    ensures DayNumber(NextDay(NextDay(NextDay(d)))) == DayNumber(d) + 3
  {
    NextDayNumber(d);
    NextDayNumber(NextDay(d));
    NextDayNumber(NextDay(NextDay(d)));
  }

  // ---------------------------------------------------------------------------
  // getNextAvailableDay (src/utils/dates.ts:71-77)
  // ---------------------------------------------------------------------------

  /**
   * `getNextAvailableDay`: tomorrow, moved on by one day when it is a Sunday
   * and by two when it is a Saturday.  The time of day is kept.  The default
   * argument `new Date()` is a clock read and is passed in by the caller.
   */
  method GetNextAvailableDay(currentDate: DateTime) returns (nextDay: DateTime)
    requires ValidDateTime(currentDate)
    ensures ValidDateTime(nextDay) && nextDay.minute == currentDate.minute
    ensures !IsWeekend(nextDay.date)
    ensures var c := currentDate.date;
            || nextDay.date == NextDay(c)
            || (IsWeekend(NextDay(c)) && nextDay.date == NextDay(NextDay(c)))
            || (IsWeekend(NextDay(c)) && IsWeekend(NextDay(NextDay(c))) && nextDay.date == NextDay(NextDay(NextDay(c))))
    ensures !IsWeekend(NextDay(currentDate.date)) ==> nextDay.date == NextDay(currentDate.date)
  {
    var d := currentDate.date;
    MakeDateTomorrow(d);
    NextDayWeekday(d);
    nextDay := DateTime(MakeDate(d.year, d.month, d.day + 1), currentDate.minute);
    if Weekday(nextDay.date) == 0 {
      var sunday := nextDay.date;
      MakeDateTomorrow(sunday);
      NextDayWeekday(sunday);
      nextDay := DateTime(MakeDate(sunday.year, sunday.month, sunday.day + 1), nextDay.minute);
    }
    if Weekday(nextDay.date) == 6 {
      var saturday := nextDay.date;
      MakeDateInTwoDays(saturday);
      NextDayWeekday(saturday);
      NextDayWeekday(NextDay(saturday));
      nextDay := DateTime(MakeDate(saturday.year, saturday.month, saturday.day + 2), nextDay.minute);
    }
  }

  /** The day `getNextAvailableDay` returns lies one to three days ahead. */
  lemma NextAvailableDayDistance(c: Date, e: Date)
    requires ValidDate(c)
    requires e == NextDay(c) || e == NextDay(NextDay(c)) || e == NextDay(NextDay(NextDay(c)))
    ensures 1 <= DayNumber(e) - DayNumber(c) <= 3
  {
    DaysAhead(c);
  }
}

/**
 * The month view of `src/components/ui/Calendar.tsx`: the grid of days
 * padded to whole weeks that start on Sunday, the month navigation, and the
 * rule that decides which days may be picked.
 */
module CalendarGrid {
  import opened Arith
  import opened Dates
  import opened Options

  // ---------------------------------------------------------------------------
  // Month navigation (src/components/ui/Calendar.tsx:60-80)
  // ---------------------------------------------------------------------------

  /** A month of a year, counted from 0 (January) to 11, as the component keeps them. */
  datatype YearMonth = YearMonth(year: int, month: int)

  /** The absolute month count: twelve per year. */
  function MonthIndex(ym: YearMonth): int
  {
    ym.year * 12 + ym.month
  }

  predicate ValidMonth(ym: YearMonth)
  {
    0 <= ym.month < 12
  }

  /** The month shown after "previous month": one month earlier, January going to December of the year before. */
  function PreviousMonth(ym: YearMonth): (r: YearMonth)
    requires ValidMonth(ym)
    ensures ValidMonth(r) && MonthIndex(r) == MonthIndex(ym) - 1
  {
    var newMonth := ym.month - 1;
    if newMonth < 0 then YearMonth(ym.year - 1, 11) else YearMonth(ym.year, newMonth)
  }

  /** The month shown after "next month": one month later, December going to January of the year after. */
  function NextMonth(ym: YearMonth): (r: YearMonth)
    requires ValidMonth(ym)
    ensures ValidMonth(r) && MonthIndex(r) == MonthIndex(ym) + 1
  {
    var newMonth := ym.month + 1;
    if newMonth > 11 then YearMonth(ym.year + 1, 0) else YearMonth(ym.year, newMonth)
  }

  /** A valid month is determined by its month count. */
  lemma MonthIndexInjective(a: YearMonth, b: YearMonth)
    requires ValidMonth(a) && ValidMonth(b) && MonthIndex(a) == MonthIndex(b)
    ensures a == b
  {
    DivModUnique(MonthIndex(a), 12, a.year, a.month);
    DivModUnique(MonthIndex(b), 12, b.year, b.month);
  }

  /** Going back and then forward returns to the month shown, and so does the reverse. */
  lemma NavigationRoundTrip(ym: YearMonth)
    requires ValidMonth(ym)
    ensures NextMonth(PreviousMonth(ym)) == ym
    ensures PreviousMonth(NextMonth(ym)) == ym
  {
    MonthIndexInjective(NextMonth(PreviousMonth(ym)), ym);
    MonthIndexInjective(PreviousMonth(NextMonth(ym)), ym);
  }

  /** The wrap across the year boundary, in both directions. */
  lemma NavigationWraps(ym: YearMonth)
    requires ValidMonth(ym)
    ensures PreviousMonth(ym) == if ym.month == 0 then YearMonth(ym.year - 1, 11) else YearMonth(ym.year, ym.month - 1)
    ensures NextMonth(ym) == if ym.month == 11 then YearMonth(ym.year + 1, 0) else YearMonth(ym.year, ym.month + 1)
  {
    if ym.month == 0 {
      MonthIndexInjective(PreviousMonth(ym), YearMonth(ym.year - 1, 11));
    } else {
      MonthIndexInjective(PreviousMonth(ym), YearMonth(ym.year, ym.month - 1));
    }
    if ym.month == 11 {
      MonthIndexInjective(NextMonth(ym), YearMonth(ym.year + 1, 0));
    } else {
      MonthIndexInjective(NextMonth(ym), YearMonth(ym.year, ym.month + 1));
    }
  }

  // ---------------------------------------------------------------------------
  // The grid (src/components/ui/Calendar.tsx:28-57)
  // ---------------------------------------------------------------------------

  /** The weekday of the 1st: the number of days of the month before that open the grid. */
  function FirstWeekday(ym: YearMonth): int
  {
    Weekday(Date(ym.year, ym.month, 1))
  }

  /**
   * `days` is the grid of month `ym`: the last `FirstWeekday` days of the
   * month before, then every day of the month, then the first days of the
   * month after, as few as make the length a multiple of seven.
   */
  ghost predicate IsMonthGrid(days: seq<Date>, ym: YearMonth)
    requires ValidMonth(ym)
  {
    var w := FirstWeekday(ym);
    var n := MonthLength(ym.year, ym.month);
    var p := PreviousMonth(ym);
    var q := NextMonth(ym);
    && w + n <= |days| < w + n + 7
    && |days| % 7 == 0
    && (forall i :: 0 <= i < w ==> days[i] == Date(p.year, p.month, MonthLength(p.year, p.month) - w + 1 + i))
    && (forall i :: w <= i < w + n ==> days[i] == Date(ym.year, ym.month, i - w + 1))
    && (forall i :: w + n <= i < |days| ==> days[i] == Date(q.year, q.month, i - w - n + 1))
  }

  /** The padding of line 51 completes the last week. */
  lemma PadToWeek(len: int)
    requires len >= 0
    ensures var t := 7 - (if len % 7 == 0 then 7 else len % 7);
            0 <= t < 7 && (len + t) % 7 == 0
  {
    var t := 7 - (if len % 7 == 0 then 7 else len % 7);
    if len % 7 == 0 {
      DivModUnique(len + t, 7, len / 7, 0);
    } else {
      DivModUnique(len + t, 7, len / 7 + 1, 0);
    }
  }

  /** Entry `i` of the `w` leading ones: day `-w + i + 1` of the month is a late day of the month before. */
  lemma LeadingEntry(ym: YearMonth, w: int, i: int)
    requires ValidMonth(ym) && 0 <= i < w <= 6
    ensures var p := PreviousMonth(ym);
            MakeDate(ym.year, ym.month, -w + i + 1) == Date(p.year, p.month, MonthLength(p.year, p.month) - w + 1 + i)
  {
    NavigationWraps(ym);
    MakeDateBeforeMonth(ym.year, ym.month, -w + i + 1);
  }

  /** Day `i` of the following month, for the trailing entries. */
  lemma TrailingEntry(ym: YearMonth, i: int)
    requires ValidMonth(ym) && 1 <= i <= 7
    ensures var q := NextMonth(ym);
            MakeDate(ym.year, ym.month + 1, i) == Date(q.year, q.month, i)
  {
    NavigationWraps(ym);
    MakeDateFollowingMonth(ym.year, ym.month, i);
  }

  /**
   * The grid-building effect: the leading days of the month before, the
   * days of the month, and the padding to the end of the week, each pushed
   * by its own loop.
   */
  method BuildMonthGrid(ym: YearMonth) returns (days: seq<Date>)
    requires ValidMonth(ym)
    ensures IsMonthGrid(days, ym)
  {
    var currentYear, currentMonth := ym.year, ym.month;
    MakeDateOfValid(Date(currentYear, currentMonth, 1));
    var firstDayOfWeek := Weekday(MakeDate(currentYear, currentMonth, 1));
    var daysInMonth := DaysInMonth(currentYear, currentMonth);
    assert currentMonth / 12 == 0 && currentMonth % 12 == currentMonth;
    days := PushLeadingDays(ym, firstDayOfWeek);
    days := PushMonthDays(ym, days, daysInMonth);
    var remainingDays := 7 - (if |days| % 7 == 0 then 7 else |days| % 7);
    PadToWeek(|days|);
    ghost var filled := |days|;
    days := PushTrailingDays(ym, days, remainingDays);
    GridAssembled(days, ym, firstDayOfWeek, filled);
  }

  /** The loop of lines 40-43: days `1 - w` to 0 of the month, the last `w` days of the month before. */
  method PushLeadingDays(ym: YearMonth, firstDayOfWeek: int) returns (days: seq<Date>)
    requires ValidMonth(ym) && 0 <= firstDayOfWeek <= 6
    ensures |days| == firstDayOfWeek
    ensures var p := PreviousMonth(ym);
            forall k :: 0 <= k < firstDayOfWeek ==>
              days[k] == Date(p.year, p.month, MonthLength(p.year, p.month) - firstDayOfWeek + 1 + k)
  {
    ghost var p := PreviousMonth(ym);
    ghost var lead := MonthLength(p.year, p.month) - firstDayOfWeek + 1;
    days := [];
    for i := 0 to firstDayOfWeek
      invariant |days| == i
      invariant forall k :: 0 <= k < i ==> days[k] == Date(p.year, p.month, lead + k)
    {
      LeadingEntry(ym, firstDayOfWeek, i);
      var prevMonthDay := MakeDate(ym.year, ym.month, -firstDayOfWeek + i + 1);
      days := days + [prevMonthDay];
    }
  }

  /** The loop of lines 46-48: days 1 to `daysInMonth` of the month, after what `days` holds. */
  method PushMonthDays(ym: YearMonth, days0: seq<Date>, daysInMonth: int) returns (days: seq<Date>)
    requires ValidMonth(ym) && daysInMonth == MonthLength(ym.year, ym.month)
    ensures |days| == |days0| + daysInMonth && (forall k :: 0 <= k < |days0| ==> days[k] == days0[k])
    ensures forall k :: |days0| <= k < |days| ==> days[k] == Date(ym.year, ym.month, k - |days0| + 1)
  {
    days := days0;
    for i := 1 to daysInMonth + 1
      invariant |days| == |days0| + i - 1 && (forall k :: 0 <= k < |days0| ==> days[k] == days0[k])
      invariant forall k :: |days0| <= k < |days| ==> days[k] == Date(ym.year, ym.month, k - |days0| + 1)
    {
      MakeDateOfValid(Date(ym.year, ym.month, i));
      var monthDay := MakeDate(ym.year, ym.month, i);
      days := days + [monthDay];
    }
  }

  /** The loop of lines 52-54: days 1 to `remainingDays` of the month after. */
  method PushTrailingDays(ym: YearMonth, days0: seq<Date>, remainingDays: int) returns (days: seq<Date>)
    requires ValidMonth(ym) && 0 <= remainingDays < 7
    ensures |days| == |days0| + remainingDays && (forall k :: 0 <= k < |days0| ==> days[k] == days0[k])
    ensures var q := NextMonth(ym);
            forall k :: |days0| <= k < |days| ==> days[k] == Date(q.year, q.month, k - |days0| + 1)
  {
    ghost var q := NextMonth(ym);
    days := days0;
    for i := 1 to remainingDays + 1
      invariant |days| == |days0| + i - 1 && (forall k :: 0 <= k < |days0| ==> days[k] == days0[k])
      invariant forall k :: |days0| <= k < |days| ==> days[k] == Date(q.year, q.month, k - |days0| + 1)
    {
      TrailingEntry(ym, i);
      var nextMonthDay := MakeDate(ym.year, ym.month + 1, i);
      days := days + [nextMonthDay];
    }
  }

  /** The three parts the loops build make up the grid. */
  lemma GridAssembled(days: seq<Date>, ym: YearMonth, w: int, filled: int)
    requires ValidMonth(ym) && w == FirstWeekday(ym) && filled == w + MonthLength(ym.year, ym.month)
    requires filled <= |days| < filled + 7 && |days| % 7 == 0
    requires var p := PreviousMonth(ym);
             forall k :: 0 <= k < w ==> days[k] == Date(p.year, p.month, MonthLength(p.year, p.month) - w + 1 + k)
    requires forall k :: w <= k < filled ==> days[k] == Date(ym.year, ym.month, k - w + 1)
    requires var q := NextMonth(ym);
             forall k :: filled <= k < |days| ==> days[k] == Date(q.year, q.month, k - filled + 1)
    ensures IsMonthGrid(days, ym)
  {
  }

  /** A grid holds four to six weeks. */
  lemma GridLength(days: seq<Date>, ym: YearMonth)
    requires ValidMonth(ym) && IsMonthGrid(days, ym)
    ensures |days| % 7 == 0 && 28 <= |days| <= 42
  {
    DivModUnique(|days|, 7, |days| / 7, 0);
  }

  /** Every grid entry is a day of the calendar. */
  lemma GridValid(days: seq<Date>, ym: YearMonth)
    requires ValidMonth(ym) && IsMonthGrid(days, ym)
    ensures forall i :: 0 <= i < |days| ==> ValidDate(days[i])
  {
  }

  /** Each grid entry is the day after the one before it. */
  lemma GridConsecutive(days: seq<Date>, ym: YearMonth)
    requires ValidMonth(ym) && IsMonthGrid(days, ym)
    ensures forall i :: 0 < i < |days| ==> days[i] == NextDay(days[i - 1])
  {
    NavigationWraps(ym);
    var w := FirstWeekday(ym);
    var n := MonthLength(ym.year, ym.month);
    forall i | 0 < i < |days|
      ensures days[i] == NextDay(days[i - 1])
    {
      if i == w || i == w + n {
        assert days[i].day == 1;
      }
    }
  }

  /** Consecutive days have consecutive day numbers. */
  lemma {:induction false} ConsecutiveDayNumbers(s: seq<Date>, i: int)
    requires forall k :: 0 <= k < |s| ==> ValidDate(s[k])
    requires forall k :: 0 < k < |s| ==> s[k] == NextDay(s[k - 1])
    requires 0 <= i < |s|
    ensures DayNumber(s[i]) == DayNumber(s[0]) + i
  {
    if i > 0 {
      ConsecutiveDayNumbers(s, i - 1);
      NextDayNumber(s[i - 1]);
    }
  }

  /** Grid entry `i` is `i` days after the first. */
  lemma GridDayNumbers(days: seq<Date>, ym: YearMonth)
    requires ValidMonth(ym) && IsMonthGrid(days, ym)
    ensures forall i :: 0 <= i < |days| ==> DayNumber(days[i]) == DayNumber(days[0]) + i
  {
    GridValid(days, ym);
    GridConsecutive(days, ym);
    forall i | 0 <= i < |days|
      ensures DayNumber(days[i]) == DayNumber(days[0]) + i
    {
      ConsecutiveDayNumbers(days, i);
    }
  }

  /** Column `i % 7` of the grid is weekday `i % 7`: the weeks start on Sunday. */
  lemma GridWeekdays(days: seq<Date>, ym: YearMonth)
    requires ValidMonth(ym) && IsMonthGrid(days, ym)
    ensures forall i :: 0 <= i < |days| ==> Weekday(days[i]) == i % 7
  {
    GridDayNumbers(days, ym);
    var w := FirstWeekday(ym);
    assert days[w] == Date(ym.year, ym.month, 1);
    var a := DayNumber(days[0]) + 4;
    var q := (a + w) / 7;
    DivModUnique(a + w, 7, q, w);
    forall i | 0 <= i < |days|
      ensures Weekday(days[i]) == i % 7
    {
      DivModUnique(a + i, 7, q + i / 7, i % 7);
    }
  }

  /** The grid starts on a Sunday. */
  lemma GridStartsOnSunday(days: seq<Date>, ym: YearMonth)
    requires ValidMonth(ym) && IsMonthGrid(days, ym)
    ensures |days| > 0 && Weekday(days[0]) == 0
  {
    GridWeekdays(days, ym);
  }

  /** Only the entries of the month shown carry its month number. */
  lemma GridMonths(days: seq<Date>, ym: YearMonth, i: int)
    requires ValidMonth(ym) && IsMonthGrid(days, ym) && 0 <= i < |days|
    ensures days[i].month == ym.month <==> FirstWeekday(ym) <= i < FirstWeekday(ym) + MonthLength(ym.year, ym.month)
  {
    NavigationWraps(ym);
  }

  /** Two grid entries are never the same day. */
  lemma GridDistinct(days: seq<Date>, ym: YearMonth)
    requires ValidMonth(ym) && IsMonthGrid(days, ym)
    ensures forall i, j :: 0 <= i < j < |days| ==> DayNumber(days[i]) < DayNumber(days[j])
  {
    GridDayNumbers(days, ym);
  }

  /**
   * February 2024 opens on a Thursday and has 29 days: its grid is five
   * weeks, from Sunday 28 January to Saturday 2 March.
   */
  lemma February2024Grid(days: seq<Date>)
    requires IsMonthGrid(days, YearMonth(2024, 1))
    ensures |days| == 35
    ensures days[0] == Date(2024, 0, 28) && days[4] == Date(2024, 1, 1)
    ensures days[32] == Date(2024, 1, 29) && days[34] == Date(2024, 2, 2)
  {
    WeekdayExamples();
  }

  // ---------------------------------------------------------------------------
  // The component (src/components/ui/Calendar.tsx:13-122)
  // ---------------------------------------------------------------------------

  /**
   * The calendar's state.  `minDate` defaults to the time of the first
   * render, a clock read, and is passed in; a `Date` object is never falsy,
   * so the lower bound always applies.  The upper bound is optional.
   */
  class Calendar {
    var currentMonth: int
    var currentYear: int
    var calendarDays: seq<Date>
    const selectedDate: Date
    const minDate: DateTime
    const maxDate: Option<DateTime>

    function Shown(): YearMonth
      reads this
    {
      YearMonth(currentYear, currentMonth)
    }

    /** The month shown is a real month and the grid is the one built for it. */
    ghost predicate Valid()
      reads this
    {
      ValidMonth(Shown()) && IsMonthGrid(calendarDays, Shown())
    }

    /** The first render shows the month of the selected date; the grid effect then fills the days. */
    constructor (selectedDate: Date, minDate: DateTime, maxDate: Option<DateTime>)
      requires ValidDate(selectedDate)
      ensures Valid()
      ensures Shown() == YearMonth(selectedDate.year, selectedDate.month)
      ensures this.selectedDate == selectedDate && this.minDate == minDate && this.maxDate == maxDate
    {
      var days := BuildMonthGrid(YearMonth(selectedDate.year, selectedDate.month));
      this.selectedDate := selectedDate;
      this.minDate := minDate;
      this.maxDate := maxDate;
      currentMonth := selectedDate.month;
      currentYear := selectedDate.year;
      calendarDays := days;
    }

    /** `goToPreviousMonth`, followed by the grid effect it triggers. */
    method GoToPreviousMonth()
      requires Valid()
      modifies this
      ensures Valid()
      ensures Shown() == PreviousMonth(old(Shown()))
    {
      var newMonth := currentMonth - 1;
      if newMonth < 0 {
        currentYear := currentYear - 1;
        currentMonth := 11;
      } else {
        currentMonth := newMonth;
      }
      calendarDays := BuildMonthGrid(Shown());
    }

    /** `goToNextMonth`, followed by the grid effect it triggers. */
    method GoToNextMonth()
      requires Valid()
      modifies this
      ensures Valid()
      ensures Shown() == NextMonth(old(Shown()))
    {
      var newMonth := currentMonth + 1;
      if newMonth > 11 {
        currentYear := currentYear + 1;
        currentMonth := 0;
      } else {
        currentMonth := newMonth;
      }
      calendarDays := BuildMonthGrid(Shown());
    }

    /**
     * `isDateSelectable` for a day at midnight, as the grid entries are:
     * in the month shown (the year is not compared), not before `minDate`,
     * not after `maxDate` when there is one, and not a Saturday or Sunday.
     */
    predicate IsDateSelectable(date: Date)
      reads this
    {
      && date.month == currentMonth
      && !Before(DateTime(date, 0), minDate)
      && (maxDate.Some? ==> !Before(maxDate.value, DateTime(date, 0)))
      && !IsWeekend(date)
    }

    /**
     * The selectable grid entries are exactly the days of the month shown
     * that sit in the Monday to Friday columns and within the bounds.
     */
    lemma SelectableGridEntries(i: int)
      requires Valid() && 0 <= i < |calendarDays|
      ensures IsDateSelectable(calendarDays[i])
          <==> && FirstWeekday(Shown()) <= i < FirstWeekday(Shown()) + MonthLength(currentYear, currentMonth)
               && i % 7 != 0 && i % 7 != 6
               && !Before(DateTime(calendarDays[i], 0), minDate)
               && (maxDate.Some? ==> !Before(maxDate.value, DateTime(calendarDays[i], 0)))
    {
      GridWeekdays(calendarDays, Shown());
      GridMonths(calendarDays, Shown(), i);
    }

    /** `isSelectedDate`: day, month and year all match. */
    function IsSelectedDate(date: Date): (r: bool)
      ensures r <==> date == selectedDate
    {
      date.day == selectedDate.day && date.month == selectedDate.month && date.year == selectedDate.year
    }

    /** At most one grid entry is highlighted as selected. */
    lemma AtMostOneSelected(i: int, j: int)
      requires Valid() && 0 <= i < j < |calendarDays|
      ensures !(IsSelectedDate(calendarDays[i]) && IsSelectedDate(calendarDays[j]))
    {
      GridDistinct(calendarDays, Shown());
    }

    /** `handleDateClick`: the day is passed to `onDateSelect` only when it is selectable. */
    method HandleDateClick(date: Date) returns (selected: Option<Date>)
      ensures selected.Some? <==> IsDateSelectable(date)
      ensures selected.Some? ==> selected.value == date && !IsWeekend(date) && date.month == currentMonth
    {
      if IsDateSelectable(date) {
        selected := Some(date);
      } else {
        selected := None;
      }
    }
  }
}

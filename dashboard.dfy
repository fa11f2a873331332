/** The availability logic of the Dashboard page: which calendar days are
    disabled, which clicks select a day, and the month and day the page asks
    the backend about. */
module Dashboard {

  /** A calendar date as the page reads it off a JS `Date`: full year,
      0-based month (`getMonth()`), day of the month (`getDate()`). */
  datatype Date = Date(year: int, month0: int, day: int)

  /** `MonthAvailabilityItem`: one day of the month and whether it is free. */
  datatype MonthAvailabilityItem = MonthAvailabilityItem(day: int, available: bool)

  /** The modifiers DayPicker passes to `onDayClick`. */
  datatype DayModifiers = DayModifiers(available: bool, disabled: bool)

  /** One entry of the calendar's `disabledDays` prop. */
  datatype DayMatcher = DaysOfWeek(weekdays: set<int>) | OnDate(date: Date)

  /** Parameters of `GET /providers/:id/month-availability`. */
  datatype MonthQuery = MonthQuery(providerId: string, year: int, month: int)

  /** Parameters of `GET /appointments/me`. */
  datatype DayQuery = DayQuery(year: int, month: int, day: int)

  /** The weekend rule of the calendar: Sunday and Saturday. */
  const WeekendDays: set<int> := {0, 6}

  /** The weekdays the `available` modifier covers: Monday to Friday. */
  const AvailableWeekdays: set<int> := {1, 2, 3, 4, 5}

  /** A month of a JS `Date`: `getMonth()` is in 0..11. */
  predicate ValidMonth(d: Date)
  {
    0 <= d.month0 < 12
  }

  /** The `disabledDays` memo: the unavailable entries, in order, each as a
      date in the current month. */
  function DisabledDays(availability: seq<MonthAvailabilityItem>, currentMonth: Date): (dates: seq<Date>)
    ensures |dates| <= |availability|
    ensures forall k | 0 <= k < |dates| ::
      dates[k].year == currentMonth.year && dates[k].month0 == currentMonth.month0
  {
    if availability == [] then []
    else
      var rest := DisabledDays(availability[1..], currentMonth);
      if availability[0].available == false
      then [Date(currentMonth.year, currentMonth.month0, availability[0].day)] + rest
      else rest
  }

  /** A date is disabled exactly when it lies in the current month and some
      unavailable entry names its day. */
  lemma {:induction false} DisabledDaysMembership(availability: seq<MonthAvailabilityItem>, currentMonth: Date, d: Date)
    ensures d in DisabledDays(availability, currentMonth) <==>
      d.year == currentMonth.year && d.month0 == currentMonth.month0 &&
      exists i | 0 <= i < |availability| :: !availability[i].available && availability[i].day == d.day
    decreases |availability|
  {
    if availability != [] {
      var tail := availability[1..];
      DisabledDaysMembership(tail, currentMonth, d);
      if exists i | 0 <= i < |availability| :: !availability[i].available && availability[i].day == d.day {
        var i :| 0 <= i < |availability| && !availability[i].available && availability[i].day == d.day;
        if i > 0 { assert tail[i - 1] == availability[i]; }
      }
      if exists i | 0 <= i < |tail| :: !tail[i].available && tail[i].day == d.day {
        var i :| 0 <= i < |tail| && !tail[i].available && tail[i].day == d.day;
        assert availability[i + 1] == tail[i];
      }
    }
  }

  /** Input order is kept: the disabled days of a concatenation are those of
      its parts, one after the other. */
  lemma {:induction false} DisabledDaysAppend(a: seq<MonthAvailabilityItem>, b: seq<MonthAvailabilityItem>, currentMonth: Date)
    ensures DisabledDays(a + b, currentMonth) == DisabledDays(a, currentMonth) + DisabledDays(b, currentMonth)
    decreases |a|
  {
    if a == [] {
      assert a + b == b;
    } else {
      assert (a + b)[0] == a[0];
      assert (a + b)[1..] == a[1..] + b;
      DisabledDaysAppend(a[1..], b, currentMonth);
    }
  }

  /** No date is disabled exactly when every entry is available, and every
      entry gives a date exactly when none is. */
  lemma {:induction false} DisabledDaysExtremes(availability: seq<MonthAvailabilityItem>, currentMonth: Date)
    ensures DisabledDays(availability, currentMonth) == [] <==>
      forall i | 0 <= i < |availability| :: availability[i].available
    ensures |DisabledDays(availability, currentMonth)| == |availability| <==>
      forall i | 0 <= i < |availability| :: !availability[i].available
    decreases |availability|
  {
    if availability != [] {
      var tail := availability[1..];
      DisabledDaysExtremes(tail, currentMonth);
      assert forall i | 0 <= i < |tail| :: tail[i] == availability[i + 1];
      if forall i | 0 <= i < |tail| :: tail[i].available {
        assert forall i | 1 <= i < |availability| :: availability[i] == tail[i - 1];
      }
      if forall i | 0 <= i < |tail| :: !tail[i].available {
        assert forall i | 1 <= i < |availability| :: availability[i] == tail[i - 1];
      }
    }
  }

  /** The calendar's `disabledDays` prop: the weekend rule, then every
      unavailable date. It disables a day exactly when the day falls on a
      weekend or is one of the unavailable dates. */
  function CalendarDisabled(availability: seq<MonthAvailabilityItem>, currentMonth: Date): (matchers: seq<DayMatcher>)
    ensures |matchers| == 1 + |DisabledDays(availability, currentMonth)|
    ensures matchers[0] == DaysOfWeek(WeekendDays)
    ensures forall d, weekday :: IsDisabled(matchers, d, weekday) <==>
      weekday in WeekendDays || d in DisabledDays(availability, currentMonth)
  {
    var dates := DisabledDays(availability, currentMonth);
    var ms := [DaysOfWeek(WeekendDays)] + seq(|dates|, k requires 0 <= k < |dates| => OnDate(dates[k]));
    assert forall d, weekday :: IsDisabled(ms, d, weekday) <==> weekday in WeekendDays || d in dates by {
      forall d, weekday
        ensures IsDisabled(ms, d, weekday) <==> weekday in WeekendDays || d in dates
      {
        if weekday in WeekendDays {
          assert Matches(ms[0], d, weekday);
        }
        if d in dates {
          var k :| 0 <= k < |dates| && dates[k] == d;
          assert Matches(ms[k + 1], d, weekday);
        }
        if IsDisabled(ms, d, weekday) {
          var k :| 0 <= k < |ms| && Matches(ms[k], d, weekday);
          if k > 0 { assert dates[k - 1] == d; }
        }
      }
    }
    ms
  }

  /** Whether one matcher covers a day that falls on `weekday`. */
  predicate Matches(m: DayMatcher, d: Date, weekday: int)
  {
    match m
    case DaysOfWeek(ws) => weekday in ws
    case OnDate(date) => date == d
  }

  /** Whether the calendar shows a day as disabled. */
  predicate IsDisabled(matchers: seq<DayMatcher>, d: Date, weekday: int)
  {
    exists k | 0 <= k < |matchers| :: Matches(matchers[k], d, weekday)
  }

  /** The modifiers the calendar computes for a day falling on `weekday`. */
  function Modifiers(availability: seq<MonthAvailabilityItem>, currentMonth: Date, d: Date, weekday: int): DayModifiers
  {
    DayModifiers(weekday in AvailableWeekdays,
                 IsDisabled(CalendarDisabled(availability, currentMonth), d, weekday))
  }

  /** On a week day (0..6) a day carries the `available` modifier exactly
      when the weekend rule does not disable it; an unavailable date on a
      weekday carries both `available` and `disabled`. */
  lemma AvailableModifierCoversWeekdays(availability: seq<MonthAvailabilityItem>, currentMonth: Date, d: Date, weekday: int)
    requires 0 <= weekday < 7
    ensures Modifiers(availability, currentMonth, d, weekday).available <==> weekday !in WeekendDays
    ensures weekday !in WeekendDays && d in DisabledDays(availability, currentMonth) ==>
      Modifiers(availability, currentMonth, d, weekday).available &&
      Modifiers(availability, currentMonth, d, weekday).disabled
  {
  }

  /** The query of the month-availability effect: `getMonth() + 1`. */
  function MonthAvailabilityQuery(providerId: string, currentMonth: Date): (q: MonthQuery)
    ensures q.providerId == providerId && q.year == currentMonth.year
    ensures ValidMonth(currentMonth) ==> 1 <= q.month <= 12
    ensures q.month - 1 == currentMonth.month0
  {
    MonthQuery(providerId, currentMonth.year, currentMonth.month0 + 1)
  }

  /** The query of the appointments effect: 1-based month, day of month. */
  function AppointmentsQuery(selectedDate: Date): (q: DayQuery)
    ensures q.year == selectedDate.year && q.day == selectedDate.day
    ensures ValidMonth(selectedDate) ==> 1 <= q.month <= 12
    ensures q.month - 1 == selectedDate.month0
  {
    DayQuery(selectedDate.year, selectedDate.month0 + 1, selectedDate.day)
  }

  /** The Dashboard's state: `selectedDate`, `currentMonth` and
      `monthAvailability`. */
  class DashboardState {
    var selectedDate: Date
    var currentMonth: Date
    var monthAvailability: seq<MonthAvailabilityItem>

    /** Both dates start at `new Date()`, the availability list empty. */
    constructor (today: Date)
      ensures selectedDate == today && currentMonth == today && monthAvailability == []
    {
      selectedDate := today;
      currentMonth := today;
      monthAvailability := [];
    }

    /** The `disabledDays` memo over the current state. */
    function CurrentDisabledDays(): (dates: seq<Date>)
      reads this
      ensures |dates| <= |monthAvailability|
      ensures forall k | 0 <= k < |dates| :: dates[k].year == currentMonth.year && dates[k].month0 == currentMonth.month0
    {
      DisabledDays(monthAvailability, currentMonth)
    }

    /** `handleDateChange`: a click selects the day only when it carries the
        `available` modifier. */
    method HandleDateChange(day: Date, modifiers: DayModifiers)
      modifies this`selectedDate
      ensures modifiers.available ==> selectedDate == day
      ensures !modifiers.available ==> selectedDate == old(selectedDate)
    {
      if modifiers.available {
        selectedDate := day;
      }
    }

    /** `handleMonthChange`: the shown month becomes the given one. */
    method HandleMonthChange(month: Date)
      modifies this`currentMonth
      ensures currentMonth == month
    {
      currentMonth := month;
    }

    /** The month-availability effect's `then`: the reply replaces the list. */
    method ReceiveMonthAvailability(items: seq<MonthAvailabilityItem>)
      modifies this`monthAvailability
      ensures monthAvailability == items
    {
      monthAvailability := items;
    }
  }
}

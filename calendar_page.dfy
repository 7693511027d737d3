/** The calendar page's date logic (src/app/calendar/page.tsx): the month
    grid with its leading blanks, the doses of one day, the day's status
    badge and moving between months. Dates are local calendar days as a
    JavaScript `Date` reports them. */
module CalendarPage {
  import opened Text
  import opened Seqs
  import opened Types
  import opened Dates

  /** `getDay()`: 0 for Sunday up to 6 for Saturday (1 January 1970 was a
      Thursday). */
  function Weekday(c: CalendarDate): (w: int)
    requires 0 <= c.month < 12
    ensures 0 <= w < 7
  {
    (DayNumber(c) + 4) % 7
  }

  /** The epoch was a Thursday, and 14 October 2026 is a Wednesday. */
  lemma WeekdayExamples()
    ensures Weekday(CalendarDate(1970, 0, 1)) == 4
    ensures Weekday(CalendarDate(2026, 9, 14)) == 3
  {
  }

  /** The first of the next month is the month's length after the first of
      this month. */
  lemma MonthLength(year: int, month: int)
    requires 0 <= month < 12
    ensures DayNumber(NextMonth(CalendarDate(year, month, 1)))
            == DayNumber(CalendarDate(year, month, 1)) + DaysInMonth(year, month)
  {
    if month == 11 {
      YearLength(year);
    }
  }

  // ---------------------------------------------------------------- the grid

  /** `getDaysInMonth(date)`: one blank per weekday before the first, then
      every day of the month in order. */
  method GetDaysInMonth(date: CalendarDate) returns (days: seq<Option<CalendarDate>>)
    requires 0 <= date.month < 12
    ensures var startingDay := Weekday(CalendarDate(date.year, date.month, 1));
            && |days| == startingDay + DaysInMonth(date.year, date.month)
            && (forall i :: 0 <= i < startingDay ==> days[i].None?)
            && (forall i :: startingDay <= i < |days| ==>
                  days[i] == Some(CalendarDate(date.year, date.month, i - startingDay + 1)))
  {
    var year := date.year;
    var month := date.month;
    var daysInMonth := DaysInMonth(year, month);
    var startingDay := Weekday(CalendarDate(year, month, 1));
    days := [];
    for i := 0 to startingDay
      invariant |days| == i
      invariant forall k :: 0 <= k < i ==> days[k].None?
    {
      days := days + [None];
    }
    for i := 1 to daysInMonth + 1
      invariant |days| == startingDay + i - 1
      invariant forall k :: 0 <= k < startingDay ==> days[k].None?
      invariant forall k :: startingDay <= k < |days| ==>
                  days[k] == Some(CalendarDate(year, month, k - startingDay + 1))
    {
      days := days + [Some(CalendarDate(year, month, i))];
    }
  }

  /** Each day lands in the column of its weekday: day d of the month sits at
      grid position startingDay + d - 1, whose remainder by 7 is its `getDay()`. */
  lemma GridColumnIsWeekday(year: int, month: int, d: int)
    requires 0 <= month < 12 && 1 <= d <= DaysInMonth(year, month)
    ensures Weekday(CalendarDate(year, month, d)) == (Weekday(CalendarDate(year, month, 1)) + d - 1) % 7
  {
    var first := DayNumber(CalendarDate(year, month, 1));
    assert DayNumber(CalendarDate(year, month, d)) == first + d - 1;
    ModAdd(first + 4, d - 1);
  }

  /** Adding after taking the remainder by 7 gives the same remainder. */
  lemma ModAdd(a: int, b: int)
    ensures (a + b) % 7 == (a % 7 + b) % 7
  {
    var q := a / 7;
    assert a == 7 * q + a % 7;
    assert a + b == 7 * q + (a % 7 + b);
    ModShift(a % 7 + b, q);
  }

  lemma ModShift(x: int, k: int)
    ensures (7 * k + x) % 7 == x % 7
  {
    var q := x / 7;
    var r := x % 7;
    assert x == 7 * q + r;
    assert 7 * k + x == 7 * (k + q) + r;
  }

  /** The next month's grid starts where this month's last row left off. */
  lemma NextGridStart(year: int, month: int)
    requires 0 <= month < 12
    ensures Weekday(NextMonth(CalendarDate(year, month, 1)))
            == (Weekday(CalendarDate(year, month, 1)) + DaysInMonth(year, month)) % 7
  {
    MonthLength(year, month);
    var first := DayNumber(CalendarDate(year, month, 1));
    ModAdd(first + 4, DaysInMonth(year, month));
  }

  // ---------------------------------------------------------------- navigation

  /** `new Date(year, month - 1, 1)`. */
  function PreviousMonth(c: CalendarDate): (r: CalendarDate)
    requires 0 <= c.month < 12
    ensures ValidDate(r) && r.day == 1
    ensures r.year * 12 + r.month == c.year * 12 + c.month - 1
  {
    if c.month == 0 then CalendarDate(c.year - 1, 11, 1) else CalendarDate(c.year, c.month - 1, 1)
  }

  /** `new Date(year, month + 1, 1)`. */
  function NextMonth(c: CalendarDate): (r: CalendarDate)
    requires 0 <= c.month < 12
    ensures ValidDate(r) && r.day == 1
    ensures r.year * 12 + r.month == c.year * 12 + c.month + 1
  {
    if c.month == 11 then CalendarDate(c.year + 1, 0, 1) else CalendarDate(c.year, c.month + 1, 1)
  }

  /** Going back and forth returns to the first of the month. */
  lemma NavigationRoundTrip(c: CalendarDate)
    requires 0 <= c.month < 12
    ensures NextMonth(PreviousMonth(c)) == CalendarDate(c.year, c.month, 1)
    ensures PreviousMonth(NextMonth(c)) == CalendarDate(c.year, c.month, 1)
  {
  }

  // ---------------------------------------------------------------- a day's doses

  /** `getDosesForDate(date)`: the doses whose scheduled instant falls on
      that local day, in stored order. */
  function DosesForDate(ds: seq<ScheduledDose>, c: CalendarDate): (r: seq<ScheduledDose>)
    requires ValidDate(c)
    ensures forall k :: 0 <= k < |r| ==> r[k] in ds && OnCalendarDay(r[k].scheduledTime, c)
    ensures forall k :: 0 <= k < |ds| && OnCalendarDay(ds[k].scheduledTime, c) ==> ds[k] in r
  {
    Filter(ds, OnCalendarDayOf(c))
  }

  // ---------------------------------------------------------------- day status

  datatype DayStatus = AllTaken | HasMissed | PendingDay | NoDoses

  predicate IsMissed(d: ScheduledDose) { d.status == Missed }

  predicate IsDone(d: ScheduledDose) { d.status == Taken || d.status == Skipped }

  predicate IsPending(d: ScheduledDose) { d.status == Pending }

  /** `getDayStatus(date)`. */
  function GetDayStatus(ds: seq<ScheduledDose>, c: CalendarDate): DayStatus
    requires ValidDate(c)
  {
    Badge(DosesForDate(ds, c))
  }

  /** The badge of a day holding the doses `dayDoses`. */
  function Badge(dayDoses: seq<ScheduledDose>): DayStatus
  {
    if |dayDoses| == 0 then NoDoses
    else if Exists(dayDoses, IsMissed) then HasMissed
    else if Every(dayDoses, IsDone) then AllTaken
    else PendingDay
  }

  /** The day shows no badge exactly when no stored dose falls on it. */
  lemma DayStatusNone(ds: seq<ScheduledDose>, c: CalendarDate)
    requires ValidDate(c)
    ensures GetDayStatus(ds, c) == NoDoses <==>
              forall k :: 0 <= k < |ds| ==> !OnCalendarDay(ds[k].scheduledTime, c)
  {
    NoneBadge(ds, OnCalendarDayOf(c));
  }

  /** The day shows the missed badge exactly when one of its doses was
      missed, whatever else there is. */
  lemma DayStatusMissed(ds: seq<ScheduledDose>, c: CalendarDate)
    requires ValidDate(c)
    ensures GetDayStatus(ds, c) == HasMissed <==>
              exists k :: 0 <= k < |ds| && OnCalendarDay(ds[k].scheduledTime, c) && IsMissed(ds[k])
  {
    MissedBadge(ds, OnCalendarDayOf(c));
  }

  /** The day shows the all-taken badge exactly when it has doses and every
      one of them was taken or skipped. */
  lemma DayStatusAllTaken(ds: seq<ScheduledDose>, c: CalendarDate)
    requires ValidDate(c)
    ensures GetDayStatus(ds, c) == AllTaken <==>
              && (exists k :: 0 <= k < |ds| && OnCalendarDay(ds[k].scheduledTime, c))
              && forall k :: 0 <= k < |ds| && OnCalendarDay(ds[k].scheduledTime, c) ==> IsDone(ds[k])
  {
    AllTakenBadge(ds, OnCalendarDayOf(c));
  }

  /** Otherwise the day shows the pending badge: one of its doses is still
      pending and none was missed. */
  lemma DayStatusPending(ds: seq<ScheduledDose>, c: CalendarDate)
    requires ValidDate(c)
    ensures GetDayStatus(ds, c) == PendingDay <==>
              && (exists k :: 0 <= k < |ds| && OnCalendarDay(ds[k].scheduledTime, c) && IsPending(ds[k]))
              && forall k :: 0 <= k < |ds| && OnCalendarDay(ds[k].scheduledTime, c) ==> !IsMissed(ds[k])
  {
    PendingBadge(ds, OnCalendarDayOf(c));
  }

  // The four badges for the doses `on` picks out, whatever `on` is.

  lemma NoneBadge(ds: seq<ScheduledDose>, on: ScheduledDose -> bool)
    ensures Badge(Filter(ds, on)) == NoDoses <==> forall k :: 0 <= k < |ds| ==> !on(ds[k])
  {
    FilterEmpty(ds, on);
  }

  lemma MissedBadge(ds: seq<ScheduledDose>, on: ScheduledDose -> bool)
    ensures Badge(Filter(ds, on)) == HasMissed <==> exists k :: 0 <= k < |ds| && on(ds[k]) && IsMissed(ds[k])
  {
    FilterExists(ds, on, IsMissed);
  }

  lemma AllTakenBadge(ds: seq<ScheduledDose>, on: ScheduledDose -> bool)
    ensures Badge(Filter(ds, on)) == AllTaken <==>
              && (exists k :: 0 <= k < |ds| && on(ds[k]))
              && forall k :: 0 <= k < |ds| && on(ds[k]) ==> IsDone(ds[k])
  {
    FilterEmpty(ds, on);
    FilterExists(ds, on, IsMissed);
    FilterEvery(ds, on, IsDone);
  }

  lemma PendingBadge(ds: seq<ScheduledDose>, on: ScheduledDose -> bool)
    ensures Badge(Filter(ds, on)) == PendingDay <==>
              && (exists k :: 0 <= k < |ds| && on(ds[k]) && IsPending(ds[k]))
              && forall k :: 0 <= k < |ds| && on(ds[k]) ==> !IsMissed(ds[k])
  {
    FilterExists(ds, on, IsMissed);
    FilterExists(ds, on, IsPending);
    FilterEvery(ds, on, IsDone);
  }
}

/** The application's records (src/types/index.ts) and the order in which it
    compares scheduled instants. */
module Types {
  import opened Text
  import opened Seqs
  import opened Dates

  datatype Option<+T> = None | Some(value: T)

  datatype Frequency = Once | Twice | Thrice | FourTimes | Custom

  datatype TimePreference = Morning | Evening | Any | WithFood | EmptyStomach

  datatype DoseStatus = Pending | Taken | Missed | Skipped

  datatype PillShape = Round | Oval | CapsuleShape | Square | Triangle | OtherShape

  datatype PillColor = White | Blue | Red | Yellow | Green | Orange | Pink | Purple | Brown | OtherColor

  /** A prescription the user entered. `customTimes` is only consulted for the
      `Custom` frequency. */
  datatype Medication = Medication(
    id: string,
    name: string,
    dosage: string,
    frequency: Frequency,
    timePreference: TimePreference,
    withFood: bool,
    pillColor: Option<PillColor>,
    pillShape: Option<PillShape>,
    notes: Option<string>,
    customTimes: Option<seq<string>>,
    createdAt: string,
    updatedAt: string)

  /** A local wall-clock instant as `parseTimeToDate` builds it: a calendar
      date (ISO "YYYY-MM-DD") and minutes after that date's local midnight,
      which `setHours` lets run below 0 or past a day. */
  datatype Timestamp = Timestamp(date: string, minute: int)

  /** `new Date(s)` for a date-only ISO text: the day it names, or none when
      the text is not "YYYY-MM-DD" naming a day of the calendar. The day read
      back is the one whose key is the text. */
  function ParseIsoDate(s: string): (r: Option<CalendarDate>)
    ensures r.Some? ==> ValidDate(r.value) && 0 <= r.value.year <= 9999 && DayKey(r.value) == s
  {
    if |s| == 10 && s[4] == '-' && s[7] == '-'
       && AllDigits(s[..4]) && AllDigits(s[5..7]) && AllDigits(s[8..]) then
      var c := CalendarDate(DigitsValue(s[..4]), DigitsValue(s[5..7]) - 1, DigitsValue(s[8..]));
      if ValidDate(c) then
        IsoFields(s);
        Some(c)
      else None
    else None
  }

  /** The three digit fields of a ten-character ISO text are written back as
      they were read. */
  lemma IsoFields(s: string)
    requires |s| == 10 && s[4] == '-' && s[7] == '-'
    requires AllDigits(s[..4]) && AllDigits(s[5..7]) && AllDigits(s[8..])
    requires 1 <= DigitsValue(s[5..7]) <= 12 && 1 <= DigitsValue(s[8..]) <= 31
    ensures DigitsValue(s[..4]) <= 9999
    ensures var c := CalendarDate(DigitsValue(s[..4]), DigitsValue(s[5..7]) - 1, DigitsValue(s[8..]));
            ValidDate(c) ==> DayKey(c) == s
  {
    DigitsOfValue(s[..4]);
    DigitsOfValue(s[5..7]);
    DigitsOfValue(s[8..]);
    assert s == s[..4] + "-" + s[5..7] + "-" + s[8..];
  }

  /** Every key of a day in years 0..9999 reads back as that day. */
  lemma DayKeyReadsBack(c: CalendarDate)
    requires ValidDate(c) && 0 <= c.year <= 9999
    ensures ParseIsoDate(DayKey(c)) == Some(c)
  {
    var s := DayKey(c);
    assert s[..4] == Digits(c.year, 4);
    assert s[5..7] == Digits(c.month + 1, 2);
    assert s[8..] == Digits(c.day, 2);
    DigitsValueOfDigits(c.year, 4);
    DigitsValueOfDigits(c.month + 1, 2);
    DigitsValueOfDigits(c.day, 2);
  }

  /** Minutes since the epoch's local midnight (`getTime()` in minutes), or
      none for an Invalid Date. Minutes outside 0..1439 roll over into the
      neighbouring days, as `setHours` does. */
  function Instant(t: Timestamp): (r: Option<int>)
    ensures r.Some? <==> ParseIsoDate(t.date).Some?
  {
    match ParseIsoDate(t.date)
    case Some(c) => Some(DayNumber(c) * 1440 + t.minute)
    case None => None
  }

  /** The instant falls on local day `c`: its date fields `getFullYear`,
      `getMonth` and `getDate` are those of `c`. */
  predicate OnCalendarDay(t: Timestamp, c: CalendarDate)
  {
    0 <= c.month < 12 && Instant(t).Some? && Instant(t).value / 1440 == DayNumber(c)
  }

  function OnCalendarDayOf(c: CalendarDate): ScheduledDose -> bool
  {
    (d: ScheduledDose) => OnCalendarDay(d.scheduledTime, c)
  }

  /** The instant falls on the local day that the ISO text `date` names. */
  predicate OnDay(t: Timestamp, date: string)
  {
    ParseIsoDate(date).Some? && OnCalendarDay(t, ParseIsoDate(date).value)
  }

  function OnDayOf(day: string): ScheduledDose -> bool
  {
    (d: ScheduledDose) => OnDay(d.scheduledTime, day)
  }

  /** The doses whose scheduled instant falls on the local calendar day `day`. */
  function DosesOnDay(ds: seq<ScheduledDose>, day: string): (r: seq<ScheduledDose>)
    ensures forall k :: 0 <= k < |r| ==> r[k] in ds && OnDay(r[k].scheduledTime, day)
    ensures forall k :: 0 <= k < |ds| && OnDay(ds[k].scheduledTime, day) ==> ds[k] in r
  {
    Filter(ds, OnDayOf(day))
  }

  lemma WholeDays(d: int, m: int)
    ensures (d * 1440 + m) / 1440 == d + m / 1440
  {
    var q := m / 1440;
    var r := m % 1440;
    assert m == q * 1440 + r;
    assert d * 1440 + m == (d + q) * 1440 + r;
  }

  /** An instant on a valid date lies on exactly one day: the date moved by
      as many whole days as the minutes reach, rounding down, so a negative
      minute lands on an earlier day and one past 1439 on a later day. */
  lemma OnCalendarDayMeaning(t: Timestamp, c: CalendarDate)
    requires ParseIsoDate(t.date).Some? && ValidDate(c)
    ensures OnCalendarDay(t, c) <==> DayNumber(c) == DayNumber(ParseIsoDate(t.date).value) + t.minute / 1440
  {
    WholeDays(DayNumber(ParseIsoDate(t.date).value), t.minute);
  }

  /** A day's own minutes 0..1439 are on that day and on no other; the
      instant of an Invalid Date is on no day. */
  lemma OnDayWithinDate(t: Timestamp, date: string)
    ensures ParseIsoDate(date).Some? && t.date == date ==> (OnDay(t, date) <==> 0 <= t.minute < 1440)
    ensures ParseIsoDate(t.date).None? ==> !OnDay(t, date)
  {
    if t.date == date && ParseIsoDate(date).Some? {
      WholeDays(DayNumber(ParseIsoDate(date).value), t.minute);
    }
  }

  /** Two days an instant falls on are the same day. */
  lemma OnOneDay(t: Timestamp, c1: CalendarDate, c2: CalendarDate)
    requires ValidDate(c1) && ValidDate(c2)
    requires OnCalendarDay(t, c1) && OnCalendarDay(t, c2)
    ensures c1 == c2
  {
    DayNumberInjective(c1, c2);
  }

  /** Earlier-or-equal on instants, as the sorts' `getTime()` difference
      compares them. An Invalid Date comes after every valid instant. */
  predicate TimeLe(a: Timestamp, b: Timestamp)
  {
    match (Instant(a), Instant(b))
    case (Some(x), Some(y)) => x <= y
    case (Some(_), None) => true
    case (None, Some(_)) => false
    case (None, None) => true
  }

  /** `new Date(a) > new Date(b)`: strictly later, and false when either is
      an Invalid Date. */
  predicate After(a: Timestamp, b: Timestamp)
  {
    Instant(a).Some? && Instant(b).Some? && Instant(a).value > Instant(b).value
  }

  /** A later instant is not earlier-or-equal. */
  lemma AfterNotLe(a: Timestamp, b: Timestamp)
    requires After(a, b)
    ensures !TimeLe(a, b) && TimeLe(b, a)
  {
  }

  /** 22:55 on 9 June, written as "-1:-5" on 10 June, is on 9 June and
      before 23:20 of that day. */
  lemma RolledBackInstant()
    ensures OnDay(Timestamp("2026-06-10", -65), "2026-06-09")
    ensures !OnDay(Timestamp("2026-06-10", -65), "2026-06-10")
    ensures TimeLe(Timestamp("2026-06-10", -65), Timestamp("2026-06-09", 1400))
    ensures !TimeLe(Timestamp("2026-06-09", 1400), Timestamp("2026-06-10", -65))
  {
    DayKeyReadsBack(CalendarDate(2026, 5, 10));
    DayKeyReadsBack(CalendarDate(2026, 5, 9));
    assert DayKey(CalendarDate(2026, 5, 10)) == "2026-06-10";
    assert DayKey(CalendarDate(2026, 5, 9)) == "2026-06-09";
    WholeDays(DayNumber(CalendarDate(2026, 5, 10)), -65);
  }

  lemma TimeLeTotal(a: Timestamp, b: Timestamp)
    ensures TimeLe(a, b) || TimeLe(b, a)
  {
  }

  lemma TimeLeTransitive(a: Timestamp, b: Timestamp, c: Timestamp)
    requires TimeLe(a, b) && TimeLe(b, c)
    ensures TimeLe(a, c)
  {
  }

  /** One dose to take: medication `medicationId` at `scheduledTime`, filed under `date`. */
  datatype ScheduledDose = ScheduledDose(
    id: string,
    medicationId: string,
    scheduledTime: Timestamp,
    actualTime: Option<string>,
    status: DoseStatus,
    date: string)

  /** A dose before the store has given it an id (`Omit<ScheduledDose, 'id'>`). */
  datatype DoseDraft = DoseDraft(
    medicationId: string,
    scheduledTime: Timestamp,
    status: DoseStatus,
    date: string)

  function WithId(d: DoseDraft, id: string): ScheduledDose
  {
    ScheduledDose(id, d.medicationId, d.scheduledTime, None, d.status, d.date)
  }

  predicate DoseLe(a: ScheduledDose, b: ScheduledDose) { TimeLe(a.scheduledTime, b.scheduledTime) }

  predicate DraftLe(a: DoseDraft, b: DoseDraft) { TimeLe(a.scheduledTime, b.scheduledTime) }

  lemma DoseLeIsTotalPreorder()
    ensures TotalPreorder(DoseLe)
  {
    forall a: ScheduledDose, b: ScheduledDose
      ensures DoseLe(a, b) || DoseLe(b, a)
    {
      TimeLeTotal(a.scheduledTime, b.scheduledTime);
    }
    forall a: ScheduledDose, b: ScheduledDose, c: ScheduledDose | DoseLe(a, b) && DoseLe(b, c)
      ensures DoseLe(a, c)
    {
      TimeLeTransitive(a.scheduledTime, b.scheduledTime, c.scheduledTime);
    }
  }

  lemma DraftLeIsTotalPreorder()
    ensures TotalPreorder(DraftLe)
  {
    forall a: DoseDraft, b: DoseDraft
      ensures DraftLe(a, b) || DraftLe(b, a)
    {
      TimeLeTotal(a.scheduledTime, b.scheduledTime);
    }
    forall a: DoseDraft, b: DoseDraft, c: DoseDraft | DraftLe(a, b) && DraftLe(b, c)
      ensures DraftLe(a, c)
    {
      TimeLeTransitive(a.scheduledTime, b.scheduledTime, c.scheduledTime);
    }
  }

  /** The day's anchor times for one place and calculation method, as "HH:MM" texts. */
  datatype PrayerTimes = PrayerTimes(
    fajr: string,
    sunrise: string,
    dhuhr: string,
    asr: string,
    maghrib: string,
    isha: string,
    date: string)

  datatype CalculationMethod =
    | MuslimWorldLeague | Egyptian | Karachi | UmmAlQura | Dubai | MoonsightingCommittee
    | NorthAmerica | Kuwait | Qatar | Singapore | Tehran | Turkey
}

/** Clock arithmetic of src/lib/helpers.ts: "HH:MM" texts, minute-of-day
    values, the modulo-1440 wrap across midnight, and the small formatters. */
module Helpers {
  import opened Text
  import opened Types

  const MinutesPerDay: int := 1440
  const MsPerDay: int := 86400000

  /** JavaScript's `a % b` for b > 0: the remainder takes the sign of a. */
  function JsRem(a: int, b: int): (r: int)
    requires b > 0
    ensures a >= 0 ==> r == a % b
    ensures a < 0 ==> r == -((-a) % b)
  {
    if a >= 0 then a % b else -((-a) % b)
  }

  /** `((m % 1440) + 1440) % 1440` as written with JavaScript's `%`: it is the
      mathematical (non-negative) remainder, for negative m as well. */
  function NormalizeMinutes(m: int): (r: int)
    ensures r == m % MinutesPerDay
  {
    JsRem(JsRem(m, MinutesPerDay) + MinutesPerDay, MinutesPerDay)
  }

  // ---------------------------------------------------------------- parsing

  /** Text that `time.split(':').map(Number)` reads as integers `[hours, minutes]`.
      Any other text makes the source compute with NaN. */
  predicate IsTimeText(t: string)
  {
    var parts := Split(t, ':');
    |parts| >= 2 && IsIntText(parts[0]) && IsIntText(parts[1])
  }

  function HoursOf(t: string): int
    requires IsTimeText(t)
  {
    IntTextValue(Split(t, ':')[0])
  }

  function MinutesOf(t: string): int
    requires IsTimeText(t)
  {
    IntTextValue(Split(t, ':')[1])
  }

  /** `timeToMinutes`. */
  function TimeToMinutes(t: string): int
    requires IsTimeText(t)
  {
    HoursOf(t) * 60 + MinutesOf(t)
  }

  /** A zero-padded 24-hour clock time "HH:MM", HH < 24 and MM < 60. */
  predicate IsClockText(t: string)
  {
    && |t| == 5 && t[2] == ':'
    && IsDigit(t[0]) && IsDigit(t[1]) && IsDigit(t[3]) && IsDigit(t[4])
    && ClockHours(t) < 24 && ClockMinutes(t) < 60
  }

  function ClockHours(t: string): nat
    requires |t| == 5 && IsDigit(t[0]) && IsDigit(t[1])
  {
    DigitValue(t[0]) * 10 + DigitValue(t[1])
  }

  function ClockMinutes(t: string): nat
    requires |t| == 5 && IsDigit(t[3]) && IsDigit(t[4])
  {
    DigitValue(t[3]) * 10 + DigitValue(t[4])
  }

  lemma TwoDigitValue(s: string)
    requires |s| == 2 && AllDigits(s)
    ensures DigitsValue(s) == DigitValue(s[0]) * 10 + DigitValue(s[1])
  {
    assert s[..1][..0] == [] && s[..1][0] == s[0];
    assert DigitsValue(s[..1]) == DigitValue(s[0]);
  }

  /** A clock time is read back as its hour and minute fields. */
  lemma ClockTextParse(t: string)
    requires IsClockText(t)
    ensures IsTimeText(t)
    ensures HoursOf(t) == ClockHours(t) && MinutesOf(t) == ClockMinutes(t)
    ensures TimeToMinutes(t) == ClockHours(t) * 60 + ClockMinutes(t)
    ensures 0 <= TimeToMinutes(t) < MinutesPerDay
  {
    assert t == t[..2] + [':'] + t[3..];
    SplitPair(t[..2], t[3..], ':');
    TwoDigitValue(t[..2]);
    TwoDigitValue(t[3..]);
  }

  // ---------------------------------------------------------------- formatting

  /** `h.toString().padStart(2, '0') + ':' + m.toString().padStart(2, '0')`. */
  function JoinClock(h: int, m: int): string
  {
    PadStart2(IntToString(h)) + ":" + PadStart2(IntToString(m))
  }

  /** Whatever two integers are joined, `timeToMinutes` reads them back. */
  lemma JoinClockParse(h: int, m: int)
    ensures IsTimeText(JoinClock(h, m))
    ensures HoursOf(JoinClock(h, m)) == h && MinutesOf(JoinClock(h, m)) == m
  {
    var a, b := PadStart2(IntToString(h)), PadStart2(IntToString(m));
    PadStart2Value(IntToString(h));
    PadStart2Value(IntToString(m));
    IntToStringValue(h);
    IntToStringValue(m);
    NoSeparatorInIntText(a, ':');
    NoSeparatorInIntText(b, ':');
    SplitPair(a, b, ':');
  }

  /** For an hour below 24 and a minute below 60 the joined text is a clock time. */
  lemma JoinClockIsClock(h: int, m: int)
    requires 0 <= h < 24 && 0 <= m < 60
    ensures IsClockText(JoinClock(h, m))
    ensures ClockHours(JoinClock(h, m)) == h && ClockMinutes(JoinClock(h, m)) == m
  {
    TwoDigits(h);
    TwoDigits(m);
  }

  /** "HH:MM" for a minute of the day: the hour's two digits, ':', the minute's two digits. */
  function ClockText(n: int): string
    requires 0 <= n < MinutesPerDay
  {
    var h, m := n / 60, n % 60;
    [DigitChar(h / 10), DigitChar(h % 10), ':', DigitChar(m / 10), DigitChar(m % 10)]
  }

  /** `minutesToTime`: normalises into one day, then formats "HH:MM". The
      digits are spelled out; `MinutesToTimeTemplate` shows they are the
      source's padded template. */
  function MinutesToTime(m: int): string
  {
    ClockText(NormalizeMinutes(m))
  }

  /** `minutesToTime(m)` is `${hours.toString().padStart(2, '0')}:${minutes.toString().padStart(2, '0')}`
      of the normalised minute's hour and JavaScript remainder. */
  lemma MinutesToTimeTemplate(m: int)
    ensures var n := NormalizeMinutes(m);
            MinutesToTime(m) == JoinClock(n / 60, JsRem(n, 60))
  {
    ClockTextTemplate(NormalizeMinutes(m));
  }

  /** The clock text of a minute of the day is the padded template of its
      hour and minute. */
  lemma ClockTextTemplate(n: int)
    requires 0 <= n < MinutesPerDay
    ensures ClockText(n) == JoinClock(n / 60, n % 60)
  {
    TwoDigits(n / 60);
    TwoDigits(n % 60);
  }

  /** The output is a zero-padded clock time whose fields are the normalised
      minute's hour and minute, for every integer, negative ones included. */
  lemma MinutesToTimeIsClock(m: int)
    ensures IsClockText(MinutesToTime(m))
    ensures ClockHours(MinutesToTime(m)) == (m % MinutesPerDay) / 60
    ensures ClockMinutes(MinutesToTime(m)) == (m % MinutesPerDay) % 60
  {
    var n := m % MinutesPerDay;
    var h, mm := n / 60, n % 60;
    var t := MinutesToTime(m);
    assert DigitValue(t[0]) == h / 10 && DigitValue(t[1]) == h % 10;
    assert DigitValue(t[3]) == mm / 10 && DigitValue(t[4]) == mm % 10;
  }

  /** `minutesToTime` yields a clock time that reads back as the day's minute. */
  lemma MinutesToTimeReadsBack(m: int)
    ensures IsClockText(MinutesToTime(m)) && IsTimeText(MinutesToTime(m))
    ensures TimeToMinutes(MinutesToTime(m)) == m % MinutesPerDay
  {
    MinutesToTimeIsClock(m);
    ClockTextParse(MinutesToTime(m));
  }

  /** `timeToMinutes(minutesToTime(m)) == ((m % 1440) + 1440) % 1440`. */
  lemma MinutesToTimeRoundTrip(m: int)
    ensures IsTimeText(MinutesToTime(m))
    ensures TimeToMinutes(MinutesToTime(m)) == NormalizeMinutes(m)
  {
    MinutesToTimeIsClock(m);
    ClockTextParse(MinutesToTime(m));
  }

  /** `minutesToTime(timeToMinutes(t)) == t` for a zero-padded clock time. */
  lemma TimeToMinutesRoundTrip(t: string)
    requires IsClockText(t)
    ensures MinutesToTime(TimeToMinutes(t)) == t
  {
    ClockTextParse(t);
    var h, mm := ClockHours(t), ClockMinutes(t);
    var n := TimeToMinutes(t);
    assert NormalizeMinutes(n) == n;
    assert n / 60 == h && n % 60 == mm;
    assert h / 10 == DigitValue(t[0]) && h % 10 == DigitValue(t[1]);
    assert mm / 10 == DigitValue(t[3]) && mm % 10 == DigitValue(t[4]);
    var r := MinutesToTime(n);
    assert r[0] == t[0] && r[1] == t[1] && r[2] == t[2] && r[3] == t[3] && r[4] == t[4];
  }

  /** Two minute counts that agree modulo a day format alike. */
  lemma MinutesToTimeModDay(a: int, b: int)
    requires a % MinutesPerDay == b % MinutesPerDay
    ensures MinutesToTime(a) == MinutesToTime(b)
  {
  }

  // ---------------------------------------------------------------- dates

  /** `parseTimeToDate(time, date)`: the date's local midnight plus the hours and
      minutes read from `time` (`setHours` carries overflow into other days).
      The instant is on the given day exactly when the time is a minute of
      that day; on a text that names no day it is an Invalid Date. */
  function ParseTimeToDate(time: string, date: string): (r: Timestamp)
    requires IsTimeText(time)
    ensures ParseIsoDate(date).Some? ==> (OnDay(r, date) <==> 0 <= TimeToMinutes(time) < MinutesPerDay)
    ensures ParseIsoDate(date).None? ==> Instant(r).None?
  {
    var r := Timestamp(date, TimeToMinutes(time));
    OnDayWithinDate(r, date);
    r
  }

  /** Reading fields of a local `Date` held as minutes from today's midnight. */
  function DateHours(x: int): int { (x % MinutesPerDay) / 60 }

  function DateMinutes(x: int): int { x % 60 }

  /** `date.setMinutes(m)`: keeps the hour, replaces the minute field, carries overflow. */
  function DateSetMinutes(x: int, m: int): int { x - DateMinutes(x) + m }

  /** `addMinutesToTime(time, minutes)`: the clock time `minutes` after `time`,
      wrapping across midnight in both directions. `AddMinutesToTimeAsDate`
      shows that this is what the source's `Date` steps produce. */
  function AddMinutesToTime(time: string, minutes: int): string
    requires IsTimeText(time)
  {
    MinutesToTime(TimeToMinutes(time) + minutes)
  }

  /** Today at `time`, then `setMinutes(getMinutes() + minutes)`, then the
      padded hour and minute fields: the same text as `AddMinutesToTime`. */
  lemma AddMinutesToTimeAsDate(time: string, minutes: int)
    requires IsTimeText(time)
    ensures var x := TimeToMinutes(time);
            var y := DateSetMinutes(x, DateMinutes(x) + minutes);
            AddMinutesToTime(time, minutes) == JoinClock(DateHours(y), DateMinutes(y))
  {
    var x := TimeToMinutes(time);
    assert DateSetMinutes(x, DateMinutes(x) + minutes) == x + minutes;
    DateFieldsClock(x + minutes);
  }

  /** The padded hour and minute fields of a local instant are `minutesToTime` of it. */
  lemma DateFieldsClock(y: int)
    ensures MinutesToTime(y) == JoinClock(DateHours(y), DateMinutes(y))
  {
    DayMinuteField(y);
    var n := NormalizeMinutes(y);
    assert DateHours(y) == n / 60 && DateMinutes(y) == n % 60;
    ClockTextTemplate(n);
  }

  /** `subtractMinutesFromTime(time, minutes)`. */
  function SubtractMinutesFromTime(time: string, minutes: int): string
    requires IsTimeText(time)
  {
    AddMinutesToTime(time, -minutes)
  }

  /** The minute field does not depend on which day the instant falls in. */
  lemma DayMinuteField(y: int)
    ensures (y % MinutesPerDay) % 60 == y % 60
  {
    var q, r := y / MinutesPerDay, y % MinutesPerDay;
    var a, b := r / 60, r % 60;
    assert r == 60 * a + b;
    assert y == 60 * (24 * q + a) + b;
  }

  /** Whole days added to a minute count do not change its minute of the day. */
  lemma DayShift(x: int, q: int)
    ensures (x + MinutesPerDay * q) % MinutesPerDay == x % MinutesPerDay
  {
    var a, b := x / MinutesPerDay, x % MinutesPerDay;
    assert x + MinutesPerDay * q == MinutesPerDay * (a + q) + b;
  }

  lemma AddMinutesToTimeIsClock(time: string, minutes: int)
    requires IsTimeText(time)
    ensures IsClockText(AddMinutesToTime(time, minutes))
    ensures IsTimeText(AddMinutesToTime(time, minutes))
    ensures TimeToMinutes(AddMinutesToTime(time, minutes)) == (TimeToMinutes(time) + minutes) % MinutesPerDay
  {
    MinutesToTimeReadsBack(TimeToMinutes(time) + minutes);
  }

  /** Subtracting d after adding d gives back the clock time. */
  lemma AddThenSubtract(t: string, d: int)
    requires IsClockText(t)
    ensures IsTimeText(t) && IsTimeText(AddMinutesToTime(t, d))
    ensures SubtractMinutesFromTime(AddMinutesToTime(t, d), d) == t
  {
    ClockTextParse(t);
    AddMinutesToTimeIsClock(t, d);
    SubtractAfterAdd(t, AddMinutesToTime(t, d), d);
  }

  /** A text that reads back as t's minute moved d forward within the day
      gives t back when d is subtracted. */
  lemma SubtractAfterAdd(t: string, a: string, d: int)
    requires IsClockText(t) && IsTimeText(t) && IsTimeText(a)
    requires TimeToMinutes(a) == (TimeToMinutes(t) + d) % MinutesPerDay
    ensures SubtractMinutesFromTime(a, d) == t
  {
    var n, k := TimeToMinutes(t), TimeToMinutes(a);
    assert SubtractMinutesFromTime(a, d) == MinutesToTime(k - d);
    UndoShift(n, d);
    MinutesToTimeModDay(k - d, n);
    TimeToMinutesRoundTrip(t);
  }

  /** Shifting forward by d within the day and then back by d returns to the same minute of the day. */
  lemma UndoShift(n: int, d: int)
    ensures ((n + d) % MinutesPerDay - d) % MinutesPerDay == n % MinutesPerDay
  {
    var q := (n + d) / MinutesPerDay;
    assert (n + d) % MinutesPerDay - d == n + MinutesPerDay * (-q);
    DayShift(n, -q);
  }

  /** "23:30" plus two hours wraps to "01:30". */
  lemma WrapForwardExample(t: string)
    requires t == "23:30"
    ensures IsTimeText(t) && AddMinutesToTime(t, 120) == "01:30"
  {
    ClockTextParse(t);
    assert TimeToMinutes(t) == 1410;
    MinutesToTimeExample(1530, 1, 30);
  }

  /** "00:30" minus one hour wraps back to "23:30". */
  lemma WrapBackwardExample(t: string)
    requires t == "00:30"
    ensures IsTimeText(t) && SubtractMinutesFromTime(t, 60) == "23:30"
  {
    ClockTextParse(t);
    assert TimeToMinutes(t) == 30;
    MinutesToTimeExample(-30, 23, 30);
  }

  lemma MinutesToTimeExample(m: int, h: nat, mm: nat)
    requires h < 24 && mm < 60 && m % MinutesPerDay == h * 60 + mm
    ensures MinutesToTime(m) == [DigitChar(h / 10), DigitChar(h % 10), ':', DigitChar(mm / 10), DigitChar(mm % 10)]
  {
    var n := m % MinutesPerDay;
    assert n / 60 == h && n % 60 == mm;
  }

  // ---------------------------------------------------------------- display

  const ArabicAm: string := "\U{0635}\U{0628}\U{0627}\U{062D}\U{0627}\U{064B}"
  const ArabicPm: string := "\U{0645}\U{0633}\U{0627}\U{0621}\U{064B}"

  /** `formatTime12h(time, isArabic)`. */
  function FormatTime12h(time: string, isArabic: bool): string
    requires IsTimeText(time)
  {
    var h, m := HoursOf(time), MinutesOf(time);
    var period := if h >= 12 then (if isArabic then ArabicPm else "PM")
                  else (if isArabic then ArabicAm else "AM");
    var shown := if JsRem(h, 12) != 0 then JsRem(h, 12) else 12;  // `hours % 12 || 12`
    IntToString(shown) + ":" + PadStart2(IntToString(m)) + " " + period
  }

  /** On a clock time: the shown hour is 1..12 and congruent to the hour modulo
      12, the minute field is kept as written, and the suffix is PM exactly
      from noon on. */
  lemma FormatTime12hClock(t: string)
    requires IsClockText(t)
    ensures IsTimeText(t)
    ensures var h := ClockHours(t);
            var shown := if h % 12 == 0 then 12 else h % 12;
            && 1 <= shown <= 12 && shown % 12 == h % 12
            && FormatTime12h(t, false) == NatToString(shown) + ":" + t[3..] + (if h >= 12 then " PM" else " AM")
  {
    ClockTextParse(t);
    var h, m := ClockHours(t), ClockMinutes(t);
    TwoDigits(m);
    assert PadStart2(IntToString(m)) == t[3..];
    var shown := if h % 12 == 0 then 12 else h % 12;
    Format12hParts(t, h, shown, t[3..]);
  }

  /** The English 12-hour text assembled from its hour, minute field and suffix. */
  lemma Format12hParts(t: string, h: int, shown: nat, minuteText: string)
    requires IsTimeText(t) && HoursOf(t) == h && 0 <= h
    requires shown == (if h % 12 == 0 then 12 else h % 12)
    requires PadStart2(IntToString(MinutesOf(t))) == minuteText
    ensures FormatTime12h(t, false) == NatToString(shown) + ":" + minuteText + (if h >= 12 then " PM" else " AM")
  {
    assert IntToString(shown) == NatToString(shown);
    if h >= 12 {
      assert NatToString(shown) + ":" + minuteText + " " + "PM" == NatToString(shown) + ":" + minuteText + " PM";
    } else {
      assert NatToString(shown) + ":" + minuteText + " " + "AM" == NatToString(shown) + ":" + minuteText + " AM";
    }
  }

  /** `formatCountdown(hours, minutes, seconds)`. */
  function FormatCountdown(hours: int, minutes: int, seconds: int): string
  {
    if hours > 0 then IntToString(hours) + "h " + IntToString(minutes) + "m"
    else if minutes > 0 then IntToString(minutes) + "m " + IntToString(seconds) + "s"
    else IntToString(seconds) + "s"
  }

  lemma IntTextHasNoLetter(s: string, c: char)
    requires IsIntText(s) && !IsDigit(c) && c != '-'
    ensures c !in s
  {
    NoSeparatorInIntText(s, c);
  }

  /** Which units a countdown shows: hours iff hours > 0; seconds iff hours are
      not positive; minutes iff hours or minutes are positive. */
  lemma FormatCountdownUnits(hours: int, minutes: int, seconds: int)
    ensures var r := FormatCountdown(hours, minutes, seconds);
            && ('h' in r <==> hours > 0)
            && ('s' in r <==> hours <= 0)
            && ('m' in r <==> hours > 0 || minutes > 0)
  {
    IntTextHasNoLetter(IntToString(hours), 'h');
    IntTextHasNoLetter(IntToString(minutes), 'h');
    IntTextHasNoLetter(IntToString(seconds), 'h');
    IntTextHasNoLetter(IntToString(hours), 's');
    IntTextHasNoLetter(IntToString(minutes), 's');
    IntTextHasNoLetter(IntToString(seconds), 's');
    IntTextHasNoLetter(IntToString(hours), 'm');
    IntTextHasNoLetter(IntToString(minutes), 'm');
    IntTextHasNoLetter(IntToString(seconds), 'm');
  }

  datatype TimeRemaining = TimeRemaining(
    hours: int, minutes: int, seconds: int, totalSeconds: int, isOverdue: bool)

  /** `getTimeRemaining(targetTime)` with the clock read as `nowMs`, the
      milliseconds since today's local midnight. A target earlier than now is
      moved to the next day. */
  function GetTimeRemaining(targetTime: string, nowMs: int): (r: TimeRemaining)
    requires IsTimeText(targetTime) && 0 <= nowMs < MsPerDay
    ensures 0 <= r.totalSeconds && 0 <= r.minutes < 60 && 0 <= r.seconds < 60
    ensures r.hours * 3600 + r.minutes * 60 + r.seconds == r.totalSeconds
    ensures 0 <= TimeToMinutes(targetTime) ==> !r.isOverdue
    ensures 0 <= TimeToMinutes(targetTime) < MinutesPerDay ==> r.totalSeconds < 86400
    ensures 0 <= TimeToMinutes(targetTime) < MinutesPerDay ==>
              r.totalSeconds == ((TimeToMinutes(targetTime) * 60000 - nowMs) % MsPerDay) / 1000
  {
    var target0 := TimeToMinutes(targetTime) * 60000;
    var target := if target0 < nowMs then target0 + MsPerDay else target0;
    var diff := target - nowMs;
    var absDiff := if diff < 0 then -diff else diff;
    var totalSeconds := absDiff / 1000;
    TimeRemaining(totalSeconds / 3600, (totalSeconds % 3600) / 60, totalSeconds % 60,
                  totalSeconds, diff < 0)
  }
}

/** src/lib/doseMapper.ts: from a medication to the clock times of its doses
    on one day, with advisory warnings. During Ramadan the times are placed in
    the non-fasting window between Iftar (maghrib) and the recommended end of
    Suhoor (fajr minus 15 minutes); otherwise a fixed table is used. */
module DoseMapper {
  import opened Text
  import opened Seqs
  import opened Types
  import opened Helpers
  import opened Prayer

  /** The advisory warnings a mapping can push, one constructor per message. */
  datatype Warning = ThriceDoses | FourDoses | RamadanFood | StandardFood

  /** The message each warning is shown with. */
  function WarningText(w: Warning): string
  {
    match w
    case ThriceDoses =>
      "\U{26A0}\U{FE0F} Three doses in the non-fasting window may be challenging. Consult your doctor about adjustments."
    case FourDoses =>
      "\U{26A0}\U{FE0F} CRITICAL: Four doses in the non-fasting window is very difficult. You MUST consult your doctor."
    case RamadanFood => "This medication should be taken with food during Iftar or Suhoor."
    case StandardFood => "This medication should be taken with food."
  }

  datatype DoseMapping = DoseMapping(times: seq<string>, warnings: seq<Warning>)

  const SuhoorLeadMinutes: int := 15

  /** The forward distance on the 24-hour dial from minute a to minute b. */
  function ForwardGap(a: int, b: int): (g: int)
    ensures 0 <= g < MinutesPerDay
  {
    (b - a) % MinutesPerDay
  }

  // ---------------------------------------------------------------- Ramadan helpers

  /** `mapOnceDailyDose`. */
  function MapOnceDailyDose(pref: TimePreference, iftar: string, suhoor: string): seq<string>
    requires IsTimeText(suhoor)
  {
    match pref
    case Morning => [suhoor]
    case Evening => [iftar]
    case WithFood => [iftar]
    case EmptyStomach => [SubtractMinutesFromTime(suhoor, 60)]
    case Any => [iftar]
  }

  /** `mapTwiceDailyDose`. */
  function MapTwiceDailyDose(pref: TimePreference, iftar: string, suhoor: string, withFood: bool): seq<string>
    requires IsTimeText(iftar) && IsTimeText(suhoor)
  {
    if withFood || pref == WithFood then [iftar, suhoor]
    else if pref == EmptyStomach then [AddMinutesToTime(iftar, 120), SubtractMinutesFromTime(suhoor, 60)]
    else [iftar, suhoor]
  }

  /** The length of the non-fasting window, measured forward across midnight
      when Suhoor falls before Iftar on the dial. */
  function WindowMinutes(iftarMinutes: int, suhoorMinutes: int): int
  {
    if suhoorMinutes < iftarMinutes then (MinutesPerDay - iftarMinutes) + suhoorMinutes
    else suhoorMinutes - iftarMinutes
  }

  /** On minutes of one day the window is the forward distance from Iftar to Suhoor. */
  lemma WindowIsForwardGap(i: int, s: int)
    requires 0 <= i < MinutesPerDay && 0 <= s < MinutesPerDay
    ensures WindowMinutes(i, s) == ForwardGap(i, s)
  {
    if s < i {
      assert s - i == WindowMinutes(i, s) - MinutesPerDay;
    }
  }

  /** The middle dose's minute in `mapThriceDailyDose`. */
  function MidpointMinutes(iftarMinutes: int, suhoorMinutes: int): int
  {
    if suhoorMinutes < iftarMinutes then
      JsRem(iftarMinutes + WindowMinutes(iftarMinutes, suhoorMinutes) / 2, MinutesPerDay)
    else (iftarMinutes + suhoorMinutes) / 2
  }

  /** `mapThriceDailyDose`: Iftar, the midpoint of the window, Suhoor. */
  function MapThriceDailyDose(iftar: string, suhoor: string, withFood: bool): DoseMapping
    requires IsTimeText(iftar) && IsTimeText(suhoor)
  {
    var mid := MinutesToTime(MidpointMinutes(TimeToMinutes(iftar), TimeToMinutes(suhoor)));
    // both branches on `withFood` return the same times
    if withFood then DoseMapping([iftar, mid, suhoor], [ThriceDoses])
    else DoseMapping([iftar, mid, suhoor], [ThriceDoses])
  }

  /** `mapFourTimesDailyDose`: Iftar, then three more doses a quarter of the
      window apart. */
  function MapFourTimesDailyDose(iftar: string, suhoor: string): DoseMapping
    requires IsTimeText(iftar) && IsTimeText(suhoor)
  {
    var iftarMinutes := TimeToMinutes(iftar);
    var interval := WindowMinutes(iftarMinutes, TimeToMinutes(suhoor)) / 4;
    FourTimesFrom(iftar, iftarMinutes, interval)
  }

  /** The doses of `mapFourTimesDailyDose` once Iftar is read as minutes and the
      quarter interval is known. */
  function FourTimesFrom(iftar: string, iftarMinutes: int, interval: int): DoseMapping
  {
    DoseMapping([iftar,
                 MinutesToTime(JsRem(iftarMinutes + interval, MinutesPerDay)),
                 MinutesToTime(JsRem(iftarMinutes + interval * 2, MinutesPerDay)),
                 MinutesToTime(JsRem(iftarMinutes + interval * 3, MinutesPerDay))],
                [FourDoses])
  }

  /** `customTimes` when present and non-empty, otherwise no times. */
  function CustomTimesOf(m: Medication): seq<string>
  {
    if m.customTimes.Some? && |m.customTimes.value| > 0 then m.customTimes.value else []
  }

  /** The anchors of the Ramadan mapping: Iftar at maghrib, and the
      recommended end of Suhoor 15 minutes before fajr. */
  function Suhoor(p: PrayerTimes): string
    requires HasAnchors(p)
  {
    RecommendedSuhoorTime(p, SuhoorLeadMinutes)
  }

  lemma SuhoorReadable(p: PrayerTimes)
    requires HasAnchors(p)
    ensures IsTimeText(Suhoor(p))
  {
    RecommendedSuhoorReadsBack(p, SuhoorLeadMinutes);
  }

  /** The `switch` of `mapMedicationToRamadanSchedule` and the food reminder
      after it, for given Iftar and Suhoor texts. */
  function RamadanScheduleAt(m: Medication, iftar: string, suhoor: string): DoseMapping
    requires IsTimeText(iftar) && IsTimeText(suhoor)
  {
    var base := match m.frequency
      case Once => DoseMapping(MapOnceDailyDose(m.timePreference, iftar, suhoor), [])
      case Twice => DoseMapping(MapTwiceDailyDose(m.timePreference, iftar, suhoor, m.withFood), [])
      case Thrice => MapThriceDailyDose(iftar, suhoor, m.withFood)
      case FourTimes => MapFourTimesDailyDose(iftar, suhoor)
      case Custom => DoseMapping(CustomTimesOf(m), []);
    if m.withFood && |base.times| > 0
    then DoseMapping(base.times, base.warnings + [RamadanFood])
    else base
  }

  /** `mapMedicationToRamadanSchedule(medication, prayerTimes)`. */
  function RamadanSchedule(m: Medication, p: PrayerTimes): DoseMapping
    requires HasAnchors(p)
  {
    SuhoorReadable(p);
    RamadanScheduleAt(m, IftarTime(p), Suhoor(p))
  }

  // ---------------------------------------------------------------- standard table

  function MapOnceDailyStandard(pref: TimePreference): seq<string>
  {
    match pref
    case Morning => ["08:00"]
    case Evening => ["20:00"]
    case WithFood => ["12:00"]
    case EmptyStomach => ["07:00"]
    case Any => ["09:00"]
  }

  function MapTwiceDailyStandard(pref: TimePreference, withFood: bool): seq<string>
  {
    if withFood || pref == WithFood then ["08:00", "20:00"]
    else if pref == EmptyStomach then ["07:00", "19:00"]
    else if pref == Morning then ["08:00", "14:00"]
    else if pref == Evening then ["14:00", "20:00"]
    else ["09:00", "21:00"]
  }

  function MapThriceDailyStandard(pref: TimePreference, withFood: bool): seq<string>
  {
    if withFood || pref == WithFood then ["08:00", "14:00", "20:00"]
    else if pref == EmptyStomach then ["07:00", "13:00", "19:00"]
    else ["08:00", "14:00", "20:00"]
  }

  function MapFourTimesDailyStandard(pref: TimePreference, withFood: bool): seq<string>
  {
    if withFood || pref == WithFood then ["08:00", "12:00", "16:00", "20:00"]
    else if pref == EmptyStomach then ["07:00", "11:00", "15:00", "19:00"]
    else ["08:00", "12:00", "16:00", "20:00"]
  }

  /** `mapMedicationToStandardSchedule(medication)`. */
  function StandardSchedule(m: Medication): DoseMapping
  {
    var times := match m.frequency
      case Once => MapOnceDailyStandard(m.timePreference)
      case Twice => MapTwiceDailyStandard(m.timePreference, m.withFood)
      case Thrice => MapThriceDailyStandard(m.timePreference, m.withFood)
      case FourTimes => MapFourTimesDailyStandard(m.timePreference, m.withFood)
      case Custom => CustomTimesOf(m);
    DoseMapping(times, if m.withFood && |times| > 0 then [StandardFood] else [])
  }

  // ---------------------------------------------------------------- shared properties

  /** How many doses a day the frequency stands for. */
  function DosesPerDay(m: Medication): nat
  {
    match m.frequency
    case Once => 1
    case Twice => 2
    case Thrice => 3
    case FourTimes => 4
    case Custom => |CustomTimesOf(m)|
  }

  /** The warnings the frequency alone causes during Ramadan. */
  function FrequencyWarnings(f: Frequency): seq<Warning>
  {
    match f
    case Thrice => [ThriceDoses]
    case FourTimes => [FourDoses]
    case _ => []
  }

  /** The Ramadan mapping produces exactly one time per daily dose; its
      warnings are the frequency's own warnings followed by the food reminder,
      which is added exactly when the medication is taken with food and some
      time was produced. */
  lemma RamadanShape(m: Medication, iftar: string, suhoor: string)
    requires IsTimeText(iftar) && IsTimeText(suhoor)
    ensures |RamadanScheduleAt(m, iftar, suhoor).times| == DosesPerDay(m)
    ensures RamadanScheduleAt(m, iftar, suhoor).warnings ==
              FrequencyWarnings(m.frequency) + (if m.withFood && DosesPerDay(m) > 0 then [RamadanFood] else [])
  {
  }

  /** The standard mapping likewise, with its own food reminder and no
      frequency warnings. */
  lemma StandardShape(m: Medication)
    ensures |StandardSchedule(m).times| == DosesPerDay(m)
    ensures StandardSchedule(m).warnings ==
              (if m.withFood && DosesPerDay(m) > 0 then [StandardFood] else [])
  {
  }

  /** The food reminder is the last warning exactly when `withFood` is set and
      the schedule has a time, in both mappings. */
  lemma FoodWarningLast(m: Medication, iftar: string, suhoor: string)
    requires IsTimeText(iftar) && IsTimeText(suhoor)
    ensures var r := RamadanScheduleAt(m, iftar, suhoor);
            (m.withFood && |r.times| > 0) <==> (|r.warnings| > 0 && r.warnings[|r.warnings| - 1] == RamadanFood)
    ensures var r := StandardSchedule(m);
            (m.withFood && |r.times| > 0) <==> (|r.warnings| > 0 && r.warnings[|r.warnings| - 1] == StandardFood)
  {
    RamadanShape(m, iftar, suhoor);
    StandardShape(m);
  }

  /** Custom times are used verbatim, or none when absent or empty; no
      frequency warning is raised for them in either mapping. */
  lemma CustomSchedule(m: Medication, iftar: string, suhoor: string)
    requires IsTimeText(iftar) && IsTimeText(suhoor) && m.frequency == Custom
    ensures RamadanScheduleAt(m, iftar, suhoor).times == CustomTimesOf(m) == StandardSchedule(m).times
    ensures m.customTimes.Some? ==> RamadanScheduleAt(m, iftar, suhoor).times == m.customTimes.value
    ensures RamadanScheduleAt(m, iftar, suhoor).warnings == (if m.withFood && CustomTimesOf(m) != [] then [RamadanFood] else [])
    ensures StandardSchedule(m).warnings == (if m.withFood && CustomTimesOf(m) != [] then [StandardFood] else [])
  {
  }

  /** Once a day during Ramadan: Suhoor in the morning, an hour before Suhoor on
      an empty stomach, otherwise Iftar. */
  lemma RamadanOnce(m: Medication, iftar: string, suhoor: string)
    requires IsTimeText(iftar) && IsTimeText(suhoor) && m.frequency == Once
    ensures RamadanScheduleAt(m, iftar, suhoor).times ==
              match m.timePreference
              case Morning => [suhoor]
              case EmptyStomach => [SubtractMinutesFromTime(suhoor, 60)]
              case _ => [iftar]
  {
  }

  /** Twice a day during Ramadan: with food (by flag or preference) Iftar and
      Suhoor; otherwise on an empty stomach two hours after Iftar and an hour
      before Suhoor; otherwise Iftar and Suhoor. */
  lemma RamadanTwice(m: Medication, iftar: string, suhoor: string)
    requires IsTimeText(iftar) && IsTimeText(suhoor) && m.frequency == Twice
    ensures RamadanScheduleAt(m, iftar, suhoor).times ==
              if !m.withFood && m.timePreference == EmptyStomach
              then [AddMinutesToTime(iftar, 120), SubtractMinutesFromTime(suhoor, 60)]
              else [iftar, suhoor]
  {
  }

  /** Three times a day during Ramadan: Iftar, a middle dose, Suhoor.
      `withFood` does not move any dose. */
  lemma RamadanThrice(m: Medication, iftar: string, suhoor: string)
    requires IsTimeText(iftar) && IsTimeText(suhoor) && m.frequency == Thrice
    ensures var r := RamadanScheduleAt(m, iftar, suhoor);
            && |r.times| == 3 && r.times[0] == iftar && r.times[2] == suhoor
            && r.times[1] == MinutesToTime(MidpointMinutes(TimeToMinutes(iftar), TimeToMinutes(suhoor)))
            && r.times == RamadanScheduleAt(m.(withFood := !m.withFood), iftar, suhoor).times
  {
  }

  /** The middle dose is a clock time half the window (rounded down) after
      Iftar, measured forward across midnight if need be. */
  lemma ThriceMidpoint(m: Medication, iftar: string, suhoor: string)
    requires IsTimeText(iftar) && IsTimeText(suhoor) && m.frequency == Thrice
    ensures var t := RamadanScheduleAt(m, iftar, suhoor).times;
            |t| == 3 && IsClockText(t[1]) && IsTimeText(t[1])
    ensures var t := RamadanScheduleAt(m, iftar, suhoor).times;
            var i, s := TimeToMinutes(iftar), TimeToMinutes(suhoor);
            0 <= i < MinutesPerDay && 0 <= s < MinutesPerDay ==> ForwardGap(i, TimeToMinutes(t[1])) == ForwardGap(i, s) / 2
  {
    RamadanThrice(m, iftar, suhoor);
    MidpointReadsBack(TimeToMinutes(iftar), TimeToMinutes(suhoor));
  }

  lemma MidpointReadsBack(i: int, s: int)
    ensures IsClockText(MinutesToTime(MidpointMinutes(i, s))) && IsTimeText(MinutesToTime(MidpointMinutes(i, s)))
    ensures 0 <= i < MinutesPerDay && 0 <= s < MinutesPerDay ==>
              ForwardGap(i, TimeToMinutes(MinutesToTime(MidpointMinutes(i, s)))) == ForwardGap(i, s) / 2
  {
    MinutesToTimeReadsBack(MidpointMinutes(i, s));
    if 0 <= i < MinutesPerDay && 0 <= s < MinutesPerDay {
      MidpointHalfway(i, s);
    }
  }

  lemma MidpointHalfway(i: int, s: int)
    requires 0 <= i < MinutesPerDay && 0 <= s < MinutesPerDay
    ensures ForwardGap(i, MidpointMinutes(i, s) % MinutesPerDay) == ForwardGap(i, s) / 2
  {
    WindowIsForwardGap(i, s);
    if s < i {
      QuarterGap(i, WindowMinutes(i, s) / 2);
    } else {
      assert MidpointMinutes(i, s) - i == (s - i) / 2;
    }
  }

  /** Four times a day during Ramadan the times are those of the four-times
      mapping at Iftar's minute and a quarter of the window: four of them,
      Iftar first. */
  lemma RamadanFourTimes(m: Medication, iftar: string, suhoor: string)
    requires IsTimeText(iftar) && IsTimeText(suhoor) && m.frequency == FourTimes
    ensures var t := RamadanScheduleAt(m, iftar, suhoor).times;
            var i := TimeToMinutes(iftar);
            && t == FourTimesFrom(iftar, i, WindowMinutes(i, TimeToMinutes(suhoor)) / 4).times
            && |t| == 4 && t[0] == iftar
  {
  }

  /** Each later dose is a clock time that reads back as the day's minute of
      the JavaScript remainder the source formats: Iftar plus k intervals. */
  lemma FourTimesSpacing(iftar: string, i: int, interval: int)
    ensures var t := FourTimesFrom(iftar, i, interval).times;
            && IsTimeText(t[1])
            && TimeToMinutes(t[1]) == JsRem(i + interval, MinutesPerDay) % MinutesPerDay
            && IsTimeText(t[2])
            && TimeToMinutes(t[2]) == JsRem(i + interval * 2, MinutesPerDay) % MinutesPerDay
            && IsTimeText(t[3])
            && TimeToMinutes(t[3]) == JsRem(i + interval * 3, MinutesPerDay) % MinutesPerDay
  {
    MinutesToTimeReadsBack(JsRem(i + interval, MinutesPerDay));
    MinutesToTimeReadsBack(JsRem(i + interval * 2, MinutesPerDay));
    MinutesToTimeReadsBack(JsRem(i + interval * 3, MinutesPerDay));
  }

  /** With both anchors inside the day, the k-th later dose lies exactly k
      quarter windows (rounded down) forward of Iftar. */
  lemma FourTimesForward(iftar: string, i: int, s: int, interval: int)
    requires 0 <= i < MinutesPerDay && 0 <= s < MinutesPerDay && interval == WindowMinutes(i, s) / 4
    ensures var t := FourTimesFrom(iftar, i, interval).times;
            var q := ForwardGap(i, s) / 4;
            && IsTimeText(t[1]) && IsTimeText(t[2]) && IsTimeText(t[3])
            && ForwardGap(i, TimeToMinutes(t[1])) == q
            && ForwardGap(i, TimeToMinutes(t[2])) == q * 2
            && ForwardGap(i, TimeToMinutes(t[3])) == q * 3
  {
    FourTimesSpacing(iftar, i, interval);
    QuarterOffsets(i, s, interval);
  }

  /** The minutes `mapFourTimesDailyDose` formats, for anchors inside the day,
      are one, two and three quarter windows forward of Iftar. */
  lemma QuarterOffsets(i: int, s: int, interval: int)
    requires 0 <= i < MinutesPerDay && 0 <= s < MinutesPerDay && interval == WindowMinutes(i, s) / 4
    ensures var q := ForwardGap(i, s) / 4;
            && ForwardGap(i, JsRem(i + interval, MinutesPerDay) % MinutesPerDay) == q
            && ForwardGap(i, JsRem(i + interval * 2, MinutesPerDay) % MinutesPerDay) == q * 2
            && ForwardGap(i, JsRem(i + interval * 3, MinutesPerDay) % MinutesPerDay) == q * 3
  {
    WindowIsForwardGap(i, s);
    QuarterGap(i, interval);
    QuarterGap(i, interval * 2);
    QuarterGap(i, interval * 3);
  }

  /** A step of less than a day forward from minute i is that step forward. */
  lemma QuarterGap(i: int, d: int)
    requires 0 <= i < MinutesPerDay && 0 <= d < MinutesPerDay
    ensures ForwardGap(i, JsRem(i + d, MinutesPerDay) % MinutesPerDay) == d
  {
    var x := i + d;
    assert JsRem(x, MinutesPerDay) == x % MinutesPerDay;
    DayShift(d, -(x / MinutesPerDay));
    assert x % MinutesPerDay - i == d - MinutesPerDay * (x / MinutesPerDay);
  }

  /** Every time the Ramadan mapping produces can be read back, given readable
      custom times. */
  lemma RamadanTimesReadable(m: Medication, iftar: string, suhoor: string)
    requires IsTimeText(iftar) && IsTimeText(suhoor) && CustomTimesReadable(m)
    ensures var t := RamadanScheduleAt(m, iftar, suhoor).times;
            forall k :: 0 <= k < |t| ==> IsTimeText(t[k])
  {
    match m.frequency
    case Once => OnceReadable(m.timePreference, iftar, suhoor);
    case Twice => TwiceReadable(m.timePreference, iftar, suhoor, m.withFood);
    case Thrice => ThriceReadable(iftar, suhoor, m.withFood);
    case FourTimes => FourTimesReadable(iftar, suhoor);
    case Custom =>
  }

  lemma OnceReadable(pref: TimePreference, iftar: string, suhoor: string)
    requires IsTimeText(iftar) && IsTimeText(suhoor)
    ensures var t := MapOnceDailyDose(pref, iftar, suhoor);
            forall k :: 0 <= k < |t| ==> IsTimeText(t[k])
  {
    AddMinutesToTimeIsClock(suhoor, -60);
  }

  lemma TwiceReadable(pref: TimePreference, iftar: string, suhoor: string, withFood: bool)
    requires IsTimeText(iftar) && IsTimeText(suhoor)
    ensures var t := MapTwiceDailyDose(pref, iftar, suhoor, withFood);
            forall k :: 0 <= k < |t| ==> IsTimeText(t[k])
  {
    var t := MapTwiceDailyDose(pref, iftar, suhoor, withFood);
    if !(withFood || pref == WithFood) && pref == EmptyStomach {
      AddMinutesToTimeIsClock(iftar, 120);
      AddMinutesToTimeIsClock(suhoor, -60);
      TwoReadable(t, t[0], t[1]);
    } else {
      TwoReadable(t, iftar, suhoor);
    }
  }

  lemma ThriceReadable(iftar: string, suhoor: string, withFood: bool)
    requires IsTimeText(iftar) && IsTimeText(suhoor)
    ensures var t := MapThriceDailyDose(iftar, suhoor, withFood).times;
            forall k :: 0 <= k < |t| ==> IsTimeText(t[k])
  {
    MinutesToTimeReadsBack(MidpointMinutes(TimeToMinutes(iftar), TimeToMinutes(suhoor)));
  }

  lemma FourTimesReadable(iftar: string, suhoor: string)
    requires IsTimeText(iftar) && IsTimeText(suhoor)
    ensures var t := MapFourTimesDailyDose(iftar, suhoor).times;
            forall k :: 0 <= k < |t| ==> IsTimeText(t[k])
  {
    var i := TimeToMinutes(iftar);
    FourTimesFromReadable(iftar, i, WindowMinutes(i, TimeToMinutes(suhoor)) / 4);
  }

  lemma TwoReadable(t: seq<string>, a: string, b: string)
    requires t == [a, b] && IsTimeText(a) && IsTimeText(b)
    ensures forall k :: 0 <= k < |t| ==> IsTimeText(t[k])
  {
  }

  lemma FourReadable(t: seq<string>, a: string, b: string, c: string, d: string)
    requires t == [a, b, c, d] && IsTimeText(a) && IsTimeText(b) && IsTimeText(c) && IsTimeText(d)
    ensures forall k :: 0 <= k < |t| ==> IsTimeText(t[k])
  {
  }

  lemma FourTimesFromReadable(iftar: string, i: int, interval: int)
    requires IsTimeText(iftar)
    ensures var t := FourTimesFrom(iftar, i, interval).times;
            forall k :: 0 <= k < |t| ==> IsTimeText(t[k])
  {
    FourTimesSpacing(iftar, i, interval);
    var t := FourTimesFrom(iftar, i, interval).times;
    FourReadable(t, t[0], t[1], t[2], t[3]);
  }



  /** Zero-padded clock times, each strictly later in the day than the one before. */
  predicate AscendingClockTimes(t: seq<string>)
  {
    && (forall k :: 0 <= k < |t| ==> IsClockText(t[k]))
    && (forall j, k :: 0 <= j < k < |t| && IsClockText(t[j]) && IsClockText(t[k]) ==>
          ClockHours(t[j]) * 60 + ClockMinutes(t[j]) < ClockHours(t[k]) * 60 + ClockMinutes(t[k]))
  }

  /** Ascending clock texts are ascending minutes of the day. */
  lemma AscendingClockTimesMinutes(t: seq<string>)
    requires AscendingClockTimes(t)
    ensures forall k :: 0 <= k < |t| ==> IsTimeText(t[k]) && 0 <= TimeToMinutes(t[k]) < MinutesPerDay
    ensures forall j, k :: 0 <= j < k < |t| ==> TimeToMinutes(t[j]) < TimeToMinutes(t[k])
  {
    forall k | 0 <= k < |t|
      ensures IsTimeText(t[k]) && 0 <= TimeToMinutes(t[k]) < MinutesPerDay
    {
      ClockTextParse(t[k]);
    }
    forall j, k | 0 <= j < k < |t|
      ensures TimeToMinutes(t[j]) < TimeToMinutes(t[k])
    {
      ClockTextParse(t[j]);
      ClockTextParse(t[k]);
    }
  }

  /** The fixed table gives each frequency its number of doses at strictly
      increasing zero-padded clock times, whatever the prayer times. */
  lemma StandardTableAscending(m: Medication)
    requires m.frequency != Custom
    ensures |StandardSchedule(m).times| == DosesPerDay(m)
    ensures AscendingClockTimes(StandardSchedule(m).times)
  {
    match m.frequency
    case Once => OnceTableAscending(m.timePreference);
    case Twice => TwiceTableAscending(m.timePreference, m.withFood);
    case Thrice => ThriceTableAscending(m.timePreference, m.withFood);
    case FourTimes => FourTimesTableAscending(m.timePreference, m.withFood);
  }

  /** The text "HH:00" of a whole hour of the day. */
  function HourText(h: nat): (t: string)
    requires h < 24
    ensures IsClockText(t) && ClockHours(t) == h && ClockMinutes(t) == 0
  {
    [DigitChar(h / 10), DigitChar(h % 10), ':', '0', '0']
  }

  /** The table's literals are whole-hour clock texts. */
  lemma HourLiterals()
    ensures "07:00" == HourText(7) && "08:00" == HourText(8) && "09:00" == HourText(9)
    ensures "11:00" == HourText(11) && "12:00" == HourText(12) && "13:00" == HourText(13)
    ensures "14:00" == HourText(14) && "15:00" == HourText(15) && "16:00" == HourText(16)
    ensures "19:00" == HourText(19) && "20:00" == HourText(20) && "21:00" == HourText(21)
  {
  }

  /** Strictly increasing hours give ascending clock texts. */
  lemma TwoHoursAscending(a: nat, b: nat)
    requires a < b < 24
    ensures AscendingClockTimes([HourText(a), HourText(b)])
  {
  }

  lemma ThreeHoursAscending(a: nat, b: nat, c: nat)
    requires a < b < c < 24
    ensures AscendingClockTimes([HourText(a), HourText(b), HourText(c)])
  {
  }

  lemma FourHoursAscending(a: nat, b: nat, c: nat, d: nat)
    requires a < b < c < d < 24
    ensures AscendingClockTimes([HourText(a), HourText(b), HourText(c), HourText(d)])
  {
  }

  lemma OnceTableAscending(pref: TimePreference)
    ensures AscendingClockTimes(MapOnceDailyStandard(pref))
  {
  }

  lemma TwiceTableAscending(pref: TimePreference, withFood: bool)
    ensures AscendingClockTimes(MapTwiceDailyStandard(pref, withFood))
  {
    HourLiterals();
    if withFood || pref == WithFood {
      TwoHoursAscending(8, 20);
    } else if pref == EmptyStomach {
      TwoHoursAscending(7, 19);
    } else if pref == Morning {
      TwoHoursAscending(8, 14);
    } else if pref == Evening {
      TwoHoursAscending(14, 20);
    } else {
      TwoHoursAscending(9, 21);
    }
  }

  lemma ThriceTableAscending(pref: TimePreference, withFood: bool)
    ensures AscendingClockTimes(MapThriceDailyStandard(pref, withFood))
  {
    HourLiterals();
    if pref == EmptyStomach && !withFood {
      ThreeHoursAscending(7, 13, 19);
    } else {
      ThreeHoursAscending(8, 14, 20);
    }
  }

  lemma FourTimesTableAscending(pref: TimePreference, withFood: bool)
    ensures AscendingClockTimes(MapFourTimesDailyStandard(pref, withFood))
  {
    HourLiterals();
    if pref == EmptyStomach && !withFood {
      FourHoursAscending(7, 11, 15, 19);
    } else {
      FourHoursAscending(8, 12, 16, 20);
    }
  }

  // ---------------------------------------------------------------- dose records

  /** The Ramadan mapping is used exactly when Ramadan mode is on and prayer
      times are known. */
  function ScheduleFor(m: Medication, p: Option<PrayerTimes>, isRamadanMode: bool): DoseMapping
    requires p.Some? ==> HasAnchors(p.value)
  {
    if isRamadanMode && p.Some? then RamadanSchedule(m, p.value) else StandardSchedule(m)
  }

  /** Every time a custom list supplies is readable as "hours:minutes". */
  predicate CustomTimesReadable(m: Medication)
  {
    m.customTimes.Some? ==> forall k :: 0 <= k < |m.customTimes.value| ==> IsTimeText(m.customTimes.value[k])
  }

  /** What `generateDosesForDate` needs so that no time text fails to parse. */
  predicate Generatable(m: Medication, p: Option<PrayerTimes>)
  {
    (p.Some? ==> HasAnchors(p.value)) && CustomTimesReadable(m)
  }

  lemma ScheduleTimesReadable(m: Medication, p: Option<PrayerTimes>, isRamadanMode: bool)
    requires Generatable(m, p)
    ensures var t := ScheduleFor(m, p, isRamadanMode).times;
            forall k :: 0 <= k < |t| ==> IsTimeText(t[k])
  {
    if isRamadanMode && p.Some? {
      SuhoorReadable(p.value);
      RamadanTimesReadable(m, p.value.maghrib, Suhoor(p.value));
    } else if m.frequency != Custom {
      StandardTableAscending(m);
      AscendingClockTimesMinutes(StandardSchedule(m).times);
    }
  }

  /** `times.map(time => ({ medicationId, scheduledTime: parseTimeToDate(time, date), status: 'pending', date }))`. */
  function DraftsFor(medicationId: string, times: seq<string>, date: string): (r: seq<DoseDraft>)
    requires forall k :: 0 <= k < |times| ==> IsTimeText(times[k])
    ensures |r| == |times|
    ensures forall k :: 0 <= k < |r| ==>
              r[k] == DoseDraft(medicationId, Timestamp(date, TimeToMinutes(times[k])), Pending, date)
  {
    if times == [] then []
    else [DoseDraft(medicationId, ParseTimeToDate(times[0], date), Pending, date)]
         + DraftsFor(medicationId, times[1..], date)
  }

  /** `generateDosesForDate(medication, prayerTimes, date, isRamadanMode)`: one
      pending dose per scheduled time, in schedule order, all for this
      medication and this date. */
  function GenerateDosesForDate(m: Medication, p: Option<PrayerTimes>, date: string, isRamadanMode: bool): (r: seq<DoseDraft>)
    requires Generatable(m, p)
    ensures var t := ScheduleFor(m, p, isRamadanMode).times;
            && |r| == |t|
            && forall k :: 0 <= k < |r| ==>
                 && r[k].medicationId == m.id && r[k].status == Pending && r[k].date == date
                 && IsTimeText(t[k]) && r[k].scheduledTime == Timestamp(date, TimeToMinutes(t[k]))
  {
    ScheduleTimesReadable(m, p, isRamadanMode);
    DraftsFor(m.id, ScheduleFor(m, p, isRamadanMode).times, date)
  }

  /** With fajr at 00:10 the Suhoor of the Ramadan mapping is "-1:-5", so a
      once-daily morning dose is scheduled 65 minutes before the date's
      midnight. */
  lemma EarlyFajrMorningDose(m: Medication, p: PrayerTimes, date: string)
    requires m.frequency == Once && m.timePreference == Morning && CustomTimesReadable(m)
    requires p.fajr == "00:10" && IsTimeText(p.maghrib)
    ensures Generatable(m, Some(p))
    ensures GenerateDosesForDate(m, Some(p), date, true) == [DoseDraft(m.id, Timestamp(date, -65), Pending, date)]
  {
    RecommendedSuhoorNoWrap(p);
    assert Suhoor(p) == "-1:-5";
    JoinClockParse(-1, -5);
    assert JoinClock(-1, -5) == "-1:-5";
    RamadanOnce(m, IftarTime(p), Suhoor(p));
  }

  /** Every medication's doses, medication by medication, before sorting. */
  function AllDrafts(ms: seq<Medication>, p: Option<PrayerTimes>, date: string, isRamadanMode: bool): seq<DoseDraft>
    requires forall k :: 0 <= k < |ms| ==> Generatable(ms[k], p)
  {
    if ms == [] then []
    else AllDrafts(ms[..|ms| - 1], p, date, isRamadanMode)
         + GenerateDosesForDate(ms[|ms| - 1], p, date, isRamadanMode)
  }

  /** `generateAllDosesForDate(medications, prayerTimes, date, isRamadanMode)`:
      the doses of all medications, stably sorted by scheduled time. */
  method GenerateAllDosesForDate(ms: seq<Medication>, p: Option<PrayerTimes>, date: string, isRamadanMode: bool)
    returns (r: seq<DoseDraft>)
    requires forall k :: 0 <= k < |ms| ==> Generatable(ms[k], p)
    ensures r == SortBy(AllDrafts(ms, p, date, isRamadanMode), DraftLe)
  {
    var allDoses: seq<DoseDraft> := [];
    for i := 0 to |ms|
      invariant allDoses == AllDrafts(ms[..i], p, date, isRamadanMode)
    {
      assert ms[..i + 1][..i] == ms[..i];
      allDoses := allDoses + GenerateDosesForDate(ms[i], p, date, isRamadanMode);
    }
    assert ms[..|ms|] == ms;
    r := SortBy(allDoses, DraftLe);
  }

  /** The generated doses are ordered by scheduled time and are, counted with
      multiplicity, exactly the per-medication doses. */
  lemma AllDosesSorted(ms: seq<Medication>, p: Option<PrayerTimes>, date: string, isRamadanMode: bool)
    requires forall k :: 0 <= k < |ms| ==> Generatable(ms[k], p)
    ensures var r := SortBy(AllDrafts(ms, p, date, isRamadanMode), DraftLe);
            SortedBy(r, DraftLe) && multiset(r) == multiset(AllDrafts(ms, p, date, isRamadanMode))
  {
    DraftLeIsTotalPreorder();
    SortBySorted(AllDrafts(ms, p, date, isRamadanMode), DraftLe);
  }

  /** Every dose of every medication is generated for this date and is pending. */
  lemma {:induction false} AllDraftsPending(ms: seq<Medication>, p: Option<PrayerTimes>, date: string,
                                            isRamadanMode: bool, d: DoseDraft)
    requires forall k :: 0 <= k < |ms| ==> Generatable(ms[k], p)
    requires d in AllDrafts(ms, p, date, isRamadanMode)
    ensures d.date == date && d.status == Pending
  {
    var init := ms[..|ms| - 1];
    var last := GenerateDosesForDate(ms[|ms| - 1], p, date, isRamadanMode);
    if d in last {
      var j :| 0 <= j < |last| && last[j] == d;
    } else {
      AllDraftsPending(init, p, date, isRamadanMode, d);
    }
  }

  /** Each medication contributes exactly its own doses. */
  lemma {:induction false} AllDraftsMembers(ms: seq<Medication>, p: Option<PrayerTimes>, date: string,
                                            isRamadanMode: bool, d: DoseDraft)
    requires forall k :: 0 <= k < |ms| ==> Generatable(ms[k], p)
    ensures d in AllDrafts(ms, p, date, isRamadanMode) <==>
              exists k :: 0 <= k < |ms| && d in GenerateDosesForDate(ms[k], p, date, isRamadanMode)
  {
    if ms != [] {
      var init := ms[..|ms| - 1];
      var before := AllDrafts(init, p, date, isRamadanMode);
      var last := GenerateDosesForDate(ms[|ms| - 1], p, date, isRamadanMode);
      assert AllDrafts(ms, p, date, isRamadanMode) == before + last;
      assert d in before + last <==> d in before || d in last;
      AllDraftsMembers(init, p, date, isRamadanMode, d);
      forall k | 0 <= k < |ms| - 1
        ensures ms[k] == init[k]
      {
      }
    }
  }

  /** `getMedicationWarnings(medication, prayerTimes, isRamadanMode)`. */
  function GetMedicationWarnings(m: Medication, p: Option<PrayerTimes>, isRamadanMode: bool): (r: seq<Warning>)
    requires p.Some? ==> HasAnchors(p.value)
    ensures isRamadanMode && p.Some? ==>
              r == FrequencyWarnings(m.frequency) + (if m.withFood && DosesPerDay(m) > 0 then [RamadanFood] else [])
    ensures !(isRamadanMode && p.Some?) ==>
              r == (if m.withFood && DosesPerDay(m) > 0 then [StandardFood] else [])
  {
    if isRamadanMode && p.Some? then
      SuhoorReadable(p.value);
      RamadanShape(m, p.value.maghrib, Suhoor(p.value));
      RamadanSchedule(m, p.value).warnings
    else
      StandardShape(m);
      StandardSchedule(m).warnings
  }
}

/** src/lib/prayerTimes.ts: the day's anchor times (Iftar at maghrib, the end of
    Suhoor at fajr), the fasting-window predicates and countdowns, and the
    lookup of a day's prayer times through an in-memory record, then the
    browser's persisted storage, then the timings service. */
module Prayer {
  import opened Text
  import opened Types
  import opened Helpers

  // ---------------------------------------------------------------- constants

  const StoragePrefix: string := "ramadan_prayer_times_"

  /** `CALCULATION_METHODS[method].value`: the code the timings service knows the method by. */
  function MethodCode(m: CalculationMethod): nat
  {
    match m
    case MuslimWorldLeague => 3
    case Egyptian => 5
    case Karachi => 1
    case UmmAlQura => 4
    case Dubai => 12
    case MoonsightingCommittee => 15
    case NorthAmerica => 2
    case Kuwait => 9
    case Qatar => 10
    case Singapore => 11
    case Tehran => 7
    case Turkey => 13
  }

  /** No two methods share a service code. */
  lemma MethodCodeInjective(a: CalculationMethod, b: CalculationMethod)
    requires MethodCode(a) == MethodCode(b)
    ensures a == b
  {
  }

  /** `${method}`: the method's identifier as it appears in keys. */
  function MethodName(m: CalculationMethod): string
  {
    match m
    case MuslimWorldLeague => "MuslimWorldLeague"
    case Egyptian => "Egyptian"
    case Karachi => "Karachi"
    case UmmAlQura => "UmmAlQura"
    case Dubai => "Dubai"
    case MoonsightingCommittee => "MoonsightingCommittee"
    case NorthAmerica => "NorthAmerica"
    case Kuwait => "Kuwait"
    case Qatar => "Qatar"
    case Singapore => "Singapore"
    case Tehran => "Tehran"
    case Turkey => "Turkey"
  }

  // ---------------------------------------------------------------- keys

  function FourDigits(n: nat): (r: string)
    requires n < 10000
    ensures |r| == 4 && AllDigits(r)
  {
    [DigitChar(n / 1000), DigitChar(n / 100 % 10), DigitChar(n / 10 % 10), DigitChar(n % 10)]
  }

  /** `x.toFixed(4)` for a coordinate held in units of 1e-4 degree. */
  function FixedE4(x: int): string
  {
    var a := if x < 0 then -x else x;
    (if x < 0 then "-" else "") + NatToString(a / 10000) + "." + FourDigits(a % 10000)
  }

  /** The in-memory key: `${lat}-${lng}-${method}-${date}` with four decimals. */
  function CacheKey(latE4: int, lngE4: int, cm: CalculationMethod, date: string): string
  {
    FixedE4(latE4) + "-" + FixedE4(lngE4) + "-" + MethodName(cm) + "-" + date
  }

  /** `getStorageKey`: the persisted key, the in-memory key behind a fixed prefix. */
  function StorageKey(latE4: int, lngE4: int, cm: CalculationMethod, date: string): (k: string)
    ensures StartsWith(k, StoragePrefix)
    ensures k[|StoragePrefix|..] == CacheKey(latE4, lngE4, cm, date)
  {
    StoragePrefix + CacheKey(latE4, lngE4, cm, date)
  }

  /** Entries for different days at the same place and method never share a key. */
  lemma CacheKeySeparatesDates(latE4: int, lngE4: int, cm: CalculationMethod, d1: string, d2: string)
    requires CacheKey(latE4, lngE4, cm, d1) == CacheKey(latE4, lngE4, cm, d2)
    ensures d1 == d2
  {
    var p := FixedE4(latE4) + "-" + FixedE4(lngE4) + "-" + MethodName(cm) + "-";
    assert CacheKey(latE4, lngE4, cm, d1) == p + d1;
    assert CacheKey(latE4, lngE4, cm, d2) == p + d2;
    assert d1 == (p + d1)[|p|..];
    assert d2 == (p + d2)[|p|..];
  }

  // ---------------------------------------------------------------- persisted tier

  /** What `localStorage` holds under a key: text `JSON.parse` rejects (or reads
      as a non-object), or a record whose absent fields read as "". */
  datatype StoredEntry = Malformed | Record(times: PrayerTimes)

  /** A persisted record is trusted only if maghrib, fajr and date are all non-empty. */
  predicate Acceptable(p: PrayerTimes)
  {
    p.maghrib != "" && p.fajr != "" && p.date != ""
  }

  /** `getPersistedPrayerTimes(key)`. */
  function GetPersisted(storage: map<string, StoredEntry>, key: string): (r: Option<PrayerTimes>)
    ensures r.Some? <==> key in storage && storage[key].Record? && Acceptable(storage[key].times)
    ensures r.Some? ==> r.value == storage[key].times
  {
    if key in storage && storage[key].Record? && Acceptable(storage[key].times)
    then Some(storage[key].times) else None
  }

  /** `setPersistedPrayerTimes(key, data)`: a failing write (`writable` false) is ignored. */
  function SetPersisted(storage: map<string, StoredEntry>, key: string, data: PrayerTimes,
                        writable: bool): map<string, StoredEntry>
  {
    if writable then storage[key := Record(data)] else storage
  }

  /** What is written can be read back, exactly when it has the three required
      fields; a write never disturbs another key. */
  lemma PersistRoundTrip(storage: map<string, StoredEntry>, key: string, other: string, data: PrayerTimes)
    ensures GetPersisted(SetPersisted(storage, key, data, true), key) == (if Acceptable(data) then Some(data) else None)
    ensures other != key ==> GetPersisted(SetPersisted(storage, key, data, true), other) == GetPersisted(storage, other)
  {
  }

  // ---------------------------------------------------------------- network tier

  /** The request `fetch` is given: `/timings/${day}-${month}-${year}` with the
      coordinates and the method's code. */
  datatype Request = Request(datePath: string, latE4: int, lngE4: int, methodCode: nat)

  datatype RawTimings = RawTimings(fajr: string, sunrise: string, dhuhr: string,
                                   asr: string, maghrib: string, isha: string)

  /** The decoded JSON body; `timings` is None when `data.data.timings` is missing. */
  datatype ApiBody = ApiBody(code: int, status: string, timings: Option<RawTimings>)

  /** The outcome of `fetch`: a thrown network error, or a response whose body
      may fail to decode. */
  datatype FetchOutcome = NetworkFailure | Reply(ok: bool, body: Option<ApiBody>)

  /** A destructured `split` element: `undefined` past the end. */
  function PartOr(parts: seq<string>, i: nat): string
  {
    if i < |parts| then parts[i] else "undefined"
  }

  function RequestFor(latE4: int, lngE4: int, cm: CalculationMethod, targetDate: string): Request
  {
    var parts := Split(targetDate, '-');
    Request(PartOr(parts, 2) + "-" + PartOr(parts, 1) + "-" + PartOr(parts, 0),
            latE4, lngE4, MethodCode(cm))
  }

  /** An ISO date is sent day first. */
  lemma RequestForIsoDate(y: string, m: string, d: string, latE4: int, lngE4: int, cm: CalculationMethod)
    requires '-' !in y && '-' !in m && '-' !in d
    ensures RequestFor(latE4, lngE4, cm, y + "-" + m + "-" + d).datePath == d + "-" + m + "-" + y
  {
    SplitTriple(y, m, d, '-');
  }

  /** `timeStr.split(' ')[0]`: the time before any zone annotation. */
  function ExtractTime(s: string): (r: string)
    ensures ' ' !in r && StartsWith(s, r)
    ensures ' ' !in s ==> r == s
  {
    var r := Split(s, ' ')[0];
    assert r == if ' ' in s then s[..IndexOf(s, ' ')] else s;
    r
  }

  lemma ExtractTimeCutsAtSpace(a: string, b: string)
    requires ' ' !in a
    ensures ExtractTime(a + " " + b) == a
  {
    var s := a + " " + b;
    assert s[|a|] == ' ';
    var i := IndexOf(s, ' ');
    assert i <= |a| by {
      assert ' ' in s[..|a| + 1];
    }
    assert s[..|a|] == a;
    assert s[..i] == a[..i];
  }

  /** The body of the `try` after `fetch`: a result only for an ok response
      with code 200 and status "OK"; every other outcome is the caught null. */
  function ParseReply(outcome: FetchOutcome, targetDate: string): (r: Option<PrayerTimes>)
    ensures r.Some? <==> outcome.Reply? && outcome.ok && outcome.body.Some?
                         && outcome.body.value.code == 200 && outcome.body.value.status == "OK"
                         && outcome.body.value.timings.Some?
    ensures r.Some? ==> r.value.date == targetDate
    ensures r.Some? ==> var t := outcome.body.value.timings.value;
                        && StartsWith(t.fajr, r.value.fajr) && ' ' !in r.value.fajr
                        && StartsWith(t.maghrib, r.value.maghrib) && ' ' !in r.value.maghrib
  {
    match outcome
    case NetworkFailure => None
    case Reply(ok, body) =>
      if !ok || body.None? then None
      else if body.value.code != 200 || body.value.status != "OK" then None
      else if body.value.timings.None? then None
      else
        var t := body.value.timings.value;
        Some(PrayerTimes(ExtractTime(t.fajr), ExtractTime(t.sunrise), ExtractTime(t.dhuhr),
                         ExtractTime(t.asr), ExtractTime(t.maghrib), ExtractTime(t.isha),
                         targetDate))
  }

  // ---------------------------------------------------------------- the cache

  /** The module-level `prayerTimesCache` record and the persisted storage it
      sits in front of. */
  class PrayerTimesCache {
    var memory: map<string, PrayerTimes>
    var storage: map<string, StoredEntry>

    constructor(persisted: map<string, StoredEntry>)
      ensures memory == map[] && storage == persisted
    {
      memory := map[];
      storage := persisted;
    }

    /** `fetchPrayerTimes(latitude, longitude, method, date)`. An empty `date`
        stands for an absent one and means `today`; `network` answers the one
        request the call may make, reported in `requested`; `writable` says
        whether a storage write succeeds. */
    method FetchPrayerTimes(latE4: int, lngE4: int, cm: CalculationMethod, date: string,
                            today: string, network: Request -> FetchOutcome, writable: bool)
      returns (r: Option<PrayerTimes>, requested: Option<Request>)
      modifies this
      ensures var target := if date != "" then date else today;
              var key := CacheKey(latE4, lngE4, cm, target);
              var persisted := GetPersisted(old(storage), StorageKey(latE4, lngE4, cm, target));
              if key in old(memory) then
                // a memory hit touches nothing else
                && r == Some(old(memory)[key]) && requested.None?
                && memory == old(memory) && storage == old(storage)
              else if persisted.Some? then
                // a persisted hit is copied into memory
                && r == persisted && requested.None?
                && memory == old(memory)[key := persisted.value] && storage == old(storage)
              else
                && requested == Some(RequestFor(latE4, lngE4, cm, target))
                && r == ParseReply(network(requested.value), target)
                && (r.Some? ==>
                      && memory == old(memory)[key := r.value]
                      && storage == SetPersisted(old(storage), StorageKey(latE4, lngE4, cm, target), r.value, writable))
                && (r.None? ==> memory == old(memory) && storage == old(storage))
    {
      var targetDate := if date != "" then date else today;
      var cacheKey := CacheKey(latE4, lngE4, cm, targetDate);
      requested := None;
      if cacheKey in memory {
        r := Some(memory[cacheKey]);
        return;
      }
      var storageKey := StorageKey(latE4, lngE4, cm, targetDate);
      var persisted := GetPersisted(storage, storageKey);
      if persisted.Some? {
        memory := memory[cacheKey := persisted.value];
        r := persisted;
        return;
      }
      var request := RequestFor(latE4, lngE4, cm, targetDate);
      requested := Some(request);
      r := ParseReply(network(request), targetDate);
      if r.Some? {
        memory := memory[cacheKey := r.value];
        storage := SetPersisted(storage, storageKey, r.value, writable);
      }
    }

    /** Once a lookup has produced a result, asking again for the same place,
        method and day is answered from memory with the same value and no request. */
    method FetchTwice(latE4: int, lngE4: int, cm: CalculationMethod, date: string,
                      today: string, network: Request -> FetchOutcome, writable: bool)
      returns (first: Option<PrayerTimes>, second: Option<PrayerTimes>, secondRequest: Option<Request>)
      modifies this
      ensures first.Some? ==> second == first && secondRequest.None?
    {
      var req1;
      first, req1 := FetchPrayerTimes(latE4, lngE4, cm, date, today, network, writable);
      second, secondRequest := FetchPrayerTimes(latE4, lngE4, cm, date, today, network, writable);
    }
  }

  // ---------------------------------------------------------------- anchor times

  /** `getIftarTime`: the fast ends at maghrib. */
  function IftarTime(p: PrayerTimes): string { p.maghrib }

  /** `getSuhoorEndTime`: the fast begins at fajr. */
  function SuhoorEndTime(p: PrayerTimes): string { p.fajr }

  /** `getRecommendedSuhoorTime(prayerTimes, minutesBefore)`: fajr minus
      `minutesBefore`, split with `Math.floor` and JavaScript's `%` and not
      wrapped across midnight. */
  function RecommendedSuhoorTime(p: PrayerTimes, minutesBefore: int): string
    requires IsTimeText(p.fajr)
  {
    SplitJoin(SuhoorMinutes(p, minutesBefore))
  }

  /** Fajr's minute of the day less `minutesBefore`, not wrapped. */
  function SuhoorMinutes(p: PrayerTimes, minutesBefore: int): int
    requires IsTimeText(p.fajr)
  {
    TimeToMinutes(p.fajr) - minutesBefore
  }

  lemma SuhoorIsSplitJoin(p: PrayerTimes, minutesBefore: int)
    requires IsTimeText(p.fajr)
    ensures RecommendedSuhoorTime(p, minutesBefore) == SplitJoin(SuhoorMinutes(p, minutesBefore))
  {
  }

  /** A minute count split into `Math.floor(total / 60)` and `total % 60` and
      joined as "hours:minutes", each field padded to two characters. */
  function SplitJoin(total: int): string
  {
    JoinClock(total / 60, JsRem(total, 60))
  }

  /** When the result stays within the day it is `minutesToTime` of fajr
      minus `minutesBefore`: a zero-padded clock time. */
  lemma RecommendedSuhoorInDay(p: PrayerTimes, minutesBefore: int)
    requires IsTimeText(p.fajr)
    requires 0 <= TimeToMinutes(p.fajr) - minutesBefore < MinutesPerDay
    ensures RecommendedSuhoorTime(p, minutesBefore) == MinutesToTime(SuhoorMinutes(p, minutesBefore))
    ensures IsClockText(RecommendedSuhoorTime(p, minutesBefore))
  {
    SuhoorIsSplitJoin(p, minutesBefore);
    var total := SuhoorMinutes(p, minutesBefore);
    SplitJoinInDay(total);
    MinutesToTimeIsClock(total);
  }

  lemma SplitJoinInDay(total: int)
    requires 0 <= total < MinutesPerDay
    ensures SplitJoin(total) == MinutesToTime(total)
  {
    assert NormalizeMinutes(total) == total;
    ClockTextTemplate(total);
  }


  /** Whatever fajr is, the text reads back as hours and minutes whose sum in
      minutes is fajr minus `minutesBefore` when that is not negative. */
  lemma RecommendedSuhoorReadsBack(p: PrayerTimes, minutesBefore: int)
    requires IsTimeText(p.fajr)
    ensures IsTimeText(RecommendedSuhoorTime(p, minutesBefore))
    ensures 0 <= TimeToMinutes(p.fajr) - minutesBefore ==>
              TimeToMinutes(RecommendedSuhoorTime(p, minutesBefore)) == TimeToMinutes(p.fajr) - minutesBefore
  {
    SplitJoinReadsBack(SuhoorMinutes(p, minutesBefore));
  }

  /** Splitting with `Math.floor` and `%` and joining reads back as the hour and
      minute fields, whose sum is the count when it is not negative. */
  lemma SplitJoinReadsBack(total: int)
    ensures IsTimeText(SplitJoin(total))
    ensures 0 <= total ==> TimeToMinutes(SplitJoin(total)) == total
  {
    JoinClockParse(total / 60, JsRem(total, 60));
    if 0 <= total {
      assert (total / 60) * 60 + total % 60 == total;
    }
  }

  /** There is no wrap: fajr at 00:10 with 15 minutes before gives "-1:-5". */
  lemma RecommendedSuhoorNoWrap(p: PrayerTimes)
    requires p.fajr == "00:10"
    ensures IsTimeText(p.fajr)
    ensures RecommendedSuhoorTime(p, 15) == "-1:-5"
  {
    ClockTextParse(p.fajr);
    assert TimeToMinutes(p.fajr) == 10;
    NegativeSuhoorText(p, 15);
  }

  lemma NegativeSuhoorText(p: PrayerTimes, minutesBefore: int)
    requires IsTimeText(p.fajr) && TimeToMinutes(p.fajr) - minutesBefore == -5
    ensures RecommendedSuhoorTime(p, minutesBefore) == "-1:-5"
  {
    assert -5 / 60 == -1 && JsRem(-5, 60) == -5;
    assert NatToString(1) == "1" && NatToString(5) == "5";
  }

  /** The example the application's tests use: fajr 04:30, 15 minutes before, 04:15. */
  lemma RecommendedSuhoorExample(p: PrayerTimes)
    requires p.fajr == "04:30"
    ensures IsTimeText(p.fajr)
    ensures RecommendedSuhoorTime(p, 15) == "04:15"
  {
    ClockTextParse(p.fajr);
    assert TimeToMinutes(p.fajr) == 270;
    SuhoorAt255(p, 15);
  }

  lemma SuhoorAt255(p: PrayerTimes, minutesBefore: int)
    requires IsTimeText(p.fajr) && SuhoorMinutes(p, minutesBefore) == 255
    ensures RecommendedSuhoorTime(p, minutesBefore) == "04:15"
  {
    SuhoorIsSplitJoin(p, minutesBefore);
    SplitJoinInDay(SuhoorMinutes(p, minutesBefore));
    MinutesToTimeExample(255, 4, 15);
  }

  /** The anchors are readable times. */
  predicate HasAnchors(p: PrayerTimes)
  {
    IsTimeText(p.fajr) && IsTimeText(p.maghrib)
  }

  /** `isDuringFastingHours` with the clock read as `nowMinute`, the minutes since
      local midnight. */
  predicate IsDuringFastingHours(p: PrayerTimes, nowMinute: int)
    requires HasAnchors(p)
  {
    nowMinute >= TimeToMinutes(p.fajr) && nowMinute < TimeToMinutes(p.maghrib)
  }

  datatype HoursMinutes = HoursMinutes(hours: int, minutes: int)

  /** `{ hours: Math.floor(diff / 60), minutes: diff % 60 }` for a positive diff. */
  function SplitMinutes(diff: int): (r: HoursMinutes)
    requires diff > 0
    ensures r.hours * 60 + r.minutes == diff && 0 <= r.minutes < 60 && 0 <= r.hours
  {
    HoursMinutes(diff / 60, JsRem(diff, 60))
  }

  /** `getTimeUntilIftar`: null outside the fast, otherwise the time left to maghrib. */
  function TimeUntilIftar(p: PrayerTimes, nowMinute: int): (r: Option<HoursMinutes>)
    requires HasAnchors(p)
    ensures r.None? <==> !IsDuringFastingHours(p, nowMinute)
    ensures r.Some? ==> && r.value.hours * 60 + r.value.minutes == TimeToMinutes(p.maghrib) - nowMinute
                        && 0 <= r.value.minutes < 60 && 0 <= r.value.hours
  {
    if !IsDuringFastingHours(p, nowMinute) then None
    else Some(SplitMinutes(TimeToMinutes(p.maghrib) - nowMinute))
  }

  /** `getTimeUntilSuhoorEnds`: null from fajr on, otherwise the time left to fajr. */
  function TimeUntilSuhoorEnds(p: PrayerTimes, nowMinute: int): (r: Option<HoursMinutes>)
    requires HasAnchors(p)
    ensures r.None? <==> nowMinute >= TimeToMinutes(p.fajr)
    ensures r.Some? ==> && r.value.hours * 60 + r.value.minutes == TimeToMinutes(p.fajr) - nowMinute
                        && 0 <= r.value.minutes < 60 && 0 <= r.value.hours
  {
    if nowMinute >= TimeToMinutes(p.fajr) then None
    else Some(SplitMinutes(TimeToMinutes(p.fajr) - nowMinute))
  }

  /** At any moment at most one of the two countdowns is running, and before
      fajr the Iftar countdown is never shown. */
  lemma CountdownsExclusive(p: PrayerTimes, nowMinute: int)
    requires HasAnchors(p)
    ensures !(TimeUntilIftar(p, nowMinute).Some? && TimeUntilSuhoorEnds(p, nowMinute).Some?)
  {
  }
}

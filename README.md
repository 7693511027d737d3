# Ramadan medication scheduler — a Dafny model

This project models the core of a Ramadan medication reminder app and proves properties about it. The app turns each prescription into the day's dose times, anchored either to Iftar (the maghrib prayer) and Suhoor (fajr minus 15 minutes) or to a fixed daily table. The model covers:

- the "HH:MM" clock arithmetic of `src/lib/helpers.ts`;
- the dose-time mapper of `src/lib/doseMapper.ts`;
- the prayer-time helpers and the two-tier prayer-times cache of `src/lib/prayerTimes.ts`;
- the persisted medication and dose lists of `src/lib/storage.ts`;
- the in-memory store of `src/stores/medicationStore.ts`;
- the once-a-day dose generation and the today-list derivations of the home page;
- the month grid and the day badges of the calendar page;
- the drug-name search of `src/lib/drugDatabase.ts`;
- the dosage validator and the drug-selection rule of the medication form.

Modules and files:

| module | file | covers |
|---|---|---|
| `Text` | text.dfy | the string built-ins the code uses (`split`, `padStart`, `trim`, `toLowerCase`, `toString`, `includes`) |
| `Seqs` | seqs.dfy | the list built-ins (`filter`, `map`, `some`, `every`, `findIndex`, `slice`) and a stable sort |
| `Dates` | dates.dfy | local calendar days: the Gregorian calendar, day numbers from 1970-01-01, ISO day texts |
| `Types` | types.dfy | the records of `src/types/index.ts`, reading a scheduled instant's ISO date, and the day and order of instants |
| `Helpers` | helpers.dfy | clock arithmetic |
| `DoseMapper` | dose_mapper.dfy | the dose-time mapper and dose generation |
| `Prayer` | prayer_times.dfy | prayer-time helpers and the cache, as class `PrayerTimesCache` |
| `Storage` | storage.dfy | the persisted lists, as class `LocalStorage` |
| `MedicationStore` | medication_store.dfy | the store, as class `MedicationStore` holding a `LocalStorage` |
| `HomePage` | home_page.dfy | home-page generation and derivations |
| `CalendarPage` | calendar_page.dfy | month grid, dose filter, day badge, month navigation |
| `DrugDatabase` | drug_database.dfy | similarity score, best-match and ranked search, lookups |
| `MedicationForm` | medication_form.dfy | `normalizeDosage`, `validateDosage`, and the drug-selection rule as class `FormState` |

Representation choices:

- **Scheduled instants.** A scheduled instant is a `Timestamp(date, minute)`, as `parseTimeToDate` builds it: an ISO date text, and the minutes after that date's local midnight as `setHours` receives them, which may be negative or run past a day. `Types.Instant` reads the date as `new Date` does (`Types.ParseIsoDate`, an Invalid Date when it is not a "YYYY-MM-DD" day) and counts minutes from 1970-01-01 local midnight. An instant falls on the day that count lands in, so a minute below 0 falls on the day before, exactly as `setHours` rolls it over. Instants are ordered by that count.
- **Times of day.** Clock texts are parsed as the code parses them, with `split(':').map(Number)` over integer text.
- **JavaScript remainder.** `%` is JavaScript's truncating remainder (`Helpers.JsRem`) wherever a negative operand can occur.
- **Coordinates.** Coordinates are integers in units of 1e-4 degree, which is what `toFixed(4)` reads.
- **Parameters for effects.** The current time, the current date, freshly generated ids, the network reply and whether a storage write succeeds are all parameters.
- **Warnings.** Warning messages are datatype values; `DoseMapper.WarningText` gives the English texts of the mapper.

Where the code's behaviour is surprising, the model keeps it as written and a lemma shows it:

- `getRecommendedSuhoorTime` does not wrap at midnight: fajr at 00:10 with 15 minutes before gives "-1:-5".
- That Suhoor dose is scheduled at 22:55 of the day before the date it is filed under. The home page's guard looks for doses falling on today, finds none, and so generates the same doses again on every run (`HomePage.MorningSuhoorRegenerates`).
- The 0.7 `startsWith` branch of `similarityScore` cannot be reached.
- The `commonPatterns` fallback of `validateDosage` never accepts a dosage that has no listed unit.
- The "cannot parse the input" skip of the standard-dosage check cannot be reached.
- "0" on its own gets the unit suggestion, not the zero warning.
- Stripping dose-form words from "tablets" leaves "s".
- A drug query that normalises to nothing scores at least 0.8 against every name.
- The store updates every dose with a matching id, while storage updates only the first.

## Model

| member | source | states |
|---|---|---|
| Helpers.TimeToMinutes | src/lib/helpers.ts:40-43 | `split(':').map(Number)` and `hours * 60 + minutes` over integer fields; `ClockTextParse` and `JoinClockParse` state what it reads, and its precondition is discussed under Left out |
| Helpers.MinutesToTime | src/lib/helpers.ts:45-50 | the padded hour and minute of the count modulo a day; stated by `MinutesToTimeIsClock`, `MinutesToTimeReadsBack` and the round-trip lemmas |
| Helpers.JsRem | src/lib/helpers.ts:46 | JavaScript `%`: equals the mathematical remainder for a non-negative dividend and its negation for a negative one |
| Helpers.NormalizeMinutes | src/lib/helpers.ts:46 | `((m % 1440) + 1440) % 1440` with JavaScript's `%` is the non-negative remainder of m by 1440, negative m included |
| Helpers.ClockTextParse | src/lib/helpers.ts:40-43 | a zero-padded "HH:MM" is read back by `split(':').map(Number)` as its two fields, giving a minute of the day in 0..1439 |
| Helpers.JoinClockParse | src/lib/helpers.ts:40-43 | any two integers joined by ':' are read back as exactly those integers |
| Helpers.JoinClockIsClock | src/lib/helpers.ts:45-50 | an hour below 24 and minute below 60, padded and joined, form a clock text with those fields |
| Helpers.MinutesToTimeTemplate | src/lib/helpers.ts:45-50 | the digit-based definition equals the source's `padStart(2, '0')` template of `Math.floor(n / 60)` and `n % 60` of the normalised minute |
| Helpers.ClockTextTemplate | src/lib/helpers.ts:47-49 | the clock text of a minute of the day is the padded template of its hour and minute |
| Helpers.MinutesToTimeIsClock | src/lib/helpers.ts:45-50 | for every integer, negative ones included, the output is a zero-padded clock time with hour 0..23 and minute 0..59 taken from m mod 1440 |
| Helpers.MinutesToTimeReadsBack | src/lib/helpers.ts:40-50 | `timeToMinutes` reads the output back as m's minute of the day |
| Helpers.MinutesToTimeRoundTrip | src/lib/helpers.ts:40-50 | `timeToMinutes(minutesToTime(m)) == ((m % 1440) + 1440) % 1440` |
| Helpers.TimeToMinutesRoundTrip | src/lib/helpers.ts:40-50 | `minutesToTime(timeToMinutes(t)) == t` for every zero-padded clock text t |
| Helpers.MinutesToTimeModDay | src/lib/helpers.ts:45-50 | minute counts that agree modulo a day give the same text |
| Helpers.AddMinutesToTime | src/lib/helpers.ts:30-34 | the time moved by the offset on the 24-hour dial; stated by `AddMinutesToTimeIsClock` and `AddMinutesToTimeAsDate` |
| Helpers.SubtractMinutesFromTime | src/lib/helpers.ts:36-38 | adding the negated offset; `AddThenSubtract` and `SubtractAfterAdd` state it undoes `addMinutesToTime` |
| Helpers.ParseTimeToDate | src/lib/helpers.ts:23-28 | for a date `new Date` reads, the instant falls on that date exactly when the time's minute lies inside the day, other minutes rolling into the neighbouring days; for any other date text the instant is an Invalid Date |
| Helpers.AddMinutesToTimeAsDate | src/lib/helpers.ts:23-34 | parsing the time into today, `setMinutes(getMinutes() + minutes)` and formatting the hour and minute fields gives exactly the modelled `addMinutesToTime` |
| Helpers.DateFieldsClock | src/lib/helpers.ts:33 | the padded `getHours`/`getMinutes` fields of a local instant equal `minutesToTime` of it |
| Helpers.AddMinutesToTimeIsClock | src/lib/helpers.ts:30-34 | the result is a clock time whose minute of the day is the time's minute plus the offset, modulo 1440 (wrapping both ways) |
| Helpers.AddThenSubtract | src/lib/helpers.ts:30-38 | subtracting d after adding d returns the original clock time |
| Helpers.SubtractAfterAdd | src/lib/helpers.ts:36-38 | any text that reads as t moved d minutes forward gives t back when d is subtracted |
| Helpers.WrapForwardExample | src/lib/helpers.ts:30-34 | "23:30" plus 120 minutes is "01:30" |
| Helpers.WrapBackwardExample | src/lib/helpers.ts:36-38 | "00:30" minus 60 minutes is "23:30" |
| Helpers.MinutesToTimeExample | src/lib/helpers.ts:45-50 | the output's five characters are the two hour digits, ':' and the two minute digits |
| Helpers.FormatTime12h | src/lib/helpers.ts:5-12 | the 12-hour rendering; `FormatTime12hClock` and `Format12hParts` state its fields and texts |
| Helpers.FormatCountdown | src/lib/helpers.ts:88-95 | the countdown text; `FormatCountdownUnits` states which units it shows |
| Helpers.FormatTime12hClock | src/lib/helpers.ts:5-12 | the shown hour is 1..12 and congruent to the hour modulo 12 (12 for 0 and 12), the minute field is kept, and the suffix is PM exactly when the hour is at least 12 |
| Helpers.Format12hParts | src/lib/helpers.ts:7-11 | the English text is the shown hour, ':', the padded minute, and " PM" or " AM" by the hour |
| Helpers.FormatCountdownUnits | src/lib/helpers.ts:88-95 | the countdown shows hours exactly when hours > 0, seconds exactly when hours are not positive, and minutes exactly when hours or minutes are positive |
| Helpers.GetTimeRemaining | src/lib/helpers.ts:52-76 | the split into hours, minutes < 60 and seconds < 60 sums to the total; a target earlier than now moves to the next day, so `isOverdue` is false and less than a day remains; for a target inside the day, the total is the whole seconds from now forward to the target modulo a day |
| DoseMapper.ForwardGap | src/lib/doseMapper.ts:101-107 | the forward distance on the 24-hour dial lies in 0..1439 |
| DoseMapper.WindowIsForwardGap | src/lib/doseMapper.ts:137-142 | the window between Iftar and Suhoor, computed with the code's two branches, is the forward distance from Iftar to Suhoor across midnight |
| DoseMapper.SuhoorReadable | src/lib/doseMapper.ts:15 | the recommended Suhoor text (fajr minus 15) can be parsed again |
| DoseMapper.RamadanSchedule | src/lib/doseMapper.ts:10-48 | the Ramadan mapping; `RamadanShape`, `CustomSchedule` and `FoodWarningLast` state its times and warnings |
| DoseMapper.StandardSchedule | src/lib/doseMapper.ts:161-191 | the standard mapping; `StandardShape`, `CustomSchedule` and the table lemmas state its times and warnings |
| DoseMapper.RamadanShape | src/lib/doseMapper.ts:10-48 | the Ramadan mapping gives the frequency's number of doses (custom: the custom list) and its warnings are the frequency warning followed by the food reminder when due |
| DoseMapper.StandardShape | src/lib/doseMapper.ts:161-191 | the standard mapping gives the frequency's number of doses, with the food reminder as its only possible warning |
| DoseMapper.FoodWarningLast | src/lib/doseMapper.ts:44-46 | in both mappings the food reminder ends the warnings exactly when `withFood` is set and there is at least one time |
| DoseMapper.CustomSchedule | src/lib/doseMapper.ts:37-41 | custom times are returned verbatim when present and non-empty, otherwise none, in both mappings, with no frequency warning |
| DoseMapper.MapOnceDailyDose | src/lib/doseMapper.ts:51-69 | the once-a-day Ramadan branch; `RamadanOnce` and `OnceReadable` state its time |
| DoseMapper.MapTwiceDailyDose | src/lib/doseMapper.ts:71-89 | the twice-a-day Ramadan branch; `RamadanTwice` and `TwiceReadable` state its times |
| DoseMapper.MapThriceDailyDose | src/lib/doseMapper.ts:91-126 | the three-times Ramadan branch; `RamadanThrice`, `ThriceMidpoint` and `ThriceReadable` state its times |
| DoseMapper.MapFourTimesDailyDose | src/lib/doseMapper.ts:128-158 | the four-times Ramadan branch; `RamadanFourTimes`, `FourTimesSpacing` and `FourTimesReadable` state its times |
| DoseMapper.RamadanOnce | src/lib/doseMapper.ts:51-69 | once a day: morning gives Suhoor, empty stomach gives an hour before Suhoor, every other preference gives Iftar |
| DoseMapper.RamadanTwice | src/lib/doseMapper.ts:71-89 | twice a day: with food gives Iftar and Suhoor; otherwise empty stomach gives Iftar + 2 h and Suhoor − 1 h; otherwise Iftar and Suhoor |
| DoseMapper.RamadanThrice | src/lib/doseMapper.ts:91-126 | three times a day: Iftar, a middle dose and Suhoor, whatever `withFood` says, with the one three-dose warning |
| DoseMapper.ThriceMidpoint | src/lib/doseMapper.ts:98-109 | the middle dose is a clock time half the window (rounded down) forward of Iftar, across midnight if need be |
| DoseMapper.MidpointReadsBack | src/lib/doseMapper.ts:101-109 | the middle dose text parses back, to the midpoint's minute of the day |
| DoseMapper.MidpointHalfway | src/lib/doseMapper.ts:101-107 | the midpoint lies half the forward window (rounded down) from Iftar |
| DoseMapper.RamadanFourTimes | src/lib/doseMapper.ts:128-158 | four times a day: Iftar then three further doses spaced a quarter of the window apart, with the critical warning |
| DoseMapper.FourTimesSpacing | src/lib/doseMapper.ts:148-152 | the k-th later dose is the clock time of Iftar plus k intervals, as the source formats it after its JavaScript remainder |
| DoseMapper.FourTimesForward | src/lib/doseMapper.ts:137-152 | with both anchors inside the day the k-th dose is exactly k quarter windows forward of Iftar |
| DoseMapper.QuarterOffsets | src/lib/doseMapper.ts:148-152 | the three minutes formatted are one, two and three quarter windows forward of Iftar |
| DoseMapper.QuarterGap | src/lib/doseMapper.ts:150-152 | a step of less than a day forward from a minute of the day is that step forward |
| DoseMapper.RamadanTimesReadable | src/lib/doseMapper.ts:10-48 | every Ramadan dose time parses again, given parseable custom times |
| DoseMapper.OnceReadable | src/lib/doseMapper.ts:51-69 | every once-a-day Ramadan time parses again |
| DoseMapper.TwiceReadable | src/lib/doseMapper.ts:71-89 | every twice-a-day Ramadan time parses again |
| DoseMapper.ThriceReadable | src/lib/doseMapper.ts:91-126 | every three-times Ramadan time parses again |
| DoseMapper.FourTimesReadable | src/lib/doseMapper.ts:128-158 | every four-times Ramadan time parses again |
| DoseMapper.FourTimesFromReadable | src/lib/doseMapper.ts:148-155 | the four doses built from a readable Iftar parse again |
| DoseMapper.AscendingClockTimesMinutes | src/lib/doseMapper.ts:195-253 | ascending clock texts are strictly ascending minutes of the day |
| DoseMapper.StandardTableAscending | src/lib/doseMapper.ts:195-253 | the fixed table gives every non-custom frequency its number of doses at strictly increasing clock times, independent of prayer times |
| DoseMapper.HourText | src/lib/doseMapper.ts:195-253 | "HH:00" is the clock text of hour HH |
| DoseMapper.HourLiterals | src/lib/doseMapper.ts:195-253 | every literal of the table is a whole-hour clock text |
| DoseMapper.TwoHoursAscending | src/lib/doseMapper.ts:211-229 | increasing hours give ascending clock texts (two entries) |
| DoseMapper.ThreeHoursAscending | src/lib/doseMapper.ts:231-241 | the same for three entries |
| DoseMapper.FourHoursAscending | src/lib/doseMapper.ts:243-253 | the same for four entries |
| DoseMapper.MapOnceDailyStandard | src/lib/doseMapper.ts:195-209 | the once-a-day fixed table by preference; `OnceTableAscending` states it gives one readable time |
| DoseMapper.MapTwiceDailyStandard | src/lib/doseMapper.ts:211-229 | the twice-a-day fixed table; `TwiceTableAscending` states each branch gives two readable, strictly increasing times |
| DoseMapper.MapThriceDailyStandard | src/lib/doseMapper.ts:231-241 | the three-times fixed table; `ThriceTableAscending` states each branch gives three readable, strictly increasing times |
| DoseMapper.MapFourTimesDailyStandard | src/lib/doseMapper.ts:243-253 | the four-times fixed table; `FourTimesTableAscending` states each branch gives four readable, strictly increasing times |
| DoseMapper.OnceTableAscending | src/lib/doseMapper.ts:195-209 | every once-a-day table row is ascending |
| DoseMapper.TwiceTableAscending | src/lib/doseMapper.ts:211-229 | every twice-a-day table row is ascending |
| DoseMapper.ThriceTableAscending | src/lib/doseMapper.ts:231-241 | every three-times table row is ascending |
| DoseMapper.FourTimesTableAscending | src/lib/doseMapper.ts:243-253 | every four-times table row is ascending |
| DoseMapper.ScheduleFor | src/lib/doseMapper.ts:261-267 | the Ramadan mapping in Ramadan mode with prayer times, the standard mapping otherwise; `ScheduleTimesReadable` states every chosen time is readable |
| DoseMapper.ScheduleTimesReadable | src/lib/doseMapper.ts:261-267 | the schedule chosen (Ramadan when in Ramadan mode with prayer times, otherwise standard) has only parseable times |
| DoseMapper.DraftsFor | src/lib/doseMapper.ts:269-274 | one pending dose per time, in order, for the medication and the date, at the date's midnight plus the time |
| DoseMapper.GenerateDosesForDate | src/lib/doseMapper.ts:255-275 | the Ramadan path is taken exactly for Ramadan mode with prayer times; the doses are the chosen schedule's times turned into pending doses for the date |
| DoseMapper.GenerateAllDosesForDate | src/lib/doseMapper.ts:277-293 | the loop collects every medication's doses in order and the result is their stable sort by scheduled time |
| DoseMapper.EarlyFajrMorningDose | src/lib/doseMapper.ts:51-69 | with fajr at 00:10, a once-a-day morning medicine in Ramadan mode gets one pending dose at minute −65 of the date, the unwrapped Suhoor "-1:-5" |
| DoseMapper.AllDrafts | src/lib/doseMapper.ts:277-289 | every medication's drafts, medication by medication; `AllDraftsMembers` states a draft is collected exactly when some medication generates it |
| DoseMapper.AllDosesSorted | src/lib/doseMapper.ts:290-292 | the result is ordered by scheduled time and is, with multiplicity, exactly the per-medication doses |
| DoseMapper.AllDraftsPending | src/lib/doseMapper.ts:269-274 | every generated dose is filed under the date and pending |
| DoseMapper.AllDraftsMembers | src/lib/doseMapper.ts:285-288 | a dose is collected exactly when some medication's own generation produced it |
| DoseMapper.GetMedicationWarnings | src/lib/doseMapper.ts:295-309 | the warnings are the Ramadan mapping's in Ramadan mode with prayer times, the standard mapping's otherwise |
| Prayer.MethodCodeInjective | src/lib/constants.ts:6-19 | no two calculation methods share a service code |
| Prayer.StorageKey | src/lib/prayerTimes.ts:10-12 | the persisted key is the fixed prefix followed by the in-memory key |
| Prayer.CacheKey | src/lib/prayerTimes.ts:46 | the coordinates to four decimals, the method and the date joined by '-'; `CacheKeySeparatesDates` states different dates give different keys |
| Prayer.CacheKeySeparatesDates | src/lib/prayerTimes.ts:46 | entries for different dates at the same place and method never share a key |
| Prayer.GetPersisted | src/lib/prayerTimes.ts:14-25 | a stored entry is returned exactly when it is present, parses, and has fajr, maghrib and date |
| Prayer.SetPersisted | src/lib/prayerTimes.ts:27-34 | `setPersistedPrayerTimes`: the entry written under its key when the write succeeds; `PersistRoundTrip` states it reads back and leaves other keys alone |
| Prayer.PersistRoundTrip | src/lib/prayerTimes.ts:14-34 | what is written reads back exactly when it has the three required fields, and a write never changes another key |
| Prayer.RequestFor | src/lib/prayerTimes.ts:61-64 | the request the code sends for a date; `RequestForIsoDate` states an ISO date is sent day first |
| Prayer.RequestForIsoDate | src/lib/prayerTimes.ts:61-64 | an ISO date is sent day first, as `day-month-year` |
| Prayer.ExtractTime | src/lib/prayerTimes.ts:80-82 | the time is the prefix before the first space, and a space-free text is kept whole |
| Prayer.ExtractTimeCutsAtSpace | src/lib/prayerTimes.ts:80-82 | "HH:MM (zone)" becomes "HH:MM" |
| Prayer.ParseReply | src/lib/prayerTimes.ts:66-102 | a result only for an ok response with code 200 and status "OK", its times cut at the first space and its date the target date; every failure is null |
| Prayer.PrayerTimesCache.FetchPrayerTimes | src/lib/prayerTimes.ts:36-103 | memory is consulted first and a hit touches nothing else; then storage, whose hit is copied into memory; otherwise one request, and only a successful reply is stored in both tiers under the exact keys; a failure changes neither tier |
| Prayer.PrayerTimesCache.FetchTwice | src/lib/prayerTimes.ts:48-51 | once a lookup has produced a result, asking again is answered from memory with the same value and no request |
| Prayer.RecommendedSuhoorTime | src/lib/prayerTimes.ts:151-157 | fajr minus the offset, split into hours and minutes without wrapping; `SuhoorIsSplitJoin`, `RecommendedSuhoorInDay` and `RecommendedSuhoorNoWrap` state its text |
| Prayer.SuhoorIsSplitJoin | src/lib/prayerTimes.ts:151-157 | the recommended Suhoor is fajr's minutes minus `minutesBefore`, split with `Math.floor` and `%` and padded |
| Prayer.RecommendedSuhoorInDay | src/lib/prayerTimes.ts:151-157 | when fajr minus `minutesBefore` stays within the day the result is `minutesToTime` of it, a zero-padded clock time |
| Prayer.SplitJoinInDay | src/lib/prayerTimes.ts:154-156 | the split-and-join of a minute of the day is `minutesToTime` of it |
| Prayer.RecommendedSuhoorReadsBack | src/lib/prayerTimes.ts:151-157 | the result always parses, and reads back as fajr minus `minutesBefore` when that is not negative |
| Prayer.SplitJoinReadsBack | src/lib/prayerTimes.ts:154-156 | the split-and-join text parses back to the fields whose total is the count when it is not negative |
| Prayer.RecommendedSuhoorNoWrap | src/lib/prayerTimes.ts:151-157 | there is no midnight wrap: fajr 00:10 with 15 minutes before gives "-1:-5" |
| Prayer.NegativeSuhoorText | src/lib/prayerTimes.ts:153-156 | a total of −5 minutes is formatted as "-1:-5" |
| Prayer.RecommendedSuhoorExample | src/lib/prayerTimes.ts:151-157 | fajr 04:30 with 15 minutes before gives 04:15 |
| Prayer.SuhoorAt255 | src/lib/prayerTimes.ts:153-156 | a total of 255 minutes is formatted as "04:15" |
| Prayer.SplitMinutes | src/lib/prayerTimes.ts:185-188 | a positive difference splits into hours and minutes below 60 that sum back to it |
| Prayer.TimeUntilIftar | src/lib/prayerTimes.ts:159-189 | null exactly outside fajr ≤ now < maghrib; otherwise hours and minutes below 60 summing to maghrib minus now |
| Prayer.TimeUntilSuhoorEnds | src/lib/prayerTimes.ts:191-208 | null exactly from fajr on; otherwise hours and minutes below 60 summing to fajr minus now |
| Prayer.CountdownsExclusive | src/lib/prayerTimes.ts:159-208 | the Iftar and Suhoor countdowns never both run |
| Storage.NewMedication | src/lib/storage.ts:20-37 | the created record holds the entered fields, the new id, and `createdAt == updatedAt == now` |
| Storage.ApplyUpdate | src/lib/storage.ts:53-57 | an update keeps `id` and `createdAt` and sets `updatedAt` to now |
| Storage.NoChangesOnlyTouches | src/lib/storage.ts:53-57 | an update naming no field only refreshes `updatedAt` |
| Storage.ApplyUpdateFields | src/lib/storage.ts:53-57 | a named field takes the update's value; an unnamed one keeps the medication's |
| Storage.ApplyUpdateIdempotent | src/lib/storage.ts:53-57 | applying the same update twice is applying it once, at the later time |
| Storage.MedicationIndex | src/lib/storage.ts:49 | the first index with the id, or −1 exactly when none has it |
| Storage.DoseIndex | src/lib/storage.ts:123 | the first dose index with the id, or −1 exactly when none has it |
| Storage.GetMedicationById | src/lib/storage.ts:39-42 | the first medication with the id, null exactly when there is none |
| Storage.WithoutMedication | src/lib/storage.ts:65 | exactly the medications with another id remain |
| Storage.WithoutDosesOf | src/lib/storage.ts:72-73 | exactly the doses of other medications remain |
| Storage.DosesOn | src/lib/storage.ts:94 | exactly the doses filed under the date |
| Storage.DosesNotOn | src/lib/storage.ts:139 | exactly the doses filed under other dates |
| Storage.WithoutMedicationShorter | src/lib/storage.ts:65-67 | deleting by id shortens the list exactly when some medication has the id |
| Storage.GetDosesByDate | src/lib/storage.ts:92-97 | the result is ordered by scheduled time |
| Storage.GetDosesByDateContents | src/lib/storage.ts:92-97 | the result is exactly the date's doses, each as often as stored |
| Storage.DosesExistForDate | src/lib/storage.ts:143-146 | true exactly when some dose is filed under the date |
| Storage.DosesInRange | src/lib/storage.ts:154 | exactly the doses whose date lies between the bounds in string order |
| Storage.GetDoseStatistics | src/lib/storage.ts:148-162 | the four status counts sum to the number of doses in range |
| Storage.StatusCountsSum | src/lib/storage.ts:157-160 | every dose has exactly one of the four statuses |
| Storage.StatusCountAppend | src/lib/storage.ts:157-160 | a status count grows by one exactly for an appended dose of that status |
| Storage.DeleteKeepsReferences | src/lib/storage.ts:63-77 | the cascading delete keeps every remaining dose attached to a remaining medication |
| Storage.UpdateKeepsIds | src/lib/storage.ts:49-57 | replacing a medication by its update keeps every id of the list |
| Storage.LocalStorage.CreateMedication | src/lib/storage.ts:20-37 | exactly one record is appended, the new medication, and nothing else changes; unique ids stay unique when the id is fresh |
| Storage.LocalStorage.UpdateMedication | src/lib/storage.ts:44-61 | an unknown id returns null and saves nothing; otherwise only the first matching entry is replaced by its update, which is returned |
| Storage.LocalStorage.DeleteMedication | src/lib/storage.ts:63-77 | false exactly when no medication has the id, and then nothing changes; otherwise the medication and all its doses go and the rest stay |
| Storage.LocalStorage.CreateScheduledDose | src/lib/storage.ts:103-115 | exactly one dose is appended, carrying the generated id |
| Storage.LocalStorage.UpdateDoseStatus | src/lib/storage.ts:117-135 | an unknown id returns null and saves nothing; otherwise the first matching dose gets the status and the actual time (cleared when absent), with no check of the previous status |
| Storage.LocalStorage.SaveDoses | src/lib/storage.ts:87-90 | the persisted dose list becomes exactly the given list |
| Storage.LocalStorage.DeleteDosesByDate | src/lib/storage.ts:137-141 | exactly the date's doses are removed |
| Storage.DeleteDosesByDateEffect | src/lib/storage.ts:137-146 | after the delete no dose is on the date, and a date without doses leaves the list as it was |
| MedicationStore.ReplaceMedication | src/stores/medicationStore.ts:82-84 | every entry with the id is replaced and every other entry kept |
| MedicationStore.SetStatus | src/stores/medicationStore.ts:120-125 | every dose with the id gets the status and actual time; other doses are unchanged |
| MedicationStore.ReplaceMatchesStorage | src/stores/medicationStore.ts:78-88 | with distinct ids the store's replace-every-match equals storage's replace-the-first, so the two copies agree |
| MedicationStore.SetStatusMatchesStorage | src/stores/medicationStore.ts:116-127 | the same agreement for a status change |
| MedicationStore.SetStatusDuplicateIds | src/stores/medicationStore.ts:116-127 | with two doses sharing an id, storage changes one and the store both |
| MedicationStore.LastWithId | src/stores/medicationStore.ts:169 | the id map yields the last medication with the id, and null exactly when none has it |
| MedicationStore.LastWithIdIsFirst | src/stores/medicationStore.ts:169-173 | with distinct ids the map lookup finds what `find` finds |
| MedicationStore.ScheduleOf | src/stores/medicationStore.ts:171-177 | each schedule item pairs a dose with its medication, in dose order |
| MedicationStore.ScheduleDoses | src/stores/medicationStore.ts:171-177 | the schedule lists, in order, exactly the doses whose medication is known |
| MedicationStore.NextPending | src/stores/medicationStore.ts:180-182 | null exactly when no pending item lies after now; otherwise the first such item |
| MedicationStore.WithIds | src/stores/medicationStore.ts:150-153 | the k-th created dose is the k-th draft with the k-th generated id |
| MedicationStore.GeneratedReplaceDate | src/stores/medicationStore.ts:143-153 | after generation the date's persisted doses are exactly the new ones and other dates' doses are untouched |
| MedicationStore.GeneratedAreOnDate | src/stores/medicationStore.ts:147-153 | every generated dose is pending and filed under the date |
| MedicationStore.MedicationStore.constructor | src/stores/medicationStore.ts:58-63 | the store starts with empty lists, no prayer times and not loading |
| MedicationStore.MedicationStore.LoadMedications | src/stores/medicationStore.ts:65-68 | the medications become storage's; nothing else changes |
| MedicationStore.MedicationStore.LoadDoses | src/stores/medicationStore.ts:106-109 | the doses become storage's; nothing else changes |
| MedicationStore.MedicationStore.LoadTodaysDoses | src/stores/medicationStore.ts:129-132 | today's list becomes storage's doses of today, sorted by time |
| MedicationStore.MedicationStore.AddMedication | src/stores/medicationStore.ts:70-76 | the created medication is appended in storage and in the store |
| MedicationStore.MedicationStore.UpdateMedication | src/stores/medicationStore.ts:78-88 | storage updates the first match; the store replaces the matches only when storage returned a record, and is unchanged otherwise |
| MedicationStore.MedicationStore.DeleteMedication | src/stores/medicationStore.ts:90-100 | on success the medication and its doses leave storage, `medications`, `doses` and `todaysDoses`; on failure nothing changes |
| MedicationStore.MedicationStore.ClearMedications | src/stores/medicationStore.ts:102-104 | the three in-memory lists become empty; storage is not touched |
| MedicationStore.MedicationStore.SetDoses | src/stores/medicationStore.ts:111-114 | the dose list is replaced, not merged, both here and in storage |
| MedicationStore.MedicationStore.UpdateDoseStatus | src/stores/medicationStore.ts:116-127 | storage and both lists change the status of the matching doses; the actual time is recorded exactly for `taken` |
| MedicationStore.MedicationStore.GenerateDoses | src/stores/medicationStore.ts:138-160 | the date's stored doses are replaced by the sorted generated doses with fresh ids; `todaysDoses` is set only when the date is today; `isLoading` ends false |
| MedicationStore.MedicationStore.ReplaceStoredDoses | src/stores/medicationStore.ts:143-153 | the date's previous doses are deleted and the created ones appended after the rest |
| MedicationStore.MedicationStore.CreateDoses | src/stores/medicationStore.ts:149-153 | each draft is created in storage, in order, and collected |
| MedicationStore.MedicationStore.SetPrayerTimes | src/stores/medicationStore.ts:162-164 | only the prayer times change |
| MedicationStore.MedicationStore.GetDashboardData | src/stores/medicationStore.ts:166-196 | the schedule drops doses whose medication is missing, the next dose is the first pending item after now, and the counts are per-status counts of today's doses |
| HomePage.AfterLastDash | src/app/page.tsx:72 | the suffix after the last '-', which holds no '-' |
| HomePage.AfterLastDashDigits | src/app/page.tsx:72 | a digit run after a '-' is exactly what follows the last '-' |
| HomePage.DoseId | src/app/page.tsx:72 | `${med.id}-${todayStr}-${index}`; `DoseIdInjective` and `AfterLastDashDigits` state that the index is read back and different indexes give different ids |
| HomePage.DoseIdInjective | src/app/page.tsx:72 | for one date, `${med.id}-${todayStr}-${index}` determines the medication id and the index |
| HomePage.Numbered | src/app/page.tsx:70-75 | one medication's doses numbered from zero in schedule order |
| HomePage.NumberedSnoc | src/app/page.tsx:70-75 | numbering one more dose appends it with the next index |
| HomePage.NewDoses | src/app/page.tsx:66-76 | every medication's generated doses, numbered `${med.id}-${todayStr}-${index}`, in medication order; `BuildNewDoses`, `NewDosesUniqueIds` and `NewDosesFiled` state it |
| HomePage.NewDosesSingle | src/app/page.tsx:66-76 | for one medication the new doses are its generated doses numbered from 0 |
| HomePage.BuildNewDoses | src/app/page.tsx:66-76 | the nested `forEach` builds exactly the page's generated doses |
| HomePage.NewDosesSnoc | src/app/page.tsx:67-76 | one more medication appends its numbered doses |
| HomePage.PushNumbered | src/app/page.tsx:70-75 | the inner `forEach` appends the medication's doses, the k-th with the id for position k |
| HomePage.NumberAllIds | src/app/page.tsx:67-75 | every generated id is some medication's id, the date and a position |
| HomePage.NumberedUniqueIds | src/app/page.tsx:70-75 | one medication's doses get distinct ids |
| HomePage.NumberAllAvoids | src/app/page.tsx:67-75 | doses of earlier medications cannot share an id with a later medication whose id differs |
| HomePage.NumberAllUniqueIds | src/app/page.tsx:67-75 | with distinct medication ids all generated ids are distinct |
| HomePage.NewDosesUniqueIds | src/app/page.tsx:66-76 | the same for the page's generated doses |
| HomePage.AfterEffect | src/app/page.tsx:52-82 | the dose list after one run of the effect; `GenerateTodaysDoses` states the store reaches it and the lemmas below state when it changes |
| HomePage.GenerateTodaysDoses | src/app/page.tsx:52-82 | without prayer times or medications, or with a dose already on today, nothing happens; otherwise a non-empty generation replaces the whole dose list, in the store and in storage |
| HomePage.EffectIdempotent | src/app/page.tsx:52-82 | running the effect twice on its own output is running it once: it is skipped, or the same doses with the same ids come again |
| HomePage.GeneratedTodaySkips | src/app/page.tsx:59-65 | when the local day and the filing date agree, a generated dose makes the next run skip |
| HomePage.RerunRegenerates | src/app/page.tsx:59-82 | after a run that generated doses, the next run generates again exactly when none of the new doses falls on the local day |
| HomePage.MorningSuhoorRegenerates | src/app/page.tsx:52-82 | with fajr at 00:10 on 2026-06-10, the one Suhoor dose lands on the previous evening, so the effect generates it on the first run and again on the next |
| HomePage.NewDosesFiled | src/app/page.tsx:67-75 | every generated dose is filed under and scheduled on the date, pending, with no actual time |
| HomePage.TodaysDoses | src/app/page.tsx:102-112 | today's list is ordered by scheduled time |
| HomePage.TodaysDosesContents | src/app/page.tsx:102-111 | exactly the doses whose instant falls on the local day, overflowing minutes counted on the neighbouring day, each as often as stored |
| HomePage.NextDose | src/app/page.tsx:115-118 | null exactly when no pending dose is after now; otherwise the first pending dose after now |
| HomePage.NextDoseEarliest | src/app/page.tsx:115-118 | in the time-ordered list the next dose is scheduled no later than any pending dose after now |
| HomePage.CountsOf | src/app/page.tsx:125-127 | the completed, pending and missed counts together with the skipped ones add up to today's doses |
| Dates.DaysInMonth | src/app/calendar/page.tsx:48-49 | the month has 28 to 31 days, 29 exactly for February of a leap year |
| CalendarPage.Weekday | src/app/calendar/page.tsx:50 | `getDay()` lies in 0..6 |
| CalendarPage.WeekdayExamples | src/app/calendar/page.tsx:50 | 1 January 1970 is a Thursday (4) and 14 October 2026 a Wednesday (3) |
| Dates.YearLength | src/app/calendar/page.tsx:48 | a year has 366 days when it is a leap year, 365 otherwise |
| Dates.DaysBeforeYearMonotone | src/app/calendar/page.tsx:70-74 | a later year starts on a day number no smaller than the end of an earlier one |
| Dates.MonthEnds | src/app/calendar/page.tsx:48-49 | each month ends where the next starts, and December ends with the year |
| Dates.MonthsOrdered | src/app/calendar/page.tsx:70-74 | every day of a month precedes every day of a later month of the same year |
| Dates.DayInYear | src/app/calendar/page.tsx:70-74 | a valid day's number lies within its year's range |
| Dates.DayNumberInjective | src/app/calendar/page.tsx:70-74 | two valid days have the same day number exactly when they are the same day, so equal day numbers mean equal `getDate`, `getMonth` and `getFullYear` |
| Dates.DigitsValueOfDigits | src/lib/helpers.ts:14-16 | a number written with enough digits reads back as itself |
| Dates.DigitsOfValue | src/lib/helpers.ts:23-25 | a digit text is the fixed-width writing of its own value |
| CalendarPage.MonthLength | src/app/calendar/page.tsx:48-49 | the first of the next month lies the month's length after the first of this month |
| CalendarPage.GetDaysInMonth | src/app/calendar/page.tsx:44-65 | the two loops give `startingDay` blanks and then days 1..daysInMonth in order |
| CalendarPage.GridColumnIsWeekday | src/app/calendar/page.tsx:44-65 | each day lands in the column of its weekday |
| CalendarPage.NextGridStart | src/app/calendar/page.tsx:44-65 | the next month's grid starts in the column after this month's last day |
| CalendarPage.PreviousMonth | src/app/calendar/page.tsx:91-93 | going back lands on day 1 of the month before, across a year boundary too |
| CalendarPage.NextMonth | src/app/calendar/page.tsx:95-97 | going forward lands on day 1 of the month after |
| CalendarPage.NavigationRoundTrip | src/app/calendar/page.tsx:91-97 | back then forward, or forward then back, returns to day 1 of the month |
| Dates.DayKey | src/lib/helpers.ts:14-16 | the "YYYY-MM-DD" text of a day; `DayKeyInjective` and `Types.DayKeyReadsBack` state it names the day uniquely and reads back |
| Dates.YearText | src/lib/helpers.ts:14-16 | the year is written as four digits, or as a sign and six digits outside 0..9999 |
| Dates.YearTextInjective | src/lib/helpers.ts:14-16 | different years are written differently |
| Dates.DayKeyInjective | src/lib/helpers.ts:14-16 | two days share a key exactly when they are the same day, so keys compare year, month and day |
| CalendarPage.DosesForDate | src/app/calendar/page.tsx:67-76 | exactly the doses whose instant has that day's `getDate`, `getMonth` and `getFullYear`, overflowing minutes counted on the neighbouring day, in their stored order |
| CalendarPage.DayStatusNone | src/app/calendar/page.tsx:78-80 | no badge exactly when no dose falls on the day |
| CalendarPage.DayStatusMissed | src/app/calendar/page.tsx:82-83 | the missed badge exactly when one of the day's doses was missed, whatever else there is |
| CalendarPage.DayStatusAllTaken | src/app/calendar/page.tsx:85-86 | the all-taken badge exactly when the day has doses, none missed, and every one taken or skipped |
| CalendarPage.DayStatusPending | src/app/calendar/page.tsx:88 | the pending badge exactly when the day has doses, none missed, and one not taken or skipped |
| CalendarPage.GetDayStatus | src/app/calendar/page.tsx:78-89 | the day's badge from its doses; the four `DayStatus` lemmas state when each badge is given |
| DrugDatabase.NormalizeIgnoresCase | src/lib/drugDatabase.ts:1335-1341 | the normalisation gives the same text for a query and its lower-case form |
| DrugDatabase.NormalizeString | src/lib/drugDatabase.ts:1335-1341 | lower-case, trim, drop unkept characters, collapse white space; `NormalizedChars`, `NormalizedSingleSpaces` and `NormalizeIgnoresCase` state its output |
| DrugDatabase.NormalizedChars | src/lib/drugDatabase.ts:1335-1341 | every output character is one the filter keeps and none an upper-case ASCII letter, its only white space is the plain space, and every other character is one of the lower-cased input |
| DrugDatabase.NormalizedSingleSpaces | src/lib/drugDatabase.ts:1335-1341 | the output never holds two spaces in a row |
| Text.CollapseSpacesStart | src/lib/drugDatabase.ts:1340 | `replace(/\s+/g, ' ')` gives an empty text exactly for an empty input, and starts with a space exactly when the input starts with white space |
| Text.CollapseSpacesChars | src/lib/drugDatabase.ts:1340 | after `replace(/\s+/g, ' ')` the only white space is the plain space and every other character comes from the input |
| Text.CollapseSpacesSingle | src/lib/drugDatabase.ts:1340 | after `replace(/\s+/g, ' ')` no two spaces are adjacent |
| Text.TrimKeeps | src/lib/drugDatabase.ts:1338 | `trim()` keeps only characters of its input |
| DrugDatabase.WordOverlap | src/lib/drugDatabase.ts:1356-1362 | the word score lies in 0..0.5 and is positive exactly when a word of the first text occurs among the second's |
| DrugDatabase.HalfShare | src/lib/drugDatabase.ts:1360-1361 | `0.5 * common / total` for a positive share lies in (0, 0.5] |
| DrugDatabase.SimilarityScore | src/lib/drugDatabase.ts:1346-1365 | 1 for equal normalised texts, otherwise 0.8 when one contains the other, otherwise the word overlap; always in 0..1 |
| DrugDatabase.PrefixContained | src/lib/drugDatabase.ts:1351-1354 | a prefix is contained, so the 0.7 `startsWith` branch is never reached |
| DrugDatabase.SimilarityIgnoresCase | src/lib/drugDatabase.ts:1346-1365 | the score ignores the query's letter case |
| DrugDatabase.EmptyNormalizedQueryMatchesAll | src/lib/drugDatabase.ts:1346-1353 | a query that normalises to nothing scores at least 0.8 against every name |
| DrugDatabase.MaxScore | src/lib/drugDatabase.ts:1424-1439 | the best score over a drug's names bounds every name's score and is one of them, or 0 for none |
| DrugDatabase.BestScore | src/lib/drugDatabase.ts:1377-1409 | the best drug score bounds every drug's and is one of them, or 0 for an empty database |
| DrugDatabase.BestScoreAtMostOne | src/lib/drugDatabase.ts:1346-1365 | no database scores above 1 |
| DrugDatabase.ExactNameScoresOne | src/lib/drugDatabase.ts:1348 | a name equal to the query after normalisation gives the best score 1 |
| DrugDatabase.SearchDrug | src/lib/drugDatabase.ts:1370-1413 | null for a query shorter than two characters; otherwise a drug exactly when the best score is at least 0.5, and then the first drug reaching it |
| DrugDatabase.SearchDrugBy | src/lib/drugDatabase.ts:1370-1413 | the same search over any scoring: the nested loops end with the first best-scoring drug, ties keeping the earliest |
| DrugDatabase.OfferNames | src/lib/drugDatabase.ts:1380-1407 | after one drug's names, the best score is the larger of the old best and the drug's, and the drug becomes the match only when it scores strictly higher |
| DrugDatabase.BestScoreSnoc | src/lib/drugDatabase.ts:1377-1409 | the best score over one more drug is the larger of the two |
| DrugDatabase.Candidates | src/lib/drugDatabase.ts:1423-1444 | exactly the drugs scoring at least 0.3, with their scores, in database order |
| DrugDatabase.ScoreDescendingIsTotalPreorder | src/lib/drugDatabase.ts:1448 | the descending-score comparator is a total preorder, so the sort is well defined |
| DrugDatabase.SearchDrugs | src/lib/drugDatabase.ts:1418-1451 | an empty list for a short query; otherwise the ranked candidates cut to the limit |
| DrugDatabase.SearchDrugsBy | src/lib/drugDatabase.ts:1418-1451 | the same over any scoring: the loop collects the candidates, which are then ranked and cut |
| DrugDatabase.NamesMaxScore | src/lib/drugDatabase.ts:1424-1439 | the inner loop computes the best score over the names |
| DrugDatabase.RankedOrder | src/lib/drugDatabase.ts:1447-1448 | the ranked list holds exactly the candidates, highest score first |
| DrugDatabase.TopMatchesMeaning | src/lib/drugDatabase.ts:1447-1450 | every match scores at least 0.3, there are at most `limit` of them, they come highest score first, and no candidate left out scores higher than a match |
| DrugDatabase.TopMatchesComplete | src/lib/drugDatabase.ts:1447-1450 | with no more candidates than the limit every drug scoring at least 0.3 is returned |
| DrugDatabase.GetDrugById | src/lib/drugDatabase.ts:1456-1458 | the first drug with the id, null exactly when none has it |
| DrugDatabase.GetDrugsByCategory | src/lib/drugDatabase.ts:1463-1465 | exactly the drugs of the category |
| DrugDatabase.GetDrugsByCategoryCount | src/lib/drugDatabase.ts:1463-1465 | each drug of the category as often as the database holds it, others not at all |
| DrugDatabase.SampleLookups | src/lib/drugDatabase.ts:1456-1465 | over three sample records: lookups by id and by category give the expected drugs in database order |
| MedicationForm.NormalizeDosage | src/components/MedicationForm.tsx:47-55 | the dosage lower-cased, its white space collapsed and trimmed, and dose-form words with the spaces around them removed; `StripForms`, `StripFormsKeepsDigits` and `NormalizedKeepsNumber` state what it keeps |
| MedicationForm.ValidateDosage | src/components/MedicationForm.tsx:57-165 | the dosage warning; `BlankHasNoWarning`, the `Meaning` lemmas, `PassingDosageIsCompared` and `NotStandardMeaning` state each outcome |
| MedicationForm.LeadingForm | src/components/MedicationForm.tsx:52 | a dose-form word from the pattern's alternatives, tried in their order, that starts the text and has no digit |
| MedicationForm.FormMatchLength | src/components/MedicationForm.tsx:52 | a match of the dose-form pattern with its surrounding spaces is non-empty and within the text |
| MedicationForm.StripForms | src/components/MedicationForm.tsx:52 | the global replacement never lengthens the text |
| MedicationForm.StripFormsKeepsDigits | src/components/MedicationForm.tsx:52 | stripping keeps every digit, in order |
| MedicationForm.MatchDropsNoDigit | src/components/MedicationForm.tsx:52 | a dropped match contains no digit |
| MedicationForm.FormMatchHasNoDigit | src/components/MedicationForm.tsx:52 | a dose-form match is white space and letters only |
| MedicationForm.PluralLeavesS | src/components/MedicationForm.tsx:52 | the singular is tried first, so "tablets" leaves "s" |
| MedicationForm.FractionValue | src/components/MedicationForm.tsx:72 | digits after the point are worth less than 1, and 0 exactly when all are zeros |
| MedicationForm.DecimalValue | src/components/MedicationForm.tsx:72 | `parseFloat` of the match is not negative |
| MedicationForm.NumberAt | src/components/MedicationForm.tsx:71 | `(\d+\.?\d*)` from a digit gives a well-formed decimal |
| MedicationForm.NumberEnd | src/components/MedicationForm.tsx:71 | the matched number is non-empty and within the text |
| MedicationForm.DecimalAbove5000 | src/components/MedicationForm.tsx:75 | a value above 5000 is a whole part above 5000, or exactly 5000 with a non-zero digit after the point |
| MedicationForm.DecimalZero | src/components/MedicationForm.tsx:94 | a zero value is a number of zeros only |
| MedicationForm.QuantityOf | src/components/MedicationForm.tsx:106-113 | the number-and-unit pattern matches exactly when the text has a digit, giving a well-formed decimal |
| MedicationForm.CheckStandards | src/components/MedicationForm.tsx:101-161 | the comparison gives no warning or the not-standard warning naming the dosage, the drug in the form's language and the standards |
| MedicationForm.FirstNumber | src/components/MedicationForm.tsx:63-72 | the first number is present exactly when the text has a digit, and is not negative |
| MedicationForm.StandardsWarning | src/components/MedicationForm.tsx:101 | only the not-standard warning can come from the comparison |
| MedicationForm.CleanedDigits | src/components/MedicationForm.tsx:60 | trimming and lower-casing neither add nor remove a digit |
| MedicationForm.BlankHasNoWarning | src/components/MedicationForm.tsx:58 | a blank dosage gets no warning |
| MedicationForm.MissingNumberMeaning | src/components/MedicationForm.tsx:58-68 | the missing-number warning is given exactly to a dosage that is not blank and has no digit |
| MedicationForm.UnusuallyHighMeaning | src/components/MedicationForm.tsx:71-80 | the high-dose warning is given exactly when the first number exceeds 5000, before any unit or zero check |
| MedicationForm.PatternImpliesUnit | src/components/MedicationForm.tsx:82-86 | a text matching `\d+\s*(mg\|g\|ml\|tablet\|capsule\|قرص\|كبسولة)` already contains a listed unit |
| MedicationForm.MissingUnitMeaning | src/components/MedicationForm.tsx:82-91 | the unit suggestion is given exactly when a number at most 5000 is present and no listed unit occurs; the fallback pattern never rescues such a dosage |
| MedicationForm.ZeroDosageMeaning | src/components/MedicationForm.tsx:94-98 | the zero warning is given exactly to a dosage with a listed unit whose first number is zero |
| MedicationForm.UnitsStartWithLetter | src/components/MedicationForm.tsx:42-44 | every listed unit starts with a character that is not a digit, a space or a point |
| MedicationForm.BareNumberNeedsUnit | src/components/MedicationForm.tsx:82-98 | a dosage of digits, spaces and points such as "0" gets the unit suggestion before the zero check |
| MedicationForm.BareHasNoUnit | src/components/MedicationForm.tsx:82 | no listed unit occurs in a text of digits, spaces and points |
| MedicationForm.NormalizedKeepsNumber | src/components/MedicationForm.tsx:102-110 | a dosage with a digit still has one after `normalizeDosage`, so the "cannot parse" skip is never reached |
| MedicationForm.PassingDosageIsCompared | src/components/MedicationForm.tsx:94-101 | a dosage passing the earlier checks gets the verdict of the standard-dosage comparison |
| MedicationForm.CheckStandardsMeaning | src/components/MedicationForm.tsx:101-155 | no warning exactly when some normalised standard equals the input, or has the same number and the same or an equivalent unit |
| MedicationForm.NotStandardMeaning | src/components/MedicationForm.tsx:101-161 | for a selected drug with standards: no warning exactly when a standard accepts the dosage, otherwise the message naming the dosage, the drug and the standards |
| MedicationForm.NoStandardsNoWarning | src/components/MedicationForm.tsx:100-101 | without a selected drug with standard dosages, a dosage passing the earlier checks gets no warning |
| MedicationForm.FoodDefaults | src/components/MedicationForm.tsx:254-260 | `withFood` becomes true for with-food and after-meal, false for empty-stomach and before-meal; the preference becomes empty-stomach exactly for empty-stomach and before-meal and is kept for every other timing |
| MedicationForm.FoodDefaultsIdempotent | src/components/MedicationForm.tsx:254-260 | selecting the same drug twice fills in nothing more |
| MedicationForm.FormState.SelectDrug | src/components/MedicationForm.tsx:249-261 | the name in the form's language, the drug selected, the suggestions hidden and the food defaults filled in |
| Types.ParseIsoDate | src/lib/helpers.ts:23-25 | `new Date(date)` on a "YYYY-MM-DD" text: a valid day of years 0..9999 whose key is the text itself, otherwise none |
| Types.DayKeyReadsBack | src/lib/helpers.ts:14-25 | the key of a day of years 0..9999 reads back as that day |
| Types.Instant | src/lib/helpers.ts:23-28 | the instant's minute count is defined exactly when its date reads as a day |
| Types.OnDay | src/app/page.tsx:59-63 | the instant, set to local midnight, is the given day's midnight; `OnDayWithinDate` and `OnCalendarDayMeaning` state which minutes fall on it |
| Types.OnCalendarDayMeaning | src/app/calendar/page.tsx:67-76 | an instant falls on a day exactly when that day is its date moved by the whole days its minute runs over |
| Types.OnDayWithinDate | src/app/page.tsx:59-63 | an instant falls on its own date exactly when its minute lies inside the day, and an Invalid Date falls on no day |
| Types.OnOneDay | src/app/calendar/page.tsx:67-76 | an instant falls on at most one day |
| Types.RolledBackInstant | src/lib/helpers.ts:23-28 | minute −65 of 2026-06-10 falls on 2026-06-09 (at 22:55), not on 2026-06-10, and is ordered strictly before 23:20 of 2026-06-09 |
| Types.TimeLe | src/lib/doseMapper.ts:290-292 | the order of `getTime()` values; `TimeLeTotal`, `TimeLeTransitive` and `AfterNotLe` state it |
| Types.AfterNotLe | src/app/page.tsx:115-118 | an instant strictly after another is not ordered before it, and the other is ordered before it |
| Types.DosesOnDay | src/app/page.tsx:102-111 | exactly the doses whose scheduled instant, with `setHours` overflow carried into the neighbouring days, falls on the given day, in their stored order |
| Types.TimeLeTotal | src/lib/doseMapper.ts:290-292 | any two instants are comparable |
| Types.TimeLeTransitive | src/lib/doseMapper.ts:290-292 | the order on instants is transitive |
| Types.DoseLeIsTotalPreorder | src/lib/storage.ts:94-96 | ordering doses by scheduled time is a total preorder |
| Types.DraftLeIsTotalPreorder | src/lib/doseMapper.ts:290-292 | ordering dose drafts by scheduled time is a total preorder |

## Left out

- Server-side rendering: the `typeof window === 'undefined'` branches, where storage yields nothing, are not modelled; the model always has a browser.
- JSON: `JSON.parse`/`JSON.stringify` of stored lists is not modelled. A persisted prayer-times entry is a `StoredEntry` that either failed to parse or holds a record.
- Dates: time zones and daylight saving are left out, so every day has 1440 minutes. `new Date("YYYY-MM-DD")` is UTC midnight in the source; the model uses the local day. Only "YYYY-MM-DD" texts of years 0..9999 read as days (`Types.ParseIsoDate`); the other texts V8 accepts leniently are Invalid Dates in the model. For a date text `new Date` cannot read, `toISOString()` throws a `RangeError` in `generateDosesForDate`; that throw is not modelled, and the model files an Invalid timestamp instead (every caller passes `getCurrentDate()`). `parseTimeToDate(time)` with the date omitted means today; that form is modelled by the day-relative members (`AddMinutesToTime`, `GetTimeRemaining`), not by `ParseTimeToDate`.
- Types.TimeLe: an Invalid Date has a `NaN` time, so the source's sort comparator returns `NaN` for it; the model instead orders invalid instants after every valid one, which keeps the sort a total preorder.
- `getCurrentDate` uses the UTC date while the home page compares local days. In the model both are parameters (`todayStr`, `localToday`), so a disagreement between them can be expressed but is not simulated.
- CalendarPage: the Gregorian rule is applied to every integer year. JavaScript's mapping of years 0..99 to 1900..1999 in `new Date(y, m, d)` is not modelled.
- ISO year texts beyond six digits are not modelled; `Dates.DayKeyInjective` is stated for years inside ±999999.
- Storage.ApplyUpdate: an optional field given as `undefined` clears it, but a required field (name, dosage, frequency, preference, `withFood`) given as `undefined` cannot be expressed.
- Ids: `generateId` (`Date.now()` and `Math.random`) is an id parameter. Freshness is not assumed, so lemmas about unique ids carry it as a precondition.
- Numbers: floating point is not modelled. Similarity scores are reals; `parseFloat` reads the matched decimal exactly; `toFixed(4)` is applied to coordinates already held in 1e-4 units.
- Case mapping: `toLowerCase` changes only ASCII letters in the model; case mapping of other scripts is left out.
- DrugDatabase.SearchDrug and DrugDatabase.SearchDrugs: the `query.length < 2` guard counts UTF-16 code units in the source but characters in the model, so a query of one character outside the Basic Multilingual Plane is searched by the source and gets no result in the model.
- Prayer.RecommendedSuhoorTime, DrugDatabase.SearchDrugs and Helpers.FormatTime12h: the default arguments `minutesBefore = 10`, `limit = 5` and `isArabic = false` are plain parameters; every value is accepted, so a caller omitting them is modelled by passing the default.
- Text of messages: warnings and validation results are datatype values. Only the dose mapper's English warning texts are written out.
- DrugDatabase: the database is a parameter, and three sample records (metformin, glibenclamide, amlodipine) stand in for the full table. A record carries its id, names, aliases, category, food timing and standard dosages, but not its instruction, warning and Ramadan-note texts.
- DrugDatabase: the unicode character classes of `normalizeString` are reduced to lower-case ASCII letters, digits, spaces and the Arabic block.
- DrugDatabase.SearchDrugBy and DrugDatabase.SearchDrugsBy: these take the name scoring as a parameter, so the loop proofs do not depend on how `similarityScore` is computed. `SearchDrug` and `SearchDrugs` instantiate them with `SimilarityScore`.
- Network: `fetch` is a function parameter answering the one request; `async`, promises, `console.error` and timing are left out. `getCurrentLocation` (geolocation and reverse geocoding) is not part of this model.
- Prayer: the fuzzy coordinate matching, retry and timeout asserted by the prayer-times tests are not implemented by `fetchPrayerTimes`, and the model does not add them.
- Prayer: `prayerTimesCache` is a field of the `PrayerTimesCache` object instead of a module-level record shared by all callers.
- Prayer.IftarTime, Prayer.SuhoorEndTime and Prayer.IsDuringFastingHours: these are plain field reads, or the comparison fajr ≤ now < maghrib. They carry no contract of their own; `TimeUntilIftar` and `CountdownsExclusive` state what follows from them.
- MedicationStore: `loadDosesForDate` is not modelled; it only returns `getDosesByDate`, which is modelled. `set` is a sequence of field assignments; zustand's subscription and re-rendering are left out.
- HomePage: the React effect is modelled as one call of `GenerateTodaysDoses` on the store's state. Re-running on dependency changes, `handleRefresh` and the rendering are left out.
- MedicationForm: form state other than what `handleSelectDrug` sets (inputs, suggestions list, submission) is left out.
- Helpers: `getCurrentTime`, `formatTime`, `formatDate` and `generateId` are outside the core and are not modelled.
- Helpers.GetTimeRemaining: "now" is the number of milliseconds since today's local midnight, below one day. The contract states the seconds left only for a target inside the day; for a target at a negative or overflowing minute it states the bounds and the split.
- Helpers.TimeToMinutes, DoseMapper.Generatable, DoseMapper.GenerateDosesForDate, DoseMapper.GenerateAllDosesForDate, MedicationStore.MedicationStore.GenerateDoses and HomePage.GenerateTodaysDoses: these require time texts that `split(':').map(Number)` reads as two integers. Other texts are not modelled: a field that reads as `NaN` makes `toISOString` throw a `RangeError`, and texts `Number` coerces leniently ("5:" as 5 and 0, blanks, decimals, exponents) are not read.

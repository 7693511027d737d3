/** The home page's share of the scheduling logic (src/app/page.tsx): the
    effect that generates today's doses once, with ids built from the
    medication, the date and the dose's position, and the page's view of
    today: the day's doses in time order, the next dose due and three
    status counts. */
module HomePage {
  import opened Text
  import opened Seqs
  import opened Types
  import opened Dates
  import opened Helpers
  import opened DoseMapper
  import opened Storage
  import opened MedicationStore

  // ---------------------------------------------------------------- dose ids

  /** `${med.id}-${todayStr}-${index}`. */
  function DoseId(medicationId: string, date: string, index: nat): string
  {
    medicationId + "-" + date + "-" + NatToString(index)
  }

  /** The text after the last '-' (all of it when there is none). */
  function AfterLastDash(s: string): (r: string)
    ensures |r| <= |s| && r == s[|s| - |r|..]
    ensures '-' !in r
  {
    if s == [] || s[|s| - 1] == '-' then []
    else AfterLastDash(s[..|s| - 1]) + [s[|s| - 1]]
  }

  /** A run of digits after a '-' is exactly what follows the last '-'. */
  lemma {:induction false} AfterLastDashDigits(x: string, u: string)
    requires AllDigits(u)
    ensures AfterLastDash(x + "-" + u) == u
  {
    if u == [] {
      assert x + "-" + u == x + "-";
    } else {
      var init := u[..|u| - 1];
      assert (x + "-" + u)[..|x + "-" + u| - 1] == x + "-" + init;
      AfterLastDashDigits(x, init);
      assert init + [u[|u| - 1]] == u;
    }
  }

  /** The index reads back from the end of an id, and the medication id from
      its front, so for one date no two (medication, index) pairs share an id. */
  lemma DoseIdInjective(a: string, b: string, date: string, i: nat, j: nat)
    requires DoseId(a, date, i) == DoseId(b, date, j)
    ensures a == b && i == j
  {
    var s := DoseId(a, date, i);
    var u := NatToString(i);
    var v := NatToString(j);
    assert s == (a + "-" + date) + "-" + u;
    assert s == (b + "-" + date) + "-" + v;
    AfterLastDashDigits(a + "-" + date, u);
    AfterLastDashDigits(b + "-" + date, v);
    NatToStringInjective(i, j);
    assert a == s[..|a|];
    assert b == s[..|b|];
  }

  // ---------------------------------------------------------------- generation

  /** One medication's generated doses, numbered from 0 in schedule order. */
  function Numbered(medicationId: string, date: string, drafts: seq<DoseDraft>): (r: seq<ScheduledDose>)
    ensures |r| == |drafts|
    ensures forall k :: 0 <= k < |r| ==> r[k] == WithId(drafts[k], DoseId(medicationId, date, k))
  {
    seq(|drafts|, k requires 0 <= k < |drafts| => WithId(drafts[k], DoseId(medicationId, date, k)))
  }

  lemma NumberedSnoc(medicationId: string, date: string, drafts: seq<DoseDraft>, i: nat)
    requires i < |drafts|
    ensures Numbered(medicationId, date, drafts[..i + 1])
            == Numbered(medicationId, date, drafts[..i]) + [WithId(drafts[i], DoseId(medicationId, date, i))]
  {
    var long := Numbered(medicationId, date, drafts[..i + 1]);
    var short := Numbered(medicationId, date, drafts[..i]) + [WithId(drafts[i], DoseId(medicationId, date, i))];
    assert forall k :: 0 <= k < |long| ==> long[k] == short[k];
  }

  /** `generateDosesForDate(med, prayerTimes, todayStr)` as a function of the
      medication (the Ramadan mapping, since prayer times are known). */
  function Generator(p: PrayerTimes, date: string): Medication -> seq<DoseDraft>
  {
    (m: Medication) => if Generatable(m, Some(p)) then GenerateDosesForDate(m, Some(p), date, true) else []
  }

  /** Medication by medication, the doses `gen` produces for it, each given
      its page id. */
  function NumberAll(ms: seq<Medication>, date: string, gen: Medication -> seq<DoseDraft>): seq<ScheduledDose>
  {
    if ms == [] then []
    else
      var m := ms[|ms| - 1];
      NumberAll(ms[..|ms| - 1], date, gen) + Numbered(m.id, date, gen(m))
  }

  /** `newDoses`. */
  function NewDoses(ms: seq<Medication>, p: PrayerTimes, date: string): seq<ScheduledDose>
  {
    NumberAll(ms, date, Generator(p, date))
  }

  /** The nested `forEach` that builds `newDoses`. */
  method BuildNewDoses(ms: seq<Medication>, p: PrayerTimes, todayStr: string) returns (newDoses: seq<ScheduledDose>)
    requires forall k :: 0 <= k < |ms| ==> Generatable(ms[k], Some(p))
    ensures newDoses == NewDoses(ms, p, todayStr)
  {
    newDoses := [];
    for i := 0 to |ms|
      invariant newDoses == NewDoses(ms[..i], p, todayStr)
    {
      var med := ms[i];
      var generatedDoses := GenerateDosesForDate(med, Some(p), todayStr, true);
      newDoses := PushNumbered(newDoses, med.id, todayStr, generatedDoses);
      NewDosesSnoc(ms, p, todayStr, i);
    }
    assert ms[..|ms|] == ms;
  }

  lemma NewDosesSnoc(ms: seq<Medication>, p: PrayerTimes, date: string, i: nat)
    requires i < |ms| && Generatable(ms[i], Some(p))
    ensures NewDoses(ms[..i + 1], p, date)
            == NewDoses(ms[..i], p, date) + Numbered(ms[i].id, date, GenerateDosesForDate(ms[i], Some(p), date, true))
  {
    assert ms[..i + 1][..i] == ms[..i];
  }

  /** The inner `forEach`: one medication's doses pushed in order, the k-th
      with the id for position k. */
  method PushNumbered(newDoses: seq<ScheduledDose>, medicationId: string, todayStr: string,
                      generatedDoses: seq<DoseDraft>) returns (r: seq<ScheduledDose>)
    ensures r == newDoses + Numbered(medicationId, todayStr, generatedDoses)
  {
    r := newDoses;
    for index := 0 to |generatedDoses|
      invariant r == newDoses + Numbered(medicationId, todayStr, generatedDoses[..index])
    {
      NumberedSnoc(medicationId, todayStr, generatedDoses, index);
      r := r + [WithId(generatedDoses[index], DoseId(medicationId, todayStr, index))];
    }
    assert generatedDoses[..|generatedDoses|] == generatedDoses;
  }

  /** Every numbered dose belongs to one of the medications, and its id is
      that medication's id, the date and a position. */
  lemma {:induction false} NumberAllIds(ms: seq<Medication>, date: string, gen: Medication -> seq<DoseDraft>,
                                        x: ScheduledDose)
    requires x in NumberAll(ms, date, gen)
    ensures exists k, i: nat :: 0 <= k < |ms| && x.id == DoseId(ms[k].id, date, i)
  {
    var init := ms[..|ms| - 1];
    var m := ms[|ms| - 1];
    var block := Numbered(m.id, date, gen(m));
    if x in NumberAll(init, date, gen) {
      NumberAllIds(init, date, gen, x);
      var k, i: nat :| 0 <= k < |init| && x.id == DoseId(init[k].id, date, i);
      assert ms[k] == init[k];
    } else {
      assert x in block;
      var i :| 0 <= i < |block| && block[i] == x;
      assert x.id == DoseId(ms[|ms| - 1].id, date, i);
    }
  }

  /** One medication's numbered doses have distinct ids. */
  lemma NumberedUniqueIds(medicationId: string, date: string, drafts: seq<DoseDraft>)
    ensures UniqueDoseIds(Numbered(medicationId, date, drafts))
  {
    var r := Numbered(medicationId, date, drafts);
    forall a, b | 0 <= a < b < |r|
      ensures r[a].id != r[b].id
    {
      if r[a].id == r[b].id {
        DoseIdInjective(medicationId, medicationId, date, a, b);
      }
    }
  }

  /** A dose numbered for earlier medications cannot share an id with one
      numbered for a medication whose id none of them has. */
  lemma NumberAllAvoids(ms: seq<Medication>, date: string, gen: Medication -> seq<DoseDraft>,
                        x: ScheduledDose, medicationId: string, j: nat)
    requires x in NumberAll(ms, date, gen)
    requires forall k :: 0 <= k < |ms| ==> ms[k].id != medicationId
    ensures x.id != DoseId(medicationId, date, j)
  {
    NumberAllIds(ms, date, gen, x);
    var k, i: nat :| 0 <= k < |ms| && x.id == DoseId(ms[k].id, date, i);
    if x.id == DoseId(medicationId, date, j) {
      DoseIdInjective(ms[k].id, medicationId, date, i, j);
    }
  }

  /** With distinct medication ids, the numbered doses have distinct ids. */
  lemma {:induction false} NumberAllUniqueIds(ms: seq<Medication>, date: string, gen: Medication -> seq<DoseDraft>)
    requires UniqueMedicationIds(ms)
    ensures UniqueDoseIds(NumberAll(ms, date, gen))
  {
    if ms != [] {
      var init := ms[..|ms| - 1];
      var m := ms[|ms| - 1];
      var front := NumberAll(init, date, gen);
      var block := Numbered(m.id, date, gen(m));
      assert UniqueMedicationIds(init) by {
        assert forall a, b :: 0 <= a < b < |init| ==> init[a] == ms[a] && init[b] == ms[b];
      }
      assert forall k :: 0 <= k < |init| ==> init[k].id != m.id by {
        assert forall k :: 0 <= k < |init| ==> init[k] == ms[k];
      }
      NumberAllUniqueIds(init, date, gen);
      NumberedUniqueIds(m.id, date, gen(m));
      var r := front + block;
      forall a, b | 0 <= a < b < |r|
        ensures r[a].id != r[b].id
      {
        if b < |front| {
          assert r[a] == front[a] && r[b] == front[b];
        } else if a >= |front| {
          assert r[a] == block[a - |front|] && r[b] == block[b - |front|];
        } else {
          assert r[a] in front;
          NumberAllAvoids(init, date, gen, r[a], m.id, b - |front|);
          assert r[b] == block[b - |front|];
        }
      }
    }
  }

  /** With distinct medication ids, the page's generated doses have distinct ids. */
  lemma NewDosesUniqueIds(ms: seq<Medication>, p: PrayerTimes, date: string)
    requires UniqueMedicationIds(ms)
    ensures UniqueDoseIds(NewDoses(ms, p, date))
  {
    NumberAllUniqueIds(ms, date, Generator(p, date));
  }

  /** The effect generates when prayer times are known, there is a medication,
      no stored dose falls on the local day `localToday`, and something was
      generated. */
  predicate Regenerates(ms: seq<Medication>, ds: seq<ScheduledDose>, p: Option<PrayerTimes>,
                        localToday: string, todayStr: string)
  {
    && p.Some? && |ms| > 0
    && |DosesOnDay(ds, localToday)| == 0
    && |NewDoses(ms, p.value, todayStr)| > 0
  }

  /** The dose list after the effect has run once. */
  function AfterEffect(ms: seq<Medication>, ds: seq<ScheduledDose>, p: Option<PrayerTimes>,
                       localToday: string, todayStr: string): seq<ScheduledDose>
  {
    if Regenerates(ms, ds, p, localToday, todayStr) then NewDoses(ms, p.value, todayStr) else ds
  }

  /** The generation effect: without prayer times or medications, or when a
      stored dose already falls on today, nothing happens; otherwise the
      generated doses, when there are any, replace the whole dose list,
      other days included. */
  method GenerateTodaysDoses(store: MedicationStore, prayerTimes: Option<PrayerTimes>,
                             localToday: string, todayStr: string)
    requires prayerTimes.Some? ==>
               forall k :: 0 <= k < |store.medications| ==> Generatable(store.medications[k], prayerTimes)
    modifies store, store.storage
    ensures store.doses == AfterEffect(old(store.medications), old(store.doses), prayerTimes, localToday, todayStr)
    ensures store.storage.doses ==
              if Regenerates(old(store.medications), old(store.doses), prayerTimes, localToday, todayStr)
              then store.doses else old(store.storage.doses)
    ensures store.storage.medications == old(store.storage.medications)
    ensures store.medications == old(store.medications) && store.todaysDoses == old(store.todaysDoses)
    ensures store.prayerTimes == old(store.prayerTimes) && store.isLoading == old(store.isLoading)
  {
    if prayerTimes.None? || |store.medications| == 0 {
      return;
    }
    var existingTodaysDoses := DosesOnDay(store.doses, localToday);
    if |existingTodaysDoses| == 0 {
      var newDoses := BuildNewDoses(store.medications, prayerTimes.value, todayStr);
      if |newDoses| > 0 {
        store.SetDoses(newDoses);
      }
    }
  }

  /** Running the effect again on what it produced changes nothing: either
      the new doses fall on today and the guard skips, or they do not and the
      same doses, with the same ids, are generated again. */
  lemma EffectIdempotent(ms: seq<Medication>, ds: seq<ScheduledDose>, p: Option<PrayerTimes>,
                         localToday: string, todayStr: string)
    ensures var once := AfterEffect(ms, ds, p, localToday, todayStr);
            AfterEffect(ms, once, p, localToday, todayStr) == once
  {
  }

  /** When the local day and the date the doses are filed under agree, a
      generated dose at a clock time of that day makes the next run skip. */
  lemma GeneratedTodaySkips(ms: seq<Medication>, ds: seq<ScheduledDose>, p: Option<PrayerTimes>,
                            today: string, x: ScheduledDose)
    requires Regenerates(ms, ds, p, today, today) && ParseIsoDate(today).Some?
    requires x in NewDoses(ms, p.value, today) && 0 <= x.scheduledTime.minute < 1440
    ensures !Regenerates(ms, AfterEffect(ms, ds, p, today, today), p, today, today)
  {
    NewDosesFiled(ms, p.value, today, x);
    OnDayWithinDate(x.scheduledTime, today);
    var nd := NewDoses(ms, p.value, today);
    var k :| 0 <= k < |nd| && nd[k] == x;
    assert DosesOnDay(nd, today) != [] by {
      assert nd[k] in DosesOnDay(nd, today);
    }
  }

  /** After the effect has generated, its next run generates again exactly
      when none of the generated doses falls on the local day: the guard
      looks at the day a dose's instant lands on, not at the date it is
      filed under. */
  lemma RerunRegenerates(ms: seq<Medication>, ds: seq<ScheduledDose>, p: Option<PrayerTimes>,
                         localToday: string, todayStr: string)
    requires Regenerates(ms, ds, p, localToday, todayStr)
    ensures var nd := NewDoses(ms, p.value, todayStr);
            Regenerates(ms, AfterEffect(ms, ds, p, localToday, todayStr), p, localToday, todayStr)
            <==> forall k :: 0 <= k < |nd| ==> !OnDay(nd[k].scheduledTime, localToday)
  {
    var nd := NewDoses(ms, p.value, todayStr);
    FilterEmpty(nd, OnDayOf(localToday));
  }

  /** One medication's page doses are its generated doses, numbered. */
  lemma NewDosesSingle(m: Medication, p: PrayerTimes, date: string)
    ensures NewDoses([m], p, date) == Numbered(m.id, date, Generator(p, date)(m))
  {
    var ms := [m];
    var gen := Generator(p, date);
    assert ms[..|ms| - 1] == [];
    assert NumberAll(ms[..|ms| - 1], date, gen) == [];
    assert NumberAll(ms, date, gen) == [] + Numbered(m.id, date, gen(m));
  }

  /** A once-daily morning medication in Ramadan with fajr at 00:10: its one
      dose is "-1:-5" on 10 June, which is 22:55 on 9 June, so on 10 June the
      guard finds no dose of the day and every run of the effect generates
      and sets the doses again. */
  lemma MorningSuhoorRegenerates(m: Medication, p: PrayerTimes)
    requires m.frequency == Once && m.timePreference == Morning && CustomTimesReadable(m)
    requires p.fajr == "00:10" && IsTimeText(p.maghrib)
    ensures var day := "2026-06-10";
            && NewDoses([m], p, day) == [ScheduledDose(DoseId(m.id, day, 0), m.id, Timestamp(day, -65), None, Pending, day)]
            && Regenerates([m], [], Some(p), day, day)
            && Regenerates([m], AfterEffect([m], [], Some(p), day, day), Some(p), day, day)
  {
    var day := "2026-06-10";
    EarlyFajrMorningDose(m, p, day);
    NewDosesSingle(m, p, day);
    var nd := NewDoses([m], p, day);
    assert nd == [ScheduledDose(DoseId(m.id, day, 0), m.id, Timestamp(day, -65), None, Pending, day)];
    RolledBackInstant();
    var none: seq<ScheduledDose> := [];
    FilterEmpty(none, OnDayOf(day));
    RerunRegenerates([m], [], Some(p), day, day);
  }

  /** Every generated dose is filed under, and scheduled on, the date it was
      generated for, and is pending. */
  lemma {:induction false} NewDosesFiled(ms: seq<Medication>, p: PrayerTimes, date: string, x: ScheduledDose)
    requires x in NewDoses(ms, p, date)
    ensures x.date == date && x.scheduledTime.date == date && x.status == Pending && x.actualTime.None?
  {
    var init := ms[..|ms| - 1];
    var m := ms[|ms| - 1];
    var drafts := Generator(p, date)(m);
    var block := Numbered(m.id, date, drafts);
    if x in NewDoses(init, p, date) {
      NewDosesFiled(init, p, date, x);
    } else {
      assert x in block;
      var i :| 0 <= i < |block| && block[i] == x;
      assert Generatable(m, Some(p));
      assert drafts == GenerateDosesForDate(m, Some(p), date, true);
    }
  }

  // ---------------------------------------------------------------- today's view

  /** `todaysDoses`: the doses on the local day, in time order (a stable sort). */
  function TodaysDoses(ds: seq<ScheduledDose>, localToday: string): (r: seq<ScheduledDose>)
    ensures SortedBy(r, DoseLe)
  {
    DoseLeIsTotalPreorder();
    SortBySorted(DosesOnDay(ds, localToday), DoseLe);
    SortBy(DosesOnDay(ds, localToday), DoseLe)
  }

  /** Exactly the day's doses, each as often as it is stored. */
  lemma TodaysDosesContents(ds: seq<ScheduledDose>, localToday: string, x: ScheduledDose)
    ensures multiset(TodaysDoses(ds, localToday))[x]
            == if OnDay(x.scheduledTime, localToday) then multiset(ds)[x] else 0
    ensures x in TodaysDoses(ds, localToday) <==> x in ds && OnDay(x.scheduledTime, localToday)
  {
    FilterMultiset(ds, (d: ScheduledDose) => OnDay(d.scheduledTime, localToday), x);
    assert multiset(TodaysDoses(ds, localToday)) == multiset(DosesOnDay(ds, localToday));
  }

  /** The `find` predicate of `nextDose`. */
  function PendingAfter(now: Timestamp): ScheduledDose -> bool
  {
    (d: ScheduledDose) => d.status == Pending && After(d.scheduledTime, now)
  }

  /** `nextDose`: the first of today's doses that is pending and strictly
      later than now. */
  function NextDose(todaysDoses: seq<ScheduledDose>, now: Timestamp): (r: Option<ScheduledDose>)
    ensures r.None? <==>
              forall k :: 0 <= k < |todaysDoses| ==>
                !(todaysDoses[k].status == Pending && After(todaysDoses[k].scheduledTime, now))
    ensures r.Some? ==>
              exists i :: 0 <= i < |todaysDoses| && todaysDoses[i] == r.value
                          && r.value.status == Pending && After(r.value.scheduledTime, now)
                          && forall k :: 0 <= k < i ==> !(todaysDoses[k].status == Pending
                                                           && After(todaysDoses[k].scheduledTime, now))
  {
    var i := FindIndex(todaysDoses, PendingAfter(now));
    if i < 0 then None else Some(todaysDoses[i])
  }

  /** In a time-ordered list, the next dose is the earliest pending dose
      after now: no pending dose after now is scheduled before it. */
  lemma NextDoseEarliest(todaysDoses: seq<ScheduledDose>, now: Timestamp, k: int)
    requires SortedBy(todaysDoses, DoseLe)
    requires NextDose(todaysDoses, now).Some?
    requires 0 <= k < |todaysDoses| && todaysDoses[k].status == Pending && After(todaysDoses[k].scheduledTime, now)
    ensures TimeLe(NextDose(todaysDoses, now).value.scheduledTime, todaysDoses[k].scheduledTime)
  {
    var i := FindIndex(todaysDoses, PendingAfter(now));
    assert PendingAfter(now)(todaysDoses[k]);
    if k < i {
      assert false;
    } else if i < k {
      assert DoseLe(todaysDoses[i], todaysDoses[k]);
    }
  }

  /** The three counts the page shows. */
  datatype TodayCounts = TodayCounts(completed: nat, pending: nat, missed: nat)

  function CountsOf(todaysDoses: seq<ScheduledDose>): (r: TodayCounts)
    ensures r.completed + r.pending + r.missed + StatusCount(todaysDoses, Skipped) == |todaysDoses|
  {
    StatusCountsSum(todaysDoses);
    TodayCounts(StatusCount(todaysDoses, Taken), StatusCount(todaysDoses, Pending),
                StatusCount(todaysDoses, Missed))
  }
}

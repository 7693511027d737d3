/** The in-memory application store (src/stores/medicationStore.ts): copies
    of the persisted lists that the pages read, kept in step with the
    persisted storage by the same actions. */
module MedicationStore {
  import opened Text
  import opened Seqs
  import opened Types
  import opened DoseMapper
  import opened Storage

  /** A dose paired with its medication, as the dashboard lists it. */
  datatype TodaySchedule = TodaySchedule(medication: Medication, dose: ScheduledDose)

  datatype DashboardData = DashboardData(
    todaysDoses: seq<TodaySchedule>,
    nextDose: Option<TodaySchedule>,
    prayerTimes: Option<PrayerTimes>,
    completedCount: nat,
    pendingCount: nat,
    missedCount: nat)

  /** `ms.map(m => m.id === id ? x : m)`. */
  function ReplaceMedication(ms: seq<Medication>, id: string, x: Medication): (r: seq<Medication>)
    ensures |r| == |ms|
    ensures forall k :: 0 <= k < |ms| ==> r[k] == if ms[k].id == id then x else ms[k]
  {
    Map(ms, (m: Medication) => if m.id == id then x else m)
  }

  /** `ds.map(d => d.id === id ? { ...d, status, actualTime } : d)`. */
  function SetStatus(ds: seq<ScheduledDose>, id: string, status: DoseStatus, actualTime: Option<string>)
    : (r: seq<ScheduledDose>)
    ensures |r| == |ds|
    ensures forall k :: 0 <= k < |ds| ==>
              r[k] == if ds[k].id == id then ds[k].(status := status, actualTime := actualTime) else ds[k]
  {
    Map(ds, (d: ScheduledDose) => if d.id == id then d.(status := status, actualTime := actualTime) else d)
  }

  predicate UniqueDoseIds(ds: seq<ScheduledDose>)
  {
    forall i, j :: 0 <= i < j < |ds| ==> ds[i].id != ds[j].id
  }

  /** With distinct ids the store's replace-every-match is storage's
      replace-the-first-match, so the two copies stay equal. */
  lemma ReplaceMatchesStorage(ms: seq<Medication>, id: string, x: Medication)
    requires UniqueMedicationIds(ms)
    ensures var i := MedicationIndex(ms, id);
            ReplaceMedication(ms, id, x) == if i == -1 then ms else ms[i := x]
  {
  }

  /** The same for a status change of a dose. */
  lemma SetStatusMatchesStorage(ds: seq<ScheduledDose>, id: string, status: DoseStatus, actualTime: Option<string>)
    requires UniqueDoseIds(ds)
    ensures var i := DoseIndex(ds, id);
            SetStatus(ds, id, status, actualTime)
              == if i == -1 then ds else ds[i := ds[i].(status := status, actualTime := actualTime)]
  {
  }

  /** Two doses sharing an id: storage changes only the first, the store both. */
  lemma SetStatusDuplicateIds(a: ScheduledDose, b: ScheduledDose, status: DoseStatus)
    requires a.id == b.id && a.status != status && b.status != status
    ensures var ds := [a, b];
            var i := DoseIndex(ds, a.id);
            && SetStatus(ds, a.id, status, None)[1].status == status
            && ds[i := ds[i].(status := status, actualTime := None)][1].status != status
  {
  }

  /** `new Map(ms.map(m => [m.id, m])).get(id)`: a later entry overwrites an
      earlier one with the same key, so the last medication with the id. */
  function LastWithId(ms: seq<Medication>, id: string): (r: Option<Medication>)
    ensures r.None? <==> forall k :: 0 <= k < |ms| ==> ms[k].id != id
    ensures r.Some? ==> exists i :: 0 <= i < |ms| && ms[i] == r.value && r.value.id == id
                                     && forall k :: i < k < |ms| ==> ms[k].id != id
  {
    if ms == [] then None
    else if ms[|ms| - 1].id == id then Some(ms[|ms| - 1])
    else LastWithId(ms[..|ms| - 1], id)
  }

  /** With distinct ids the map lookup finds what `find` finds. */
  lemma LastWithIdIsFirst(ms: seq<Medication>, id: string)
    requires UniqueMedicationIds(ms)
    ensures LastWithId(ms, id) == GetMedicationById(ms, id)
  {
    var r := LastWithId(ms, id);
    if r.Some? {
      var i :| 0 <= i < |ms| && ms[i] == r.value && r.value.id == id && forall k :: i < k < |ms| ==> ms[k].id != id;
      assert MedicationIndex(ms, id) == i;
    }
  }

  /** `todaysDoses.map(dose => ...).filter(item => item !== null)`. */
  function ScheduleOf(ms: seq<Medication>, ds: seq<ScheduledDose>): (r: seq<TodaySchedule>)
    ensures |r| <= |ds|
    ensures forall k :: 0 <= k < |r| ==>
              r[k].dose in ds && LastWithId(ms, r[k].dose.medicationId) == Some(r[k].medication)
  {
    if ds == [] then []
    else
      var m := LastWithId(ms, ds[0].medicationId);
      (if m.Some? then [TodaySchedule(m.value, ds[0])] else []) + ScheduleOf(ms, ds[1..])
  }

  function DoseOf(x: TodaySchedule): ScheduledDose { x.dose }

  function HasMedication(ms: seq<Medication>): ScheduledDose -> bool
  {
    (d: ScheduledDose) => LastWithId(ms, d.medicationId).Some?
  }

  /** The schedule lists, in order, exactly the doses whose medication is known. */
  lemma {:induction false} ScheduleDoses(ms: seq<Medication>, ds: seq<ScheduledDose>)
    ensures Map(ScheduleOf(ms, ds), DoseOf) == Filter(ds, HasMedication(ms))
  {
    if ds != [] {
      ScheduleDoses(ms, ds[1..]);
      var m := LastWithId(ms, ds[0].medicationId);
      var head := if m.Some? then [TodaySchedule(m.value, ds[0])] else [];
      var tail := ScheduleOf(ms, ds[1..]);
      assert ScheduleOf(ms, ds) == head + tail;
      MapConcat(head, tail, DoseOf);
      assert Map(head, DoseOf) == if HasMedication(ms)(ds[0]) then [ds[0]] else [];
    }
  }

  function IsPendingItem(x: TodaySchedule): bool { x.dose.status == Pending }

  function DueAfter(now: Timestamp): TodaySchedule -> bool
  {
    (x: TodaySchedule) => After(x.dose.scheduledTime, now)
  }

  /** `useMedicationStore`'s state. `storage` is the persisted lists the
      actions write through to. */
  class MedicationStore {
    var medications: seq<Medication>
    var doses: seq<ScheduledDose>
    var todaysDoses: seq<ScheduledDose>
    var prayerTimes: Option<PrayerTimes>
    var isLoading: bool
    const storage: LocalStorage

    constructor(storage: LocalStorage)
      ensures medications == [] && doses == [] && todaysDoses == []
      ensures prayerTimes.None? && !isLoading && this.storage == storage
    {
      medications := [];
      doses := [];
      todaysDoses := [];
      prayerTimes := None;
      isLoading := false;
      this.storage := storage;
    }

    /** `loadMedications()`. */
    method LoadMedications()
      modifies this
      ensures medications == storage.medications
      ensures doses == old(doses) && todaysDoses == old(todaysDoses)
      ensures prayerTimes == old(prayerTimes) && isLoading == old(isLoading)
    {
      medications := storage.medications;
    }

    /** `loadDoses()`. */
    method LoadDoses()
      modifies this
      ensures doses == storage.doses
      ensures medications == old(medications) && todaysDoses == old(todaysDoses)
      ensures prayerTimes == old(prayerTimes) && isLoading == old(isLoading)
    {
      doses := storage.doses;
    }

    /** `loadTodaysDoses()`, `today` being the current date. */
    method LoadTodaysDoses(today: string)
      modifies this
      ensures todaysDoses == GetDosesByDate(storage.doses, today)
      ensures medications == old(medications) && doses == old(doses)
      ensures prayerTimes == old(prayerTimes) && isLoading == old(isLoading)
    {
      todaysDoses := GetDosesByDate(storage.doses, today);
    }

    /** `addMedication(data)`: created in storage, then appended here. */
    method AddMedication(f: MedicationFields, id: string, now: string) returns (m: Medication)
      modifies this, storage
      ensures m == NewMedication(f, id, now)
      ensures storage.medications == old(storage.medications) + [m] && storage.doses == old(storage.doses)
      ensures medications == old(medications) + [m]
      ensures doses == old(doses) && todaysDoses == old(todaysDoses)
      ensures prayerTimes == old(prayerTimes) && isLoading == old(isLoading)
    {
      m := storage.CreateMedication(f, id, now);
      medications := medications + [m];
    }

    /** `updateMedication(id, updates)`: the store changes only when storage
        found the id. */
    method UpdateMedication(id: string, u: MedicationUpdate, now: string) returns (r: Option<Medication>)
      modifies this, storage
      ensures var i := MedicationIndex(old(storage.medications), id);
              && (i == -1 ==> r.None? && storage.medications == old(storage.medications))
              && (i != -1 ==> && r == Some(ApplyUpdate(old(storage.medications)[i], u, now))
                              && storage.medications == old(storage.medications)[i := r.value])
      ensures storage.doses == old(storage.doses)
      ensures medications == if r.Some? then ReplaceMedication(old(medications), id, r.value) else old(medications)
      ensures doses == old(doses) && todaysDoses == old(todaysDoses)
      ensures prayerTimes == old(prayerTimes) && isLoading == old(isLoading)
    {
      r := storage.UpdateMedication(id, u, now);
      if r.Some? {
        medications := ReplaceMedication(medications, id, r.value);
      }
    }

    /** `deleteMedication(id)`: on success the medication and its doses leave
        every list; otherwise nothing changes. */
    method DeleteMedication(id: string) returns (success: bool)
      modifies this, storage
      ensures success <==> exists k :: 0 <= k < |old(storage.medications)| && old(storage.medications)[k].id == id
      ensures success ==> && storage.medications == WithoutMedication(old(storage.medications), id)
                          && storage.doses == WithoutDosesOf(old(storage.doses), id)
                          && medications == WithoutMedication(old(medications), id)
                          && doses == WithoutDosesOf(old(doses), id)
                          && todaysDoses == WithoutDosesOf(old(todaysDoses), id)
      ensures !success ==> && storage.medications == old(storage.medications) && storage.doses == old(storage.doses)
                           && medications == old(medications) && doses == old(doses)
                           && todaysDoses == old(todaysDoses)
      ensures prayerTimes == old(prayerTimes) && isLoading == old(isLoading)
    {
      success := storage.DeleteMedication(id);
      if success {
        medications := WithoutMedication(medications, id);
        doses := WithoutDosesOf(doses, id);
        todaysDoses := WithoutDosesOf(todaysDoses, id);
      }
    }

    /** `clearMedications()`: empties the in-memory lists only. */
    method ClearMedications()
      modifies this
      ensures medications == [] && doses == [] && todaysDoses == []
      ensures prayerTimes == old(prayerTimes) && isLoading == old(isLoading)
    {
      medications := [];
      doses := [];
      todaysDoses := [];
    }

    /** `setDoses(doses)`: the list is replaced, here and in storage, not merged. */
    method SetDoses(ds: seq<ScheduledDose>)
      modifies this, storage
      ensures doses == ds && storage.doses == ds
      ensures storage.medications == old(storage.medications)
      ensures medications == old(medications) && todaysDoses == old(todaysDoses)
      ensures prayerTimes == old(prayerTimes) && isLoading == old(isLoading)
    {
      storage.SaveDoses(ds);
      doses := ds;
    }

    /** `updateDoseStatus(doseId, status)`, `nowIso` being the current instant:
        the actual time is recorded exactly for `taken`. */
    method UpdateDoseStatus(doseId: string, status: DoseStatus, nowIso: string)
      modifies this, storage
      ensures var actual := if status == Taken then Some(nowIso) else None;
              && doses == SetStatus(old(doses), doseId, status, actual)
              && todaysDoses == SetStatus(old(todaysDoses), doseId, status, actual)
              && var i := DoseIndex(old(storage.doses), doseId);
                 storage.doses == if i == -1 then old(storage.doses)
                                  else old(storage.doses)[i := old(storage.doses)[i].(status := status, actualTime := actual)]
      ensures forall k :: 0 <= k < |doses| && doses[k].id == doseId ==>
                doses[k].status == status && (doses[k].actualTime.Some? <==> status == Taken)
      ensures storage.medications == old(storage.medications)
      ensures medications == old(medications) && prayerTimes == old(prayerTimes) && isLoading == old(isLoading)
    {
      var now := if status == Taken then Some(nowIso) else None;
      var _ := storage.UpdateDoseStatus(doseId, status, now);
      doses := SetStatus(doses, doseId, status, now);
      todaysDoses := SetStatus(todaysDoses, doseId, status, now);
    }

    /** `generateDoses(date, prayerTimes)`, with `today` the current date and
        `ids(k)` the id generated for the k-th new dose. The date's persisted
        doses are replaced by freshly generated ones, always through the
        Ramadan mapping; `doses` is left as it was. */
    method GenerateDoses(date: string, p: PrayerTimes, today: string, ids: nat -> string)
      requires forall k :: 0 <= k < |medications| ==> Generatable(medications[k], Some(p))
      modifies this, storage
      ensures var created := WithIds(SortBy(AllDrafts(old(medications), Some(p), date, true), DraftLe), ids);
              && storage.doses == DosesNotOn(old(storage.doses), date) + created
              && todaysDoses == if date == today then created else old(todaysDoses)
      ensures storage.medications == old(storage.medications)
      ensures medications == old(medications) && doses == old(doses) && prayerTimes == old(prayerTimes)
      ensures !isLoading
    {
      isLoading := true;
      var createdDoses := ReplaceStoredDoses(date, p, ids);
      if date == today {
        todaysDoses := createdDoses;
      }
      isLoading := false;
    }

    /** The storage half of `generateDoses`: the date's stored doses are
        deleted when there are any, then the medications' doses for the date
        are generated and created one by one. */
    method ReplaceStoredDoses(date: string, p: PrayerTimes, ids: nat -> string) returns (createdDoses: seq<ScheduledDose>)
      requires forall k :: 0 <= k < |medications| ==> Generatable(medications[k], Some(p))
      modifies storage
      ensures createdDoses == WithIds(SortBy(AllDrafts(medications, Some(p), date, true), DraftLe), ids)
      ensures storage.doses == DosesNotOn(old(storage.doses), date) + createdDoses
      ensures storage.medications == old(storage.medications)
    {
      if DosesExistForDate(storage.doses, date) {
        storage.DeleteDosesByDate(date);
      } else {
        DeleteDosesByDateEffect(storage.doses, date);
      }
      var dosesToCreate := GenerateAllDosesForDate(medications, Some(p), date, true);
      createdDoses := CreateDoses(dosesToCreate, ids);
    }

    /** The loop of `generateDoses`: each draft is created in storage, in
        order, and collected. */
    method CreateDoses(dosesToCreate: seq<DoseDraft>, ids: nat -> string) returns (createdDoses: seq<ScheduledDose>)
      modifies storage
      ensures createdDoses == WithIds(dosesToCreate, ids)
      ensures storage.doses == old(storage.doses) + createdDoses
      ensures storage.medications == old(storage.medications)
    {
      createdDoses := [];
      for i := 0 to |dosesToCreate|
        invariant createdDoses == WithIds(dosesToCreate[..i], ids)
        invariant storage.doses == old(storage.doses) + createdDoses
        invariant storage.medications == old(storage.medications)
      {
        var dose := storage.CreateScheduledDose(dosesToCreate[i], ids(i));
        WithIdsSnoc(dosesToCreate, i, ids);
        createdDoses := createdDoses + [dose];
      }
      assert dosesToCreate[..|dosesToCreate|] == dosesToCreate;
    }

    /** `setPrayerTimes(prayerTimes)`. */
    method SetPrayerTimes(p: Option<PrayerTimes>)
      modifies this
      ensures prayerTimes == p
      ensures medications == old(medications) && doses == old(doses)
      ensures todaysDoses == old(todaysDoses) && isLoading == old(isLoading)
    {
      prayerTimes := p;
    }

    /** `getDashboardData()`, `now` being the current instant. */
    function GetDashboardData(now: Timestamp): (r: DashboardData)
      reads this
      ensures r.todaysDoses == ScheduleOf(medications, todaysDoses)
      ensures r.nextDose == NextPending(r.todaysDoses, now)
      ensures r.prayerTimes == prayerTimes
      ensures r.completedCount == StatusCount(todaysDoses, Taken)
      ensures r.pendingCount == StatusCount(todaysDoses, Pending)
      ensures r.missedCount == StatusCount(todaysDoses, Missed)
    {
      var schedule := ScheduleOf(medications, todaysDoses);
      DashboardData(schedule, NextPending(schedule, now), prayerTimes,
                    StatusCount(todaysDoses, Taken), StatusCount(todaysDoses, Pending),
                    StatusCount(todaysDoses, Missed))
    }
  }

  /** `schedule.filter(item => item.dose.status === 'pending')`. */
  function PendingItems(schedule: seq<TodaySchedule>): seq<TodaySchedule>
  {
    Filter(schedule, IsPendingItem)
  }

  /** `schedule.filter(item => item.dose.status === 'pending').find(item =>
      new Date(item.dose.scheduledTime) > now) || null`. */
  function NextPending(schedule: seq<TodaySchedule>, now: Timestamp): (r: Option<TodaySchedule>)
    ensures r.None? <==>
              forall k :: 0 <= k < |schedule| ==>
                !(IsPendingItem(schedule[k]) && After(schedule[k].dose.scheduledTime, now))
    ensures r.Some? ==>
              && r.value in schedule
              && r.value.dose.status == Pending
              && After(r.value.dose.scheduledTime, now)
              && exists i :: 0 <= i < |PendingItems(schedule)| && PendingItems(schedule)[i] == r.value
                             && forall k :: 0 <= k < i ==> !After(PendingItems(schedule)[k].dose.scheduledTime, now)
  {
    var pending := PendingItems(schedule);
    var i := FindIndex(pending, DueAfter(now));
    if i == -1 then
      assert forall k :: 0 <= k < |schedule| && IsPendingItem(schedule[k]) ==> schedule[k] in pending;
      None
    else
      assert DueAfter(now)(pending[i]);
      assert forall k :: 0 <= k < i ==> !After(pending[k].dose.scheduledTime, now) by {
        forall k | 0 <= k < i
          ensures !After(pending[k].dose.scheduledTime, now)
        {
          assert !DueAfter(now)(pending[k]);
        }
      }
      Some(pending[i])
  }

  /** The k-th draft stamped with the k-th generated id. */
  function WithIds(drafts: seq<DoseDraft>, ids: nat -> string): (r: seq<ScheduledDose>)
    ensures |r| == |drafts|
    ensures forall k :: 0 <= k < |drafts| ==> r[k] == WithId(drafts[k], ids(k))
  {
    seq(|drafts|, k requires 0 <= k < |drafts| => WithId(drafts[k], ids(k)))
  }

  lemma WithIdsSnoc(drafts: seq<DoseDraft>, i: nat, ids: nat -> string)
    requires i < |drafts|
    ensures WithIds(drafts[..i + 1], ids) == WithIds(drafts[..i], ids) + [WithId(drafts[i], ids(i))]
  {
  }

  /** After generation the date's persisted doses are exactly the new ones,
      and the other dates' doses are untouched. */
  lemma GeneratedReplaceDate(ds: seq<ScheduledDose>, created: seq<ScheduledDose>, date: string)
    requires forall k :: 0 <= k < |created| ==> created[k].date == date
    ensures DosesOn(DosesNotOn(ds, date) + created, date) == created
    ensures DosesNotOn(DosesNotOn(ds, date) + created, date) == DosesNotOn(ds, date)
  {
    var kept := DosesNotOn(ds, date);
    FilterConcat(kept, created, (d: ScheduledDose) => d.date == date);
    FilterConcat(kept, created, (d: ScheduledDose) => d.date != date);
    FilterAll(created, (d: ScheduledDose) => d.date == date);
    FilterNone(kept, (d: ScheduledDose) => d.date == date);
    FilterAll(kept, (d: ScheduledDose) => d.date != date);
    FilterNone(created, (d: ScheduledDose) => d.date != date);
  }

  /** Every dose `generateDoses` creates is pending and filed under its date. */
  lemma GeneratedAreOnDate(ms: seq<Medication>, p: PrayerTimes, date: string, ids: nat -> string)
    requires forall k :: 0 <= k < |ms| ==> Generatable(ms[k], Some(p))
    ensures var created := WithIds(SortBy(AllDrafts(ms, Some(p), date, true), DraftLe), ids);
            forall k :: 0 <= k < |created| ==> created[k].date == date && created[k].status == Pending
                                                && created[k].actualTime.None?
  {
    var all := AllDrafts(ms, Some(p), date, true);
    var sorted := SortBy(all, DraftLe);
    forall k | 0 <= k < |sorted|
      ensures sorted[k].date == date && sorted[k].status == Pending
    {
      assert sorted[k] in multiset(all);
      AllDraftsPending(ms, Some(p), date, true, sorted[k]);
    }
  }
}

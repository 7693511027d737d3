/** The two persisted lists (src/lib/storage.ts): the medications and the
    scheduled doses, with the application's create, update and delete
    operations on them and its per-date queries. The browser's
    `localStorage` is the pair of fields of `LocalStorage`; reading a list
    and writing it back is an assignment to that field. */
module Storage {
  import opened Text
  import opened Seqs
  import opened Types

  // ---------------------------------------------------------------- records

  /** What the caller supplies when creating a medication
      (`Omit<Medication, 'id' | 'createdAt' | 'updatedAt'>`). */
  datatype MedicationFields = MedicationFields(
    name: string,
    dosage: string,
    frequency: Frequency,
    timePreference: TimePreference,
    withFood: bool,
    pillColor: Option<PillColor>,
    pillShape: Option<PillShape>,
    notes: Option<string>,
    customTimes: Option<seq<string>>)

  /** The caller-supplied part of a stored medication. */
  function FieldsOf(m: Medication): MedicationFields
  {
    MedicationFields(m.name, m.dosage, m.frequency, m.timePreference, m.withFood,
                     m.pillColor, m.pillShape, m.notes, m.customTimes)
  }

  /** `{ ...medication, id, createdAt: now, updatedAt: now }`. */
  function NewMedication(f: MedicationFields, id: string, now: string): (m: Medication)
    ensures FieldsOf(m) == f
    ensures m.id == id && m.createdAt == now && m.updatedAt == now
  {
    Medication(id, f.name, f.dosage, f.frequency, f.timePreference, f.withFood,
               f.pillColor, f.pillShape, f.notes, f.customTimes, now, now)
  }

  /** `Partial<Omit<Medication, 'id' | 'createdAt' | 'updatedAt'>>`: `Some`
      for a key the update object carries. An optional field's value may
      itself be `None`, which clears it. */
  datatype MedicationUpdate = MedicationUpdate(
    name: Option<string>,
    dosage: Option<string>,
    frequency: Option<Frequency>,
    timePreference: Option<TimePreference>,
    withFood: Option<bool>,
    pillColor: Option<Option<PillColor>>,
    pillShape: Option<Option<PillShape>>,
    notes: Option<Option<string>>,
    customTimes: Option<Option<seq<string>>>)

  const NoChanges: MedicationUpdate := MedicationUpdate(None, None, None, None, None, None, None, None, None)

  function Override<T>(current: T, u: Option<T>): T
  {
    if u.Some? then u.value else current
  }

  /** `{ ...m, ...updates, updatedAt: now }`. */
  function ApplyUpdate(m: Medication, u: MedicationUpdate, now: string): (r: Medication)
    ensures r.id == m.id && r.createdAt == m.createdAt && r.updatedAt == now
  {
    Medication(m.id, Override(m.name, u.name), Override(m.dosage, u.dosage),
               Override(m.frequency, u.frequency), Override(m.timePreference, u.timePreference),
               Override(m.withFood, u.withFood), Override(m.pillColor, u.pillColor),
               Override(m.pillShape, u.pillShape), Override(m.notes, u.notes),
               Override(m.customTimes, u.customTimes), m.createdAt, now)
  }

  /** An update that names no field only refreshes `updatedAt`. */
  lemma NoChangesOnlyTouches(m: Medication, now: string)
    ensures ApplyUpdate(m, NoChanges, now) == m.(updatedAt := now)
  {
  }

  /** A named field takes the update's value, whatever it held before; an
      unnamed one keeps the medication's. */
  lemma ApplyUpdateFields(m: Medication, u: MedicationUpdate, now: string)
    ensures var r := ApplyUpdate(m, u, now);
            && (u.name.Some? ==> r.name == u.name.value) && (u.name.None? ==> r.name == m.name)
            && (u.dosage.Some? ==> r.dosage == u.dosage.value) && (u.dosage.None? ==> r.dosage == m.dosage)
            && (u.frequency.Some? ==> r.frequency == u.frequency.value)
            && (u.frequency.None? ==> r.frequency == m.frequency)
            && (u.notes.Some? ==> r.notes == u.notes.value) && (u.notes.None? ==> r.notes == m.notes)
            && (u.customTimes.Some? ==> r.customTimes == u.customTimes.value)
            && (u.customTimes.None? ==> r.customTimes == m.customTimes)
  {
  }

  /** Applying the same update twice is applying it once, at the later time. */
  lemma ApplyUpdateIdempotent(m: Medication, u: MedicationUpdate, t1: string, t2: string)
    ensures ApplyUpdate(ApplyUpdate(m, u, t1), u, t2) == ApplyUpdate(m, u, t2)
  {
  }

  // ---------------------------------------------------------------- list queries

  /** `medications.findIndex(m => m.id === id)`. */
  function MedicationIndex(ms: seq<Medication>, id: string): (i: int)
    ensures -1 <= i < |ms|
    ensures i == -1 <==> forall k :: 0 <= k < |ms| ==> ms[k].id != id
    ensures 0 <= i ==> ms[i].id == id && forall k :: 0 <= k < i ==> ms[k].id != id
  {
    FindIndex(ms, (m: Medication) => m.id == id)
  }

  /** `doses.findIndex(d => d.id === id)`. */
  function DoseIndex(ds: seq<ScheduledDose>, id: string): (i: int)
    ensures -1 <= i < |ds|
    ensures i == -1 <==> forall k :: 0 <= k < |ds| ==> ds[k].id != id
    ensures 0 <= i ==> ds[i].id == id && forall k :: 0 <= k < i ==> ds[k].id != id
  {
    FindIndex(ds, (d: ScheduledDose) => d.id == id)
  }

  /** `getMedicationById(id)`: the first medication with that id, or null. */
  function GetMedicationById(ms: seq<Medication>, id: string): (r: Option<Medication>)
    ensures r.None? <==> forall k :: 0 <= k < |ms| ==> ms[k].id != id
    ensures r.Some? ==> exists i :: 0 <= i < |ms| && r.value == ms[i] && r.value.id == id
                                     && forall k :: 0 <= k < i ==> ms[k].id != id
  {
    var i := MedicationIndex(ms, id);
    if i == -1 then None else Some(ms[i])
  }

  /** `medications.filter(m => m.id !== id)`. */
  function WithoutMedication(ms: seq<Medication>, id: string): (r: seq<Medication>)
    ensures forall k :: 0 <= k < |r| ==> r[k] in ms && r[k].id != id
    ensures forall k :: 0 <= k < |ms| && ms[k].id != id ==> ms[k] in r
  {
    Filter(ms, (m: Medication) => m.id != id)
  }

  /** `doses.filter(d => d.medicationId !== id)`: the cascade of a delete. */
  function WithoutDosesOf(ds: seq<ScheduledDose>, id: string): (r: seq<ScheduledDose>)
    ensures forall k :: 0 <= k < |r| ==> r[k] in ds && r[k].medicationId != id
    ensures forall k :: 0 <= k < |ds| && ds[k].medicationId != id ==> ds[k] in r
  {
    Filter(ds, (d: ScheduledDose) => d.medicationId != id)
  }

  /** `doses.filter(d => d.date === date)`. */
  function DosesOn(ds: seq<ScheduledDose>, date: string): (r: seq<ScheduledDose>)
    ensures forall k :: 0 <= k < |r| ==> r[k] in ds && r[k].date == date
    ensures forall k :: 0 <= k < |ds| && ds[k].date == date ==> ds[k] in r
  {
    Filter(ds, (d: ScheduledDose) => d.date == date)
  }

  /** `doses.filter(d => d.date !== date)`. */
  function DosesNotOn(ds: seq<ScheduledDose>, date: string): (r: seq<ScheduledDose>)
    ensures forall k :: 0 <= k < |r| ==> r[k] in ds && r[k].date != date
    ensures forall k :: 0 <= k < |ds| && ds[k].date != date ==> ds[k] in r
  {
    Filter(ds, (d: ScheduledDose) => d.date != date)
  }

  /** Deleting by id shortens the list exactly when some medication has that id. */
  lemma WithoutMedicationShorter(ms: seq<Medication>, id: string)
    ensures |WithoutMedication(ms, id)| != |ms| <==> exists k :: 0 <= k < |ms| && ms[k].id == id
  {
    FilterKeepsLength(ms, (m: Medication) => m.id != id);
  }

  /** `getDosesByDate(date)`: the doses filed under `date`, stably sorted by
      scheduled time. */
  function GetDosesByDate(ds: seq<ScheduledDose>, date: string): (r: seq<ScheduledDose>)
    ensures SortedBy(r, DoseLe)
  {
    DoseLeIsTotalPreorder();
    SortBySorted(DosesOn(ds, date), DoseLe);
    SortBy(DosesOn(ds, date), DoseLe)
  }

  /** Exactly the doses of that date, each as often as it is stored. */
  lemma GetDosesByDateContents(ds: seq<ScheduledDose>, date: string, x: ScheduledDose)
    ensures multiset(GetDosesByDate(ds, date))[x] == if x.date == date then multiset(ds)[x] else 0
    ensures x in GetDosesByDate(ds, date) <==> x in ds && x.date == date
  {
    FilterMultiset(ds, (d: ScheduledDose) => d.date == date, x);
    assert multiset(GetDosesByDate(ds, date)) == multiset(DosesOn(ds, date));
  }

  /** `dosesExistForDate(date)`. */
  function DosesExistForDate(ds: seq<ScheduledDose>, date: string): (r: bool)
    ensures r <==> exists k :: 0 <= k < |ds| && ds[k].date == date
  {
    var found := GetDosesByDate(ds, date);
    if |found| > 0 then
      assert found[0] in found;
      GetDosesByDateContents(ds, date, found[0]);
      true
    else
      assert |DosesOn(ds, date)| == 0;
      false
  }

  // ---------------------------------------------------------------- statistics

  datatype DoseStatistics = DoseStatistics(taken: nat, missed: nat, pending: nat, skipped: nat)

  /** `d.date >= startDate && d.date <= endDate`, as string comparisons. */
  predicate InRange(d: ScheduledDose, startDate: string, endDate: string)
  {
    LexLe(startDate, d.date) && LexLe(d.date, endDate)
  }

  function DosesInRange(ds: seq<ScheduledDose>, startDate: string, endDate: string): (r: seq<ScheduledDose>)
    ensures forall k :: 0 <= k < |r| ==> r[k] in ds && InRange(r[k], startDate, endDate)
    ensures forall k :: 0 <= k < |ds| && InRange(ds[k], startDate, endDate) ==> ds[k] in r
  {
    Filter(ds, (d: ScheduledDose) => InRange(d, startDate, endDate))
  }

  /** `doses.filter(d => d.status === status).length`. */
  function StatusCount(ds: seq<ScheduledDose>, status: DoseStatus): nat
  {
    Count(ds, (d: ScheduledDose) => d.status == status)
  }

  /** `getDoseStatistics(startDate, endDate)`. */
  function GetDoseStatistics(ds: seq<ScheduledDose>, startDate: string, endDate: string): (r: DoseStatistics)
    ensures r.taken + r.missed + r.pending + r.skipped == |DosesInRange(ds, startDate, endDate)|
  {
    var inRange := DosesInRange(ds, startDate, endDate);
    StatusCountsSum(inRange);
    DoseStatistics(StatusCount(inRange, Taken), StatusCount(inRange, Missed),
                   StatusCount(inRange, Pending), StatusCount(inRange, Skipped))
  }

  /** Every dose has exactly one of the four statuses. */
  lemma {:induction false} StatusCountsSum(ds: seq<ScheduledDose>)
    ensures StatusCount(ds, Taken) + StatusCount(ds, Missed) + StatusCount(ds, Pending)
            + StatusCount(ds, Skipped) == |ds|
  {
    if ds != [] {
      StatusCountsSum(ds[1..]);
    }
  }

  /** A status count is the number of list positions holding that status. */
  lemma {:induction false} StatusCountAppend(ds: seq<ScheduledDose>, d: ScheduledDose, status: DoseStatus)
    ensures StatusCount(ds + [d], status) == StatusCount(ds, status) + if d.status == status then 1 else 0
  {
    FilterConcat(ds, [d], (x: ScheduledDose) => x.status == status);
  }

  // ---------------------------------------------------------------- integrity

  /** Every dose names a stored medication. */
  predicate DosesReferToMedications(ms: seq<Medication>, ds: seq<ScheduledDose>)
  {
    forall j :: 0 <= j < |ds| ==> RefersTo(ds[j], ms)
  }

  predicate RefersTo(d: ScheduledDose, ms: seq<Medication>)
  {
    exists k :: 0 <= k < |ms| && ms[k].id == d.medicationId
  }

  predicate UniqueMedicationIds(ms: seq<Medication>)
  {
    forall i, j :: 0 <= i < j < |ms| ==> ms[i].id != ms[j].id
  }

  /** The cascading delete keeps every remaining dose attached to a remaining
      medication. */
  lemma DeleteKeepsReferences(ms: seq<Medication>, ds: seq<ScheduledDose>, id: string)
    requires DosesReferToMedications(ms, ds)
    ensures DosesReferToMedications(WithoutMedication(ms, id), WithoutDosesOf(ds, id))
  {
    var rm := WithoutMedication(ms, id);
    var rd := WithoutDosesOf(ds, id);
    forall j | 0 <= j < |rd|
      ensures RefersTo(rd[j], rm)
    {
      var i :| 0 <= i < |ds| && ds[i] == rd[j];
      assert RefersTo(ds[i], ms);
      var k :| 0 <= k < |ms| && ms[k].id == ds[i].medicationId;
      assert ms[k] in rm;
    }
  }

  /** Replacing one medication by its update keeps the list's ids as they were. */
  lemma UpdateKeepsIds(ms: seq<Medication>, i: nat, u: MedicationUpdate, now: string)
    requires i < |ms|
    ensures var r := ms[i := ApplyUpdate(ms[i], u, now)];
            |r| == |ms| && forall k :: 0 <= k < |r| ==> r[k].id == ms[k].id
  {
  }

  // ---------------------------------------------------------------- the store

  /** `localStorage` under the keys "ramadan_medications" and "ramadan_doses". */
  class LocalStorage {
    var medications: seq<Medication>
    var doses: seq<ScheduledDose>

    constructor(ms: seq<Medication>, ds: seq<ScheduledDose>)
      ensures medications == ms && doses == ds
    {
      medications := ms;
      doses := ds;
    }

    /** `createMedication(medication)`, with `id` from the id generator and
        `now` the current ISO instant. */
    method CreateMedication(f: MedicationFields, id: string, now: string) returns (m: Medication)
      modifies this
      ensures m == NewMedication(f, id, now)
      ensures medications == old(medications) + [m] && doses == old(doses)
      ensures UniqueMedicationIds(old(medications)) && (forall k :: 0 <= k < |old(medications)| ==> old(medications)[k].id != id)
              ==> UniqueMedicationIds(medications)
    {
      m := NewMedication(f, id, now);
      medications := medications + [m];
    }

    /** `updateMedication(id, updates)`. */
    method UpdateMedication(id: string, u: MedicationUpdate, now: string) returns (r: Option<Medication>)
      modifies this
      ensures var i := MedicationIndex(old(medications), id);
              if i == -1 then r.None? && medications == old(medications)
              else r == Some(ApplyUpdate(old(medications)[i], u, now)) && medications == old(medications)[i := r.value]
      ensures doses == old(doses)
    {
      var index := MedicationIndex(medications, id);
      if index == -1 {
        return None;
      }
      var updated := ApplyUpdate(medications[index], u, now);
      medications := medications[index := updated];
      r := Some(updated);
    }

    /** `deleteMedication(id)`: false, and nothing written, when no medication
        has the id; otherwise the medication and all its doses go. */
    method DeleteMedication(id: string) returns (deleted: bool)
      modifies this
      ensures deleted <==> exists k :: 0 <= k < |old(medications)| && old(medications)[k].id == id
      ensures deleted ==> medications == WithoutMedication(old(medications), id)
                          && doses == WithoutDosesOf(old(doses), id)
      ensures !deleted ==> medications == old(medications) && doses == old(doses)
    {
      var filtered := WithoutMedication(medications, id);
      WithoutMedicationShorter(medications, id);
      if |filtered| == |medications| {
        return false;
      }
      medications := filtered;
      doses := WithoutDosesOf(doses, id);
      deleted := true;
    }

    /** `createScheduledDose(dose)`, with `id` from the id generator. */
    method CreateScheduledDose(d: DoseDraft, id: string) returns (dose: ScheduledDose)
      modifies this
      ensures dose == WithId(d, id) && dose.id == id
      ensures doses == old(doses) + [dose] && medications == old(medications)
    {
      dose := WithId(d, id);
      doses := doses + [dose];
    }

    /** `updateDoseStatus(id, status, actualTime)`: the first dose with the id
        gets the status and the actual time (cleared when absent); any status
        may follow any other. */
    method UpdateDoseStatus(id: string, status: DoseStatus, actualTime: Option<string>)
      returns (r: Option<ScheduledDose>)
      modifies this
      ensures var i := DoseIndex(old(doses), id);
              if i == -1 then r.None? && doses == old(doses)
              else && r == Some(old(doses)[i].(status := status, actualTime := actualTime))
                   && doses == old(doses)[i := r.value]
      ensures medications == old(medications)
    {
      var index := DoseIndex(doses, id);
      if index == -1 {
        return None;
      }
      var updated := doses[index].(status := status, actualTime := actualTime);
      doses := doses[index := updated];
      r := Some(updated);
    }

    /** `saveDoses(doses)`: the persisted list becomes exactly `ds`. */
    method SaveDoses(ds: seq<ScheduledDose>)
      modifies this
      ensures doses == ds && medications == old(medications)
    {
      doses := ds;
    }

    /** `deleteDosesByDate(date)`. */
    method DeleteDosesByDate(date: string)
      modifies this
      ensures doses == DosesNotOn(old(doses), date) && medications == old(medications)
    {
      doses := DosesNotOn(doses, date);
    }
  }

  /** Deleting a date's doses leaves none on that date and changes nothing
      when there were none. */
  lemma DeleteDosesByDateEffect(ds: seq<ScheduledDose>, date: string)
    ensures !DosesExistForDate(DosesNotOn(ds, date), date)
    ensures !DosesExistForDate(ds, date) ==> DosesNotOn(ds, date) == ds
  {
    if !DosesExistForDate(ds, date) {
      FilterAll(ds, (d: ScheduledDose) => d.date != date);
    }
  }
}

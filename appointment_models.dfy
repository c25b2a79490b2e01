/** The booking records (`Availability`, `Appointment`, `VisitHistory`), the
    tables that hold them, and the query behaviour the booking code relies on:
    `.filter(...)`, `.first()` on a table without an `ordering`, and the
    newest-first ordering of appointments. */
module AppointmentModels {
  import opened Wrappers
  import opened DateTimes
  import opened BookingStatus

  /** A primary key. The source draws them from `uuid4`; the model treats one
      as the 128-bit number it denotes, which is also the order the database
      sorts them in. */
  type Uuid = nat

  /** An open (or consumed) time block of one medical professional. */
  datatype Availability = Availability(
    id: Uuid,
    professional: Uuid,
    start: Time,
    end: Time,
    isBooked: bool)

  datatype Appointment = Appointment(
    id: Uuid,
    patient: Uuid,
    professional: Uuid,
    note: Option<string>,
    status: Status,
    start: Time,
    end: Time,
    createdAt: Time)

  /** `appointment` is the nullable one-to-one link; `visitDate` is a
      calendar day (a `DateField`). */
  datatype VisitHistory = VisitHistory(
    id: Uuid,
    appointment: Option<Uuid>,
    patient: Uuid,
    professional: Uuid,
    visitDate: Option<int>,
    reasonForVisit: Option<string>,
    treatmentsReceived: Option<string>,
    physicianNotes: Option<string>)

  /** `Availability.objects.create(...)`: a new block is unbooked. */
  function NewAvailability(id: Uuid, professional: Uuid, start: Time, end: Time): (a: Availability)
    ensures !a.isBooked
    ensures a.id == id && a.professional == professional && a.start == start && a.end == end
  {
    Availability(id, professional, start, end, false)
  }

  /** `Appointment.objects.create(...)` without a status: it starts `Pending`;
      `created_at` is the creation clock. */
  function NewAppointment(id: Uuid, patient: Uuid, professional: Uuid, note: Option<string>,
                          start: Time, end: Time, now: Time): (a: Appointment)
    ensures a.status == Pending && a.createdAt == now
    ensures a.id == id && a.patient == patient && a.professional == professional
    ensures a.note == note && a.start == start && a.end == end
  {
    Appointment(id, patient, professional, note, DefaultStatus, start, end, now)
  }

  /** `VisitHistory.objects.create(appointment=.., patient=.., medical_professional=..)`:
      every other column starts null. */
  function NewVisitHistory(id: Uuid, appointment: Uuid, patient: Uuid, professional: Uuid): (h: VisitHistory)
    ensures h.appointment == Some(appointment) && h.patient == patient && h.professional == professional
    ensures h.visitDate.None? && h.reasonForVisit.None? && h.treatmentsReceived.None? && h.physicianNotes.None?
  {
    VisitHistory(id, Some(appointment), patient, professional, None, None, None, None)
  }

  // ---------------------------------------------------------------------
  // Queries

  /** `.filter(keep)`: the records that satisfy `keep`, each as often as it
      occurs, in table order. */
  function Filter<T(==,!new)>(s: seq<T>, keep: T -> bool): (r: seq<T>)
    ensures forall x :: x in r <==> x in s && keep(x)
    ensures forall x :: multiset(r)[x] == if keep(x) then multiset(s)[x] else 0
  {
    if |s| == 0 then []
    else
      var rest := Filter(s[1..], keep);
      assert s == [s[0]] + s[1..];
      if keep(s[0]) then [s[0]] + rest else rest
  }

  /** `.filter(keep).first()` on a table with no `ordering`: Django then
      orders by primary key, so the answer is the position of the matching
      record with the smallest key (the earliest position among equal keys),
      or `None` when nothing matches. */
  function FirstByPk<T>(s: seq<T>, pk: T -> Uuid, keep: T -> bool): (r: Option<nat>)
    ensures r.None? <==> forall k :: 0 <= k < |s| ==> !keep(s[k])
    ensures r.Some? ==> r.value < |s| && keep(s[r.value])
    ensures r.Some? ==> forall k :: 0 <= k < |s| && keep(s[k]) ==> pk(s[r.value]) <= pk(s[k])
  {
    if |s| == 0 then None
    else
      var rest := FirstByPk(s[1..], pk, keep);
      assert forall k :: 1 <= k < |s| ==> s[k] == s[1..][k - 1];
      if !keep(s[0]) then
        (if rest.Some? then Some(rest.value + 1) else None)
      else if rest.Some? && pk(s[rest.value + 1]) < pk(s[0]) then
        Some(rest.value + 1)
      else
        Some(0)
  }

  /** `Meta.ordering = ["-created_at"]`. */
  ghost predicate NewestFirst(s: seq<Appointment>) {
    forall i, j :: 0 <= i < j < |s| ==> s[i].createdAt >= s[j].createdAt
  }

  /** A record no newer than the head of a sorted table can go in front of
      it. */
  lemma ConsNewestFirst(x: Appointment, s: seq<Appointment>)
    requires NewestFirst(s) && (|s| > 0 ==> x.createdAt >= s[0].createdAt)
    ensures NewestFirst([x] + s)
  {
    var r := [x] + s;
    forall i, j | 0 <= i < j < |r|
      ensures r[i].createdAt >= r[j].createdAt
    {
      if i == 0 {
        assert r[j] == s[j - 1];
        assert s[0].createdAt >= s[j - 1].createdAt;
      } else {
        assert r[i] == s[i - 1] && r[j] == s[j - 1];
      }
    }
  }

  function InsertNewest(a: Appointment, s: seq<Appointment>): (r: seq<Appointment>)
    requires NewestFirst(s)
    ensures NewestFirst(r)
    ensures multiset(r) == multiset(s) + multiset{a}
    ensures |r| == |s| + 1 && (r[0] == a || (|s| > 0 && r[0] == s[0]))
  {
    if |s| == 0 || a.createdAt >= s[0].createdAt then
      ConsNewestFirst(a, s);
      [a] + s
    else
      var rest := InsertNewest(a, s[1..]);
      assert s == [s[0]] + s[1..];
      assert |s| > 1 ==> s[0].createdAt >= s[1].createdAt;
      ConsNewestFirst(s[0], rest);
      [s[0]] + rest
  }

  /** A table query of appointments: newest first, nothing added or lost.
      Ties keep no particular order in the database; here they keep one. */
  function SortNewestFirst(s: seq<Appointment>): (r: seq<Appointment>)
    ensures NewestFirst(r)
    ensures multiset(r) == multiset(s)
  {
    if |s| == 0 then []
    else
      assert s == [s[0]] + s[1..];
      InsertNewest(s[0], SortNewestFirst(s[1..]))
  }

  // ---------------------------------------------------------------------
  // The tables

  ghost predicate DistinctAvailabilityIds(s: seq<Availability>) {
    forall i, j :: 0 <= i < j < |s| ==> s[i].id != s[j].id
  }

  ghost predicate DistinctAppointmentIds(s: seq<Appointment>) {
    forall i, j :: 0 <= i < j < |s| ==> s[i].id != s[j].id
  }

  ghost predicate DistinctHistoryIds(s: seq<VisitHistory>) {
    forall i, j :: 0 <= i < j < |s| ==> s[i].id != s[j].id
  }

  /** `VisitHistory.appointment` is a `OneToOneField`: no appointment is linked
      from two visit histories (any number may have no link). */
  ghost predicate OneToOne(s: seq<VisitHistory>) {
    forall i, j :: 0 <= i < j < |s| && s[i].appointment.Some? ==> s[i].appointment != s[j].appointment
  }

  /** Whether a history links one of the appointments in `ids`. */
  predicate LinksAny(h: VisitHistory, ids: set<Uuid>) {
    h.appointment.Some? && h.appointment.value in ids
  }

  /** The `SET_NULL` rule: the histories with their links to the deleted
      appointments `ids` cleared. */
  function Unlinked(s: seq<VisitHistory>, ids: set<Uuid>): (r: seq<VisitHistory>)
    ensures |r| == |s|
    ensures forall k :: 0 <= k < |s| ==> !LinksAny(r[k], ids)
    ensures forall k :: 0 <= k < |s| ==> r[k] == s[k] || (LinksAny(s[k], ids) && r[k] == s[k].(appointment := None))
  {
    seq(|s|, k requires 0 <= k < |s| => if LinksAny(s[k], ids) then s[k].(appointment := None) else s[k])
  }

  /** Clearing links keeps the keys unique and the link one-to-one. */
  lemma UnlinkedValid(s: seq<VisitHistory>, ids: set<Uuid>)
    requires DistinctHistoryIds(s) && OneToOne(s)
    ensures DistinctHistoryIds(Unlinked(s, ids)) && OneToOne(Unlinked(s, ids))
  {
    var r := Unlinked(s, ids);
    assert forall k :: 0 <= k < |s| ==> r[k].id == s[k].id;
  }

  // ---------------------------------------------------------------------
  // What deleting a user takes with it

  /** Whether an optional key is `id`. */
  predicate Names(key: Option<Uuid>, id: Uuid) {
    key == Some(id)
  }

  /** The rows `CASCADE` removes with the patient record `patient` and the
      professional record `professional`. */
  predicate AppointmentGoes(a: Appointment, patient: Option<Uuid>, professional: Option<Uuid>) {
    Names(patient, a.patient) || Names(professional, a.professional)
  }

  predicate HistoryGoes(h: VisitHistory, patient: Option<Uuid>, professional: Option<Uuid>) {
    Names(patient, h.patient) || Names(professional, h.professional)
  }

  function KeySet(key: Option<Uuid>): (r: set<Uuid>)
    ensures forall id :: id in r <==> Names(key, id)
  {
    if key.Some? then {key.value} else {}
  }

  /** The availabilities that survive deleting the professional record. */
  function AvailabilitiesAfterDelete(s: seq<Availability>, professional: Option<Uuid>): (r: seq<Availability>)
    ensures forall a :: a in r <==> a in s && !Names(professional, a.professional)
    ensures forall a :: multiset(r)[a] == if Names(professional, a.professional) then 0 else multiset(s)[a]
    ensures DistinctAvailabilityIds(s) ==> DistinctAvailabilityIds(r)
  {
    var keep := (a: Availability) => !Names(professional, a.professional);
    FilterAvailabilities(s, keep);
    Filter(s, keep)
  }

  /** The appointments that survive deleting the two records. */
  function AppointmentsAfterDelete(s: seq<Appointment>, patient: Option<Uuid>, professional: Option<Uuid>): (r: seq<Appointment>)
    ensures forall a :: a in r <==> a in s && !AppointmentGoes(a, patient, professional)
    ensures forall a :: multiset(r)[a] == if AppointmentGoes(a, patient, professional) then 0 else multiset(s)[a]
    ensures DistinctAppointmentIds(s) ==> DistinctAppointmentIds(r)
  {
    var keep := (a: Appointment) => !AppointmentGoes(a, patient, professional);
    FilterAppointments(s, keep);
    Filter(s, keep)
  }

  /** The keys of the appointments the cascade deletes. */
  function DeletedAppointmentIds(s: seq<Appointment>, patient: Option<Uuid>, professional: Option<Uuid>): (ids: set<Uuid>)
    ensures forall a :: a in s && AppointmentGoes(a, patient, professional) ==> a.id in ids
    ensures forall id :: id in ids ==> exists a :: a in s && AppointmentGoes(a, patient, professional) && a.id == id
  {
    set a | a in s && AppointmentGoes(a, patient, professional) :: a.id
  }

  function KeepHistory(patient: Option<Uuid>, professional: Option<Uuid>): VisitHistory -> bool {
    h => !HistoryGoes(h, patient, professional)
  }

  /** The visit histories that survive: those of neither record, each with
      any link to a deleted appointment cleared. */
  function HistoriesAfterDelete(hs: seq<VisitHistory>, appts: seq<Appointment>,
                                patient: Option<Uuid>, professional: Option<Uuid>): (r: seq<VisitHistory>)
    ensures forall k :: 0 <= k < |r| ==>
      && !HistoryGoes(r[k], patient, professional)
      && !LinksAny(r[k], DeletedAppointmentIds(appts, patient, professional))
    ensures forall k :: 0 <= k < |r| ==>
      exists h :: h in hs && !HistoryGoes(h, patient, professional) && (r[k] == h || r[k] == h.(appointment := None))
    ensures DistinctHistoryIds(hs) && OneToOne(hs) ==> DistinctHistoryIds(r) && OneToOne(r)
  {
    var keep := KeepHistory(patient, professional);
    var kept := Filter(hs, keep);
    var ids := DeletedAppointmentIds(appts, patient, professional);
    assert forall k :: 0 <= k < |kept| ==> kept[k] in kept;
    FilterUnlinkHistories(hs, keep, ids);
    Unlinked(kept, ids)
  }

  /** Every history of neither record survives the deletion: unchanged, or
      with its link cleared when it pointed at a deleted appointment. */
  lemma HistoriesAfterDeleteKeeps(hs: seq<VisitHistory>, appts: seq<Appointment>,
                                  patient: Option<Uuid>, professional: Option<Uuid>)
    ensures var ids, r := DeletedAppointmentIds(appts, patient, professional), HistoriesAfterDelete(hs, appts, patient, professional);
      forall h :: h in hs && !HistoryGoes(h, patient, professional) ==>
        (if LinksAny(h, ids) then h.(appointment := None) else h) in r
  {
    FilterUnlinkKeeps(hs, KeepHistory(patient, professional), DeletedAppointmentIds(appts, patient, professional));
  }

  /** One step of `Filter`. */
  lemma FilterCons<T(!new)>(s: seq<T>, keep: T -> bool)
    requires |s| > 0
    ensures Filter(s, keep) == (if keep(s[0]) then [s[0]] else []) + Filter(s[1..], keep)
  {
  }

  /** A history that shares neither key nor link with a valid table can go
      in front of it. */
  lemma ConsValidHistories(x: VisitHistory, rest: seq<VisitHistory>)
    requires DistinctHistoryIds(rest) && OneToOne(rest)
    requires forall y :: y in rest ==> y.id != x.id && (x.appointment.Some? ==> y.appointment != x.appointment)
    ensures DistinctHistoryIds([x] + rest) && OneToOne([x] + rest)
  {
    var r := [x] + rest;
    assert forall k :: 1 <= k < |r| ==> r[k] == rest[k - 1] && rest[k - 1] in rest;
  }

  /** The tail of a valid table is valid, and shares nothing with its head. */
  lemma TailValidHistories(s: seq<VisitHistory>)
    requires |s| > 0 && DistinctHistoryIds(s) && OneToOne(s)
    ensures DistinctHistoryIds(s[1..]) && OneToOne(s[1..])
    ensures forall y :: y in s[1..] ==> y.id != s[0].id && (s[0].appointment.Some? ==> y.appointment != s[0].appointment)
  {
    var tail := s[1..];
    assert forall k :: 0 <= k < |tail| ==> tail[k] == s[k + 1];
    forall y | y in tail
      ensures y.id != s[0].id && (s[0].appointment.Some? ==> y.appointment != s[0].appointment)
    {
      var m :| 0 <= m < |tail| && tail[m] == y;
      assert s[m + 1] == y;
    }
  }

  /** Filtering keeps the keys unique and the link one-to-one. */
  lemma {:induction false} FilterValidHistories(s: seq<VisitHistory>, keep: VisitHistory -> bool)
    requires DistinctHistoryIds(s) && OneToOne(s)
    ensures DistinctHistoryIds(Filter(s, keep)) && OneToOne(Filter(s, keep))
  {
    if |s| > 0 {
      TailValidHistories(s);
      FilterValidHistories(s[1..], keep);
      FilterCons(s, keep);
      if keep(s[0]) {
        ConsValidHistories(s[0], Filter(s[1..], keep));
      } else {
        assert Filter(s, keep) == Filter(s[1..], keep);
      }
    }
  }

  /** A row whose key no other row has can go in front of a table whose keys
      are unique. */
  lemma ConsDistinct<T>(x: T, rest: seq<T>, key: T -> Uuid)
    requires forall i, j :: 0 <= i < j < |rest| ==> key(rest[i]) != key(rest[j])
    requires forall y :: y in rest ==> key(y) != key(x)
    ensures var r := [x] + rest; forall i, j :: 0 <= i < j < |r| ==> key(r[i]) != key(r[j])
  {
    var r := [x] + rest;
    assert forall k :: 1 <= k < |r| ==> r[k] == rest[k - 1] && rest[k - 1] in rest;
  }

  /** The tail of a table whose keys are unique shares none of its head's. */
  lemma TailDistinct<T>(s: seq<T>, key: T -> Uuid)
    requires |s| > 0 && forall i, j :: 0 <= i < j < |s| ==> key(s[i]) != key(s[j])
    ensures var t := s[1..]; forall i, j :: 0 <= i < j < |t| ==> key(t[i]) != key(t[j])
    ensures forall y :: y in s[1..] ==> key(y) != key(s[0])
  {
    var tail := s[1..];
    assert forall k :: 0 <= k < |tail| ==> tail[k] == s[k + 1];
    forall y | y in tail
      ensures key(y) != key(s[0])
    {
      var m :| 0 <= m < |tail| && tail[m] == y;
      assert s[m + 1] == y;
    }
  }

  /** Filtering a table whose keys are unique keeps them unique. */
  lemma {:induction false} FilterDistinct<T(!new)>(s: seq<T>, key: T -> Uuid, keep: T -> bool)
    requires forall i, j :: 0 <= i < j < |s| ==> key(s[i]) != key(s[j])
    ensures var r := Filter(s, keep); forall i, j :: 0 <= i < j < |r| ==> key(r[i]) != key(r[j])
  {
    if |s| > 0 {
      TailDistinct(s, key);
      FilterDistinct(s[1..], key, keep);
      FilterCons(s, keep);
      if keep(s[0]) {
        ConsDistinct(s[0], Filter(s[1..], keep), key);
      } else {
        assert Filter(s, keep) == Filter(s[1..], keep);
      }
    }
  }

  /** The tables' validity survives each deletion filter. */
  lemma FilterAvailabilities(s: seq<Availability>, keep: Availability -> bool)
    ensures DistinctAvailabilityIds(s) ==> DistinctAvailabilityIds(Filter(s, keep))
  {
    if DistinctAvailabilityIds(s) {
      FilterDistinct(s, (a: Availability) => a.id, keep);
    }
  }

  lemma FilterAppointments(s: seq<Appointment>, keep: Appointment -> bool)
    ensures DistinctAppointmentIds(s) ==> DistinctAppointmentIds(Filter(s, keep))
  {
    if DistinctAppointmentIds(s) {
      FilterDistinct(s, (a: Appointment) => a.id, keep);
    }
  }

  lemma FilterUnlinkHistories(s: seq<VisitHistory>, keep: VisitHistory -> bool, ids: set<Uuid>)
    ensures DistinctHistoryIds(s) && OneToOne(s) ==>
      DistinctHistoryIds(Unlinked(Filter(s, keep), ids)) && OneToOne(Unlinked(Filter(s, keep), ids))
  {
    if DistinctHistoryIds(s) && OneToOne(s) {
      FilterValidHistories(s, keep);
      UnlinkedValid(Filter(s, keep), ids);
    }
  }

  /** Every history the filter keeps survives the unlinking, with its link
      cleared when it pointed at one of `ids`. */
  lemma FilterUnlinkKeeps(s: seq<VisitHistory>, keep: VisitHistory -> bool, ids: set<Uuid>)
    ensures forall h :: h in s && keep(h) ==>
      (if LinksAny(h, ids) then h.(appointment := None) else h) in Unlinked(Filter(s, keep), ids)
  {
    var kept := Filter(s, keep);
    var r := Unlinked(kept, ids);
    forall h | h in s && keep(h)
      ensures (if LinksAny(h, ids) then h.(appointment := None) else h) in r
    {
      assert h in kept;
      var k :| 0 <= k < |kept| && kept[k] == h;
      assert r[k] in r;
    }
  }

  /** The rows of the booking tables, plus the keys of the professional and
      patient tables they refer to. */
  class Clinic {
    var professionals: set<Uuid>
    var patients: set<Uuid>
    var availabilities: seq<Availability>
    var appointments: seq<Appointment>
    var histories: seq<VisitHistory>

    /** Primary keys are unique and the one-to-one link holds. */
    ghost predicate Valid()
      reads this
    {
      DistinctAvailabilityIds(availabilities)
      && DistinctAppointmentIds(appointments)
      && DistinctHistoryIds(histories)
      && OneToOne(histories)
    }

    constructor (professionals: set<Uuid>, patients: set<Uuid>, availabilities: seq<Availability>)
      requires DistinctAvailabilityIds(availabilities)
      ensures Valid()
      ensures this.professionals == professionals && this.patients == patients
      ensures this.availabilities == availabilities
      ensures this.appointments == [] && this.histories == []
    {
      this.professionals := professionals;
      this.patients := patients;
      this.availabilities := availabilities;
      this.appointments := [];
      this.histories := [];
    }

    ghost predicate FreshAvailabilityId(id: Uuid)
      reads this
    {
      forall k :: 0 <= k < |availabilities| ==> availabilities[k].id != id
    }

    ghost predicate FreshAppointmentId(id: Uuid)
      reads this
    {
      forall k :: 0 <= k < |appointments| ==> appointments[k].id != id
    }

    ghost predicate FreshHistoryId(id: Uuid)
      reads this
    {
      forall k :: 0 <= k < |histories| ==> histories[k].id != id
    }

    /** Deleting an appointment (`on_delete=SET_NULL` on the visit history):
        the appointment row goes, every visit history stays, and the one that
        was linked to it loses its link. */
    method DeleteAppointment(i: nat)
      requires Valid() && i < |appointments|
      modifies this
      ensures Valid()
      ensures appointments == old(appointments[..i] + appointments[i + 1..])
      ensures histories == Unlinked(old(histories), {old(appointments[i].id)})
      ensures availabilities == old(availabilities)
      ensures professionals == old(professionals) && patients == old(patients)
    {
      var id := appointments[i].id;
      var rest := appointments[..i] + appointments[i + 1..];
      assert forall a :: 0 <= a < |rest| ==> rest[a] == appointments[if a < i then a else a + 1];
      appointments := rest;
      histories := Unlinked(histories, {id});
    }

    /** Deleting the patient record `patient` and the professional record
        `professional` (each when present): `on_delete=CASCADE` removes the
        professional's availabilities, every appointment and visit history of
        either record, and `on_delete=SET_NULL` clears the link of every
        remaining visit history to a deleted appointment. */
    method DeleteParties(patient: Option<Uuid>, professional: Option<Uuid>)
      requires Valid()
      modifies this
      ensures Valid()
      ensures patients == old(patients) - KeySet(patient)
      ensures professionals == old(professionals) - KeySet(professional)
      ensures availabilities == AvailabilitiesAfterDelete(old(availabilities), professional)
      ensures appointments == AppointmentsAfterDelete(old(appointments), patient, professional)
      ensures histories == HistoriesAfterDelete(old(histories), old(appointments), patient, professional)
    {
      histories := HistoriesAfterDelete(histories, appointments, patient, professional);
      appointments := AppointmentsAfterDelete(appointments, patient, professional);
      availabilities := AvailabilitiesAfterDelete(availabilities, professional);
      professionals := professionals - KeySet(professional);
      patients := patients - KeySet(patient);
    }
  }
}

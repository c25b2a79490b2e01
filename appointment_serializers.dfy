/** The booking engine of `AppointmentSerializer`: `validate` checks a
    request against the professional and availability tables, `create`
    consumes the chosen availability (whole, or split into a booked slice and
    up to two free remainders) and inserts a `Pending` appointment, and
    `update` merges a request into an existing appointment and records the
    visit in its visit history. */
module AppointmentSerializers {
  import opened Wrappers
  import opened DateTimes
  import opened BookingStatus
  import opened AppointmentModels

  /** The writable fields of a booking or update request. The professional,
      start and end are required fields; status and note may be left out, and
      a note may be given as null. */
  datatype Request = Request(
    professionalId: Uuid,
    start: Time,
    end: Time,
    status: Field<Status>,
    note: Field<Option<string>>,
    isStatusUpdate: bool)

  /** What `validate` hands on: the request, and the position of the chosen
      availability (only when the request is not a status update). */
  datatype Validated = Validated(request: Request, availability: Option<nat>)

  datatype BookingError =
    | ProfessionalNotFound   // "No medical professional found for that id."
    | InvalidRange           // "start datetime must always be less than end datetime."
    | NoSuitableAvailability // "No suitable availability found for the appointment duration."
    | MissingAvailability    // `validated_data["availability"]` raises KeyError
    | NoPatientProfile       // the requesting user has no `patient`
    | HistoryConflict        // `get_or_create` hits the one-to-one constraint

  /** The availability query of `validate`: an unbooked block of the
      professional that covers the whole requested window. */
  predicate Covers(a: Availability, professional: Uuid, start: Time, end: Time) {
    a.professional == professional && a.start <= start && a.end >= end && !a.isBooked
  }

  /** `AppointmentSerializer.validate`. */
  function Validate(professionals: set<Uuid>, availabilities: seq<Availability>, req: Request): (r: Result<Validated, BookingError>)
    ensures r == Err(ProfessionalNotFound) <==> req.professionalId !in professionals
    ensures r.Ok? ==> r.value.request == req
    ensures req.isStatusUpdate ==> (r.Ok? <==> req.professionalId in professionals)
    ensures req.isStatusUpdate && r.Ok? ==> r.value.availability.None?
    ensures !req.isStatusUpdate && req.professionalId in professionals && req.start > req.end ==> r == Err(InvalidRange)
    ensures !req.isStatusUpdate ==>
      (r.Ok? <==> req.professionalId in professionals && req.start <= req.end &&
                  exists k :: 0 <= k < |availabilities| && Covers(availabilities[k], req.professionalId, req.start, req.end))
    ensures !req.isStatusUpdate && req.professionalId in professionals && req.start <= req.end && r.Err? ==>
      r == Err(NoSuitableAvailability)
    ensures !req.isStatusUpdate && r.Ok? ==> r.value.availability.Some?
    ensures !req.isStatusUpdate && r.Ok? && r.value.availability.Some? ==>
      var i := r.value.availability.value;
      && i < |availabilities|
      && Covers(availabilities[i], req.professionalId, req.start, req.end)
      && forall k :: 0 <= k < |availabilities| && Covers(availabilities[k], req.professionalId, req.start, req.end) ==>
           availabilities[i].id <= availabilities[k].id
  {
    if req.professionalId !in professionals then Err(ProfessionalNotFound)
    else if req.isStatusUpdate then Ok(Validated(req, None))
    else if req.start > req.end then Err(InvalidRange)
    else
      var chosen := FirstByPk(availabilities, (a: Availability) => a.id,
                              (a: Availability) => Covers(a, req.professionalId, req.start, req.end));
      if chosen.None? then Err(NoSuitableAvailability)
      else Ok(Validated(req, chosen))
  }

  // ---------------------------------------------------------------------
  // Allocation

  /** The three records one booking leaves behind: the original block, now
      booked, and the free remainders created before and after it. */
  datatype Allocation = Allocation(booked: Availability, leading: Option<Availability>, trailing: Option<Availability>) {
    function Created(): seq<Availability> {
      (if leading.Some? then [leading.value] else []) + (if trailing.Some? then [trailing.value] else [])
    }
  }

  /** The leading remainder ends at 22:59:00. */
  const LeadingEndClock: int := 22 * 3600 + 59 * 60

  /** Equal whole-day spans: the booking is taken to consume the whole block. */
  predicate SpansEqual(a: Availability, start: Time, end: Time) {
    DaysOf(end - start) == DaysOf(a.end - a.start)
  }

  /** What `create` does to the chosen availability `a` for a booking of
      `[start, end]` by `professional`; new records get the given keys. */
  function Allocate(a: Availability, professional: Uuid, start: Time, end: Time,
                    leadingId: Uuid, trailingId: Uuid): (r: Allocation)
    ensures r.booked.isBooked && r.booked.id == a.id && r.booked.professional == a.professional
    // equal spans: booked whole, bounds untouched, nothing created
    ensures SpansEqual(a, start, end) ==>
      r.booked.start == a.start && r.booked.end == a.end && r.leading.None? && r.trailing.None?
    // otherwise the original record is narrowed to exactly the booking
    ensures !SpansEqual(a, start, end) ==> r.booked.start == start && r.booked.end == end
    // leading remainder: iff at least one whole day lies between the two starts
    ensures r.leading.Some? <==> !SpansEqual(a, start, end) && start - a.start >= SecondsPerDay
    ensures r.leading.Some? ==>
      var l := r.leading.value;
      && l.id == leadingId && l.professional == professional && !l.isBooked
      && l.start == a.start
      && DateOf(l.end) == DateOf(start) - 1 && TimeOfDay(l.end) == LeadingEndClock
    // trailing remainder: iff the end plus one day still lies inside the block
    ensures r.trailing.Some? <==> !SpansEqual(a, start, end) && end + SecondsPerDay <= a.end
    ensures r.trailing.Some? ==>
      var t := r.trailing.value;
      && t.id == trailingId && t.professional == professional && !t.isBooked
      && DateOf(t.start) == DateOf(end) + 1 && TimeOfDay(t.start) == 0
      && t.end == a.end
    ensures |r.Created()| <= 2
  {
    if SpansEqual(a, start, end) then
      Allocation(a.(isBooked := true), None, None)
    else
      var leading :=
        if DaysOf(start - a.start) > 0
        then Some(NewAvailability(leadingId, professional, a.start, AtClock(start - SecondsPerDay, 22, 59, 0)))
        else None;
      var trailing :=
        if end + SecondsPerDay <= a.end
        then Some(NewAvailability(trailingId, professional, AtClock(end + SecondsPerDay, 0, 0, 0), a.end))
        else None;
      Allocation(a.(start := start, end := end, isBooked := true), leading, trailing)
  }

  /** The records a split leaves do not overlap one another: the leading
      remainder ends before the booked slice starts, the trailing remainder
      starts after it ends, and every record ends inside the original block. */
  lemma AllocationDisjoint(a: Availability, professional: Uuid, start: Time, end: Time,
                           leadingId: Uuid, trailingId: Uuid)
    requires a.start <= start <= end <= a.end
    ensures var r := Allocate(a, professional, start, end, leadingId, trailingId);
      && a.start <= r.booked.start <= r.booked.end <= a.end
      && (r.leading.Some? ==> r.leading.value.end < r.booked.start && r.leading.value.end < a.end)
      && (r.trailing.Some? ==> r.booked.end < r.trailing.value.start <= r.trailing.value.end == a.end)
  {
    var r := Allocate(a, professional, start, end, leadingId, trailingId);
    if r.leading.Some? {
      assert DateOf(r.leading.value.end) < DateOf(start);
    }
    if r.trailing.Some? {
      assert DateOf(r.trailing.value.start) > DateOf(end);
    }
  }

  /** The leading remainder is a proper interval exactly when the block does
      not start after 22:59 on the day before the booking's date; otherwise
      the record created ends before it starts. */
  lemma LeadingInvertedIff(a: Availability, professional: Uuid, start: Time, end: Time,
                           leadingId: Uuid, trailingId: Uuid)
    requires Allocate(a, professional, start, end, leadingId, trailingId).leading.Some?
    ensures var l := Allocate(a, professional, start, end, leadingId, trailingId).leading.value;
      l.end < l.start <==> DateOf(a.start) == DateOf(start) - 1 && TimeOfDay(a.start) > LeadingEndClock
  {
    var l := Allocate(a, professional, start, end, leadingId, trailingId).leading.value;
    assert a.start <= start - SecondsPerDay;
    assert DateOf(a.start) <= DateOf(start - SecondsPerDay) == DateOf(start) - 1;
    assert l.end == (DateOf(start) - 1) * SecondsPerDay + LeadingEndClock;
  }

  /** An availability from 23:30 on 2024-01-10 to 23:00 on 2024-01-13 and a
      booking from 23:40 to 23:50 on 2024-01-11: the leading record created
      runs from 23:30 on the 10th back to 22:59 on the 10th. */
  lemma LeadingInvertedExample()
    ensures var a := Availability(1, 7, 1704929400, 1705186800, false);
      var r := Allocate(a, 7, 1705016400, 1705017000, 2, 3);
      && Covers(a, 7, 1705016400, 1705017000)
      && r.leading.Some? && r.leading.value.start == 1704929400 && r.leading.value.end == 1704927540
      && r.leading.value.end < r.leading.value.start
  {
  }

  /** A block that lies within one calendar day is consumed whole by any
      booking inside it, however short: both spans count zero days. */
  lemma SameDayBlockConsumedWhole(a: Availability, professional: Uuid, start: Time, end: Time,
                                  leadingId: Uuid, trailingId: Uuid)
    requires a.start <= start <= end <= a.end && DateOf(a.start) == DateOf(a.end)
    ensures Allocate(a, professional, start, end, leadingId, trailingId) == Allocation(a.(isBooked := true), None, None)
  {
    SameDateZeroDays(a.start, a.end);
    assert DateOf(start) == DateOf(end) by {
      assert DateOf(a.start) <= DateOf(start) <= DateOf(end) <= DateOf(a.end);
    }
    SameDateZeroDays(start, end);
  }

  /** The worked example: block 2024-01-10T00:00 to 2024-01-20T23:59, booking
      2024-01-12T09:00 to 10:00. The leading remainder is 2024-01-10T00:00 to
      2024-01-11T22:59, the trailing one 2024-01-13T00:00 to 2024-01-20T23:59,
      and the original record becomes the booked hour. */
  lemma SplitExample()
    ensures var a := Availability(1, 7, 1704844800, 1705795140, false);
      Allocate(a, 7, 1705050000, 1705053600, 2, 3) ==
        Allocation(Availability(1, 7, 1705050000, 1705053600, true),
                   Some(Availability(2, 7, 1704844800, 1705013940, false)),
                   Some(Availability(3, 7, 1705104000, 1705795140, false)))
  {
  }

  // ---------------------------------------------------------------------
  // create

  /** Keys the database would draw for the rows one booking may insert. */
  datatype NewIds = NewIds(leading: Uuid, trailing: Uuid, appointment: Uuid)

  ghost predicate IdsFresh(db: Clinic, ids: NewIds)
    reads db
  {
    ids.leading != ids.trailing
    && db.FreshAvailabilityId(ids.leading) && db.FreshAvailabilityId(ids.trailing)
    && db.FreshAppointmentId(ids.appointment)
  }

  /** Appending a record with an unused key keeps the keys unique. */
  lemma AppendFreshAvailability(s: seq<Availability>, x: Availability)
    requires DistinctAvailabilityIds(s)
    requires forall k :: 0 <= k < |s| ==> s[k].id != x.id
    ensures DistinctAvailabilityIds(s + [x])
  {
    assert forall k :: 0 <= k < |s| ==> (s + [x])[k] == s[k];
  }

  /** The allocation step of `create`, on the table of availabilities: the
      block at position `i` is booked whole or narrowed, after the free
      remainders have been inserted. */
  method ConsumeAvailability(db: Clinic, i: nat, professional: Uuid, start: Time, end: Time, ids: NewIds)
    requires DistinctAvailabilityIds(db.availabilities) && IdsFresh(db, ids)
    requires i < |db.availabilities|
    modifies db`availabilities
    ensures DistinctAvailabilityIds(db.availabilities)
    ensures db.availabilities == old(db.availabilities)[i := Allocate(old(db.availabilities[i]), professional, start, end, ids.leading, ids.trailing).booked]
                                 + Allocate(old(db.availabilities[i]), professional, start, end, ids.leading, ids.trailing).Created()
  {
    var a := db.availabilities[i];
    ghost var before := db.availabilities;
    ghost var alloc := Allocate(a, professional, start, end, ids.leading, ids.trailing);
    if DaysOf(end - start) == DaysOf(a.end - a.start) {
      db.availabilities := db.availabilities[i := a.(isBooked := true)];
    } else {
      if DaysOf(start - a.start) > 0 {
        var prevDay := start - SecondsPerDay;
        var leading := NewAvailability(ids.leading, professional, a.start, AtClock(prevDay, 22, 59, 0));
        AppendFreshAvailability(db.availabilities, leading);
        db.availabilities := db.availabilities + [leading];
      }
      assert db.availabilities == before + (if alloc.leading.Some? then [alloc.leading.value] else []);
      if end + SecondsPerDay <= a.end {
        var nextDay := end + SecondsPerDay;
        var trailing := NewAvailability(ids.trailing, professional, AtClock(nextDay, 0, 0, 0), a.end);
        assert forall k :: 0 <= k < |db.availabilities| ==> db.availabilities[k].id != trailing.id;
        AppendFreshAvailability(db.availabilities, trailing);
        db.availabilities := db.availabilities + [trailing];
      }
      assert db.availabilities == before + alloc.Created();
      db.availabilities := db.availabilities[i := a.(start := start, end := end, isBooked := true)];
    }
  }

  /** `AppointmentSerializer.create`, run after `validate` accepted `v`.
      `patient` is the requesting user's patient record, if any; `now` is the
      clock `created_at` reads. Within the transaction the chosen block is
      consumed as `Allocate` says, and one `Pending` appointment is added; an
      error leaves every table as it was. */
  method Create(db: Clinic, v: Validated, patient: Option<Uuid>, now: Time, ids: NewIds)
    returns (r: Result<Appointment, BookingError>)
    requires db.Valid() && IdsFresh(db, ids)
    requires Validate(db.professionals, db.availabilities, v.request) == Ok(v)
    modifies db
    ensures db.Valid()
    ensures db.professionals == old(db.professionals) && db.patients == old(db.patients)
    ensures db.histories == old(db.histories)
    ensures r.Ok? <==> v.availability.Some? && patient.Some?
    ensures v.availability.None? ==> r == Err(MissingAvailability)
    ensures v.availability.Some? && patient.None? ==> r == Err(NoPatientProfile)
    ensures r.Err? ==> db.availabilities == old(db.availabilities) && db.appointments == old(db.appointments)
    ensures r.Ok? ==>
      var req := v.request;
      var i := v.availability.value;
      var alloc := Allocate(old(db.availabilities[i]), req.professionalId, req.start, req.end, ids.leading, ids.trailing);
      && v.availability.Some? && patient.Some?
      && db.availabilities == old(db.availabilities)[i := alloc.booked] + alloc.Created()
      && r.value == NewAppointment(ids.appointment, patient.value, req.professionalId, req.note.GetOr(None), req.start, req.end, now)
      && db.appointments == old(db.appointments) + [r.value]
  {
    if v.availability.None? {
      return Err(MissingAvailability);
    }
    // `user.patient` is read inside the transaction, after the block has
    // been split; raising there rolls every change back, which is the same
    // as failing before making any.
    if patient.None? {
      return Err(NoPatientProfile);
    }
    var i := v.availability.value;
    var professional := v.request.professionalId;
    var start, end := v.request.start, v.request.end;
    ConsumeAvailability(db, i, professional, start, end, ids);
    var appointment := NewAppointment(ids.appointment, patient.value, professional, v.request.note.GetOr(None), start, end, now);
    assert forall k :: 0 <= k < |db.appointments| ==> (db.appointments + [appointment])[k] == db.appointments[k];
    db.appointments := db.appointments + [appointment];
    r := Ok(appointment);
  }

  /** The booking endpoint: `validate`, then `create`. A rejected request
      changes nothing; an accepted booking by a patient always succeeds,
      consumes the chosen block and adds exactly one appointment. */
  method Book(db: Clinic, req: Request, patient: Option<Uuid>, now: Time, ids: NewIds)
    returns (r: Result<Appointment, BookingError>)
    requires db.Valid() && IdsFresh(db, ids)
    modifies db
    ensures db.Valid()
    ensures var checked := Validate(old(db.professionals), old(db.availabilities), req);
      && (checked.Err? ==> r == Err(checked.error))
      && (checked.Ok? && req.isStatusUpdate ==> r == Err(MissingAvailability))
      && (checked.Ok? && !req.isStatusUpdate && patient.None? ==> r == Err(NoPatientProfile))
      && (r.Ok? <==> checked.Ok? && !req.isStatusUpdate && patient.Some?)
    ensures r.Err? ==>
      && db.availabilities == old(db.availabilities) && db.appointments == old(db.appointments)
      && db.histories == old(db.histories)
    ensures db.professionals == old(db.professionals) && db.patients == old(db.patients)
    ensures r.Ok? ==>
      var i := Validate(old(db.professionals), old(db.availabilities), req).value.availability.value;
      var alloc := Allocate(old(db.availabilities[i]), req.professionalId, req.start, req.end, ids.leading, ids.trailing);
      && db.availabilities == old(db.availabilities)[i := alloc.booked] + alloc.Created()
      && |db.availabilities| <= |old(db.availabilities)| + 2
      && r.value == NewAppointment(ids.appointment, patient.value, req.professionalId, req.note.GetOr(None), req.start, req.end, now)
      && db.appointments == old(db.appointments) + [r.value]
  {
    var checked := Validate(db.professionals, db.availabilities, req);
    if checked.Err? {
      return Err(checked.error);
    }
    r := Create(db, checked.value, patient, now, ids);
  }

  // ---------------------------------------------------------------------
  // update

  /** The appointment `update` saves: each field from the request or kept,
      and the status reset to `Pending` when the professional changes. */
  function MergeUpdate(inst: Appointment, req: Request): (m: Appointment)
    ensures m.id == inst.id && m.patient == inst.patient && m.createdAt == inst.createdAt
    ensures m.professional == req.professionalId && m.start == req.start && m.end == req.end
    ensures req.note.Given? ==> m.note == req.note.value
    ensures req.note.Absent? ==> m.note == inst.note
    ensures req.professionalId != inst.professional ==> m.status == Pending
    ensures req.professionalId == inst.professional && req.status.Given? ==> m.status == req.status.value
    ensures req.professionalId == inst.professional && req.status.Absent? ==> m.status == inst.status
  {
    var status := if req.professionalId != inst.professional then Pending else req.status.GetOr(inst.status);
    inst.(status := status, professional := req.professionalId, start := req.start, end := req.end,
          note := req.note.GetOr(inst.note))
  }

  /** `VisitHistory.objects.get(appointment=.., medical_professional=.., patient=..)`. */
  function FindVisit(hs: seq<VisitHistory>, appt: Appointment): (r: Option<nat>)
    ensures r.None? <==> forall k :: 0 <= k < |hs| ==> !VisitOf(hs[k], appt)
    ensures r.Some? ==> r.value < |hs| && VisitOf(hs[r.value], appt)
  {
    FirstByPk(hs, (h: VisitHistory) => h.id, (h: VisitHistory) => VisitOf(h, appt))
  }

  predicate VisitOf(h: VisitHistory, appt: Appointment) {
    h.appointment == Some(appt.id) && h.professional == appt.professional && h.patient == appt.patient
  }

  /** Whether some visit history already holds the one-to-one link to `id`. */
  predicate Linked(hs: seq<VisitHistory>, id: Uuid) {
    exists k :: 0 <= k < |hs| && hs[k].appointment == Some(id)
  }

  /** What `get_or_create` and the `visit_date` assignment do to the visit
      histories for the saved appointment `appt`: reuse the matching record,
      or insert one under key `newId`; the insert fails when another record
      already links the appointment. */
  function RecordVisit(hs: seq<VisitHistory>, appt: Appointment, newId: Uuid): (r: Result<seq<VisitHistory>, BookingError>)
    ensures r.Err? <==> Linked(hs, appt.id) && forall k :: 0 <= k < |hs| ==> !VisitOf(hs[k], appt)
    ensures r.Err? ==> r.error == HistoryConflict
    ensures r.Ok? ==> |r.value| == |hs| || (|r.value| == |hs| + 1 && r.value[..|hs|] == hs)
    ensures r.Ok? ==> exists j :: 0 <= j < |r.value| && VisitOf(r.value[j], appt) && r.value[j].visitDate == Some(DateOf(appt.start))
    ensures r.Ok? ==> forall k :: 0 <= k < |hs| && hs[k].appointment != Some(appt.id) ==> r.value[k] == hs[k]
    ensures r.Ok? && |r.value| > |hs| ==> !Linked(hs, appt.id) && r.value[|hs|].id == newId
    // a record found is reused with only its visit date changed
    ensures FindVisit(hs, appt).Some? ==>
      var j := FindVisit(hs, appt).value;
      r == Ok(hs[j := hs[j].(visitDate := Some(DateOf(appt.start)))])
    // otherwise a fresh record for the appointment's parties, dated, is appended
    ensures FindVisit(hs, appt).None? && !Linked(hs, appt.id) ==>
      r == Ok(hs + [NewVisitHistory(newId, appt.id, appt.patient, appt.professional).(visitDate := Some(DateOf(appt.start)))])
  {
    var found := FindVisit(hs, appt);
    if found.Some? then
      var j := found.value;
      var updated := hs[j := hs[j].(visitDate := Some(DateOf(appt.start)))];
      assert VisitOf(updated[j], appt);
      Ok(updated)
    else if Linked(hs, appt.id) then
      Err(HistoryConflict)
    else
      var created := NewVisitHistory(newId, appt.id, appt.patient, appt.professional);
      var inserted := hs + [created.(visitDate := Some(DateOf(appt.start)))];
      assert VisitOf(inserted[|hs|], appt);
      Ok(inserted)
  }

  /** A table whose links are those of a one-to-one table is one-to-one. */
  lemma SameLinksOneToOne(hs: seq<VisitHistory>, r: seq<VisitHistory>)
    requires OneToOne(hs) && |r| == |hs|
    requires forall k :: 0 <= k < |r| ==> r[k].appointment == hs[k].appointment
    ensures OneToOne(r)
  {
  }

  /** Appending a history linked to an appointment no row links keeps the
      table one-to-one. */
  lemma AppendLinkOneToOne(hs: seq<VisitHistory>, h: VisitHistory)
    requires OneToOne(hs)
    requires forall k :: 0 <= k < |hs| ==> hs[k].appointment != h.appointment
    ensures OneToOne(hs + [h])
  {
    assert forall k :: 0 <= k < |hs| ==> (hs + [h])[k] == hs[k];
  }

  /** In a one-to-one table, at most one row holds a given link. */
  lemma OneToOneUnique(hs: seq<VisitHistory>, j: nat, id: Uuid)
    requires OneToOne(hs) && j < |hs| && hs[j].appointment == Some(id)
    ensures forall k :: 0 <= k < |hs| && hs[k].appointment == Some(id) ==> k == j
  {
  }

  /** Recording a visit keeps the one-to-one link, and afterwards exactly one
      visit history is linked to the appointment. */
  lemma RecordVisitOneToOne(hs: seq<VisitHistory>, appt: Appointment, newId: Uuid)
    requires OneToOne(hs)
    requires RecordVisit(hs, appt, newId).Ok?
    ensures var r := RecordVisit(hs, appt, newId).value;
      && OneToOne(r)
      && exists j :: 0 <= j < |r| && r[j].appointment == Some(appt.id) &&
           forall k :: 0 <= k < |r| && r[k].appointment == Some(appt.id) ==> k == j
  {
    var r := RecordVisit(hs, appt, newId).value;
    var found := FindVisit(hs, appt);
    var j: nat;
    if found.Some? {
      j := found.value;
      assert r == hs[j := hs[j].(visitDate := Some(DateOf(appt.start)))];
      SameLinksOneToOne(hs, r);
    } else {
      j := |hs|;
      assert !Linked(hs, appt.id);
      assert r == hs + [r[j]];
      AppendLinkOneToOne(hs, r[j]);
    }
    OneToOneUnique(r, j, appt.id);
  }

  /** Updating twice records the visit once: the second update finds and
      reuses the record the first one left. */
  lemma RecordVisitIdempotent(hs: seq<VisitHistory>, appt: Appointment, id1: Uuid, id2: Uuid)
    requires OneToOne(hs)
    requires RecordVisit(hs, appt, id1).Ok?
    ensures RecordVisit(RecordVisit(hs, appt, id1).value, appt, id2) == RecordVisit(hs, appt, id1)
  {
    var r1 := RecordVisit(hs, appt, id1).value;
    RecordVisitOneToOne(hs, appt, id1);
    var j :| 0 <= j < |r1| && VisitOf(r1[j], appt) && r1[j].visitDate == Some(DateOf(appt.start));
    var found := FindVisit(r1, appt);
    assert found.Some?;
    assert found.value == j;
    assert r1[j := r1[j].(visitDate := Some(DateOf(appt.start)))] == r1;
  }

  /** Once a visit is recorded, an update that moves the appointment to
      another professional cannot record it again: the history linked to the
      appointment names the old professional, so `get_or_create` finds
      nothing and its insert breaks the one-to-one link. */
  lemma ProfessionalChangeConflicts(hs: seq<VisitHistory>, appt: Appointment, other: Uuid, id1: Uuid, id2: Uuid)
    requires OneToOne(hs)
    requires RecordVisit(hs, appt, id1).Ok? && other != appt.professional
    ensures RecordVisit(RecordVisit(hs, appt, id1).value, appt.(professional := other), id2) == Err(HistoryConflict)
  {
    var r1 := RecordVisit(hs, appt, id1).value;
    RecordVisitOneToOne(hs, appt, id1);
    var j :| 0 <= j < |r1| && VisitOf(r1[j], appt) && r1[j].visitDate == Some(DateOf(appt.start));
    assert Linked(r1, appt.id);
  }

  /** The get-or-create of `update` and the `visit_date` assignment, on the
      visit-history table. */
  method SaveVisit(db: Clinic, appt: Appointment, historyId: Uuid) returns (r: Result<Appointment, BookingError>)
    requires DistinctHistoryIds(db.histories) && OneToOne(db.histories) && db.FreshHistoryId(historyId)
    modifies db`histories
    ensures DistinctHistoryIds(db.histories) && OneToOne(db.histories)
    ensures match RecordVisit(old(db.histories), appt, historyId)
      case Ok(hs) => db.histories == hs && r == Ok(appt)
      case Err(e) => db.histories == old(db.histories) && r == Err(e)
  {
    ghost var before := db.histories;
    var found := FindVisit(db.histories, appt);
    if found.Some? {
      var j := found.value;
      var vh := db.histories[j];
      vh := vh.(visitDate := Some(DateOf(appt.start)));
      assert forall k :: 0 <= k < |db.histories| ==> db.histories[j := vh][k].id == db.histories[k].id;
      db.histories := db.histories[j := vh];
    } else if exists k :: 0 <= k < |db.histories| && db.histories[k].appointment == Some(appt.id) {
      return Err(HistoryConflict);
    } else {
      var vh := NewVisitHistory(historyId, appt.id, appt.patient, appt.professional);
      vh := vh.(visitDate := Some(DateOf(appt.start)));
      assert forall k :: 0 <= k < |db.histories| ==> (db.histories + [vh])[k] == db.histories[k];
      db.histories := db.histories + [vh];
    }
    RecordVisitOneToOne(before, appt, historyId);
    r := Ok(appt);
  }

  /** `AppointmentSerializer.update` of the appointment at position `i`, run
      after `validate` accepted `v`. The merged appointment is saved first;
      recording the visit comes after and may fail on its own, leaving the
      saved appointment in place. Availability is never touched. */
  method Update(db: Clinic, i: nat, v: Validated, historyId: Uuid) returns (r: Result<Appointment, BookingError>)
    requires db.Valid() && i < |db.appointments| && db.FreshHistoryId(historyId)
    requires Validate(db.professionals, db.availabilities, v.request) == Ok(v)
    modifies db
    ensures db.Valid()
    ensures db.availabilities == old(db.availabilities)
    ensures db.professionals == old(db.professionals) && db.patients == old(db.patients)
    ensures db.appointments == old(db.appointments)[i := MergeUpdate(old(db.appointments[i]), v.request)]
    ensures match RecordVisit(old(db.histories), db.appointments[i], historyId)
      case Ok(hs) => db.histories == hs && r == Ok(db.appointments[i])
      case Err(e) => db.histories == old(db.histories) && r == Err(e)
  {
    var inst := db.appointments[i];
    ghost var merged := MergeUpdate(inst, v.request);
    inst := inst.(status := v.request.status.GetOr(inst.status));
    if v.request.professionalId != inst.professional {
      inst := inst.(status := Pending);
    }
    inst := inst.(professional := v.request.professionalId);
    inst := inst.(start := v.request.start);
    inst := inst.(end := v.request.end);
    inst := inst.(note := v.request.note.GetOr(inst.note));
    assert inst == merged;
    assert forall k :: 0 <= k < |db.appointments| ==> db.appointments[i := inst][k].id == db.appointments[k].id;
    db.appointments := db.appointments[i := inst];
    r := SaveVisit(db, inst, historyId);
  }
}

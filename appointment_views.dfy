/** The queries of the appointment endpoints: which availabilities, appointments
    and visit histories each view exposes to the requesting user, the scoped
    retrieve/update/delete of one appointment, and the doctor's visit-history
    lookup and upsert. The requesting user's patient and professional records
    are passed in as optional keys: `None` is a user without one, for whom
    reading the relation raises `ObjectDoesNotExist`. */
module AppointmentViews {
  import opened Wrappers
  import opened DateTimes
  import opened BookingStatus
  import opened AppointmentModels
  import opened AppointmentSerializers

  datatype ViewError =
    | NoPatientRecord          // `request.user.patient` does not exist
    | NoProfessionalRecord     // `request.user.medicalprofessional` does not exist
    | NotFound                  // the key is not in the view's queryset
    | Rejected(reason: BookingError)
    | MissingField              // a required field of the submitted form is absent
    | UnknownPatient            // the submitted `patient` is not a patient key
    | UnknownProfessional       // the submitted `medical_professional` is not a professional key

  // ---------------------------------------------------------------------
  // Listings

  predicate Open(a: Availability, professional: Uuid) {
    a.professional == professional && !a.isBooked
  }

  /** `AvailabilityListAPIView.get_queryset`: the unbooked blocks of the
      professional named by the `medical_professional_id` query parameter, or
      of the requester's own professional record when the parameter is
      absent. */
  function OpenAvailabilities(avails: seq<Availability>, query: Option<Uuid>, own: Option<Uuid>)
    : (r: Result<seq<Availability>, ViewError>)
    ensures r.Err? <==> query.None? && own.None?
    ensures r.Err? ==> r.error == NoProfessionalRecord
    ensures r.Ok? ==>
      var p := if query.Some? then query.value else own.value;
      && (forall a :: a in r.value <==> a in avails && Open(a, p))
      && (forall a :: a in r.value ==> multiset(r.value)[a] == multiset(avails)[a])
  {
    if query.Some? then Ok(Filter(avails, (a: Availability) => Open(a, query.value)))
    else if own.Some? then Ok(Filter(avails, (a: Availability) => Open(a, own.value)))
    else Err(NoProfessionalRecord)
  }

  /** A booking request that is not a status update passes `validate` exactly
      when the listing of that professional shows a block spanning the
      requested window. */
  lemma ListingShowsBookable(professionals: set<Uuid>, avails: seq<Availability>, req: Request, own: Option<Uuid>)
    requires !req.isStatusUpdate && req.professionalId in professionals && req.start <= req.end
    ensures var listed := OpenAvailabilities(avails, Some(req.professionalId), own).value;
      Validate(professionals, avails, req).Ok? <==>
        exists a :: a in listed && a.start <= req.start && req.end <= a.end
  {
    var listed := OpenAvailabilities(avails, Some(req.professionalId), own).value;
    if Validate(professionals, avails, req).Ok? {
      var k :| 0 <= k < |avails| && Covers(avails[k], req.professionalId, req.start, req.end);
      assert avails[k] in listed;
    } else if a :| a in listed && a.start <= req.start && req.end <= a.end {
      var k :| 0 <= k < |avails| && avails[k] == a;
      assert Covers(avails[k], req.professionalId, req.start, req.end);
      assert false;
    }
  }

  /** Replacing the record at `i` by another removes one occurrence of the
      old record and adds one of the new. */
  lemma UpdateCount<T>(s: seq<T>, i: nat, b: T, x: T)
    requires i < |s| && x != b
    ensures multiset(s[i := b])[x] == multiset(s)[x] - (if x == s[i] then 1 else 0)
  {
  }

  /** One multiplicity of `FilterReplaceAppend`. */
  lemma FilterReplaceAppendAt<T(!new)>(s: seq<T>, i: nat, b: T, c: seq<T>, keep: T -> bool, x: T)
    requires i < |s| && !keep(b)
    ensures multiset(Filter(s[i := b] + c, keep))[x]
            == (multiset(Filter(s, keep)) - (if keep(s[i]) then multiset{s[i]} else multiset{}) + multiset(Filter(c, keep)))[x]
  {
    if keep(x) {
      UpdateCount(s, i, b, x);
      assert multiset(s[i := b] + c)[x] == multiset(s[i := b])[x] + multiset(c)[x];
    }
  }

  /** Filtering a table in which one record was replaced by one the filter
      drops, and to which records were appended: the replaced record leaves
      the result (when it was in it) and the kept appended ones join it. */
  lemma FilterReplaceAppend<T(!new)>(s: seq<T>, i: nat, b: T, c: seq<T>, keep: T -> bool)
    requires i < |s| && !keep(b)
    ensures multiset(Filter(s[i := b] + c, keep))
            == multiset(Filter(s, keep)) - (if keep(s[i]) then multiset{s[i]} else multiset{}) + multiset(Filter(c, keep))
  {
    var lhs := multiset(Filter(s[i := b] + c, keep));
    var rhs := multiset(Filter(s, keep)) - (if keep(s[i]) then multiset{s[i]} else multiset{}) + multiset(Filter(c, keep));
    forall x
      ensures lhs[x] == rhs[x]
    {
      FilterReplaceAppendAt(s, i, b, c, keep, x);
    }
    assert lhs == rhs;
  }

  /** A filter that keeps every record of a table keeps the table's multiset. */
  lemma FilterKeepsAll<T(!new)>(c: seq<T>, keep: T -> bool)
    requires forall x :: x in c ==> keep(x)
    ensures multiset(Filter(c, keep)) == multiset(c)
  {
    forall x
      ensures multiset(Filter(c, keep))[x] == multiset(c)[x]
    {
      if !keep(x) {
        assert x !in c;
      }
    }
  }

  /** A filter that keeps no record of a table leaves nothing. */
  lemma FilterKeepsNone<T(!new)>(c: seq<T>, keep: T -> bool)
    requires forall x :: x in c ==> !keep(x)
    ensures multiset(Filter(c, keep)) == multiset{}
  {
    forall x
      ensures multiset(Filter(c, keep))[x] == 0
    {
      if keep(x) {
        assert x !in c;
      }
    }
  }

  /** The listing of professional `p` after the open block at `i` was
      replaced by a booked record and records open for the block's own
      professional were appended. */
  lemma ListingAfterReplace(avails: seq<Availability>, i: nat, booked: Availability,
                            created: seq<Availability>, p: Uuid)
    requires i < |avails| && !avails[i].isBooked && booked.isBooked
    requires forall x :: x in created ==> Open(x, avails[i].professional)
    ensures
      var now := OpenAvailabilities(avails[i := booked] + created, Some(p), None).value;
      var before := OpenAvailabilities(avails, Some(p), None).value;
      if p == avails[i].professional
      then multiset(now) == multiset(before) - multiset{avails[i]} + multiset(created)
      else multiset(now) == multiset(before)
  {
    var keep := (x: Availability) => Open(x, p);
    FilterReplaceAppend(avails, i, booked, created, keep);
    if p == avails[i].professional {
      FilterKeepsAll(created, keep);
    } else {
      FilterKeepsNone(created, keep);
    }
  }

  /** The records a split creates are open blocks of the split block's
      professional, and the block itself ends up booked. */
  lemma AllocationCreatesOpen(a: Availability, start: Time, end: Time, leadingId: Uuid, trailingId: Uuid)
    ensures var alloc := Allocate(a, a.professional, start, end, leadingId, trailingId);
      && alloc.booked.isBooked
      && forall x :: x in alloc.Created() ==> Open(x, a.professional)
  {
  }

  /** After a booking is allocated from the block at position `i`, the
      listing of its professional no longer holds that block and holds every
      remainder the split created; the other professionals' listings are
      unchanged. */
  lemma AllocationUpdatesListing(avails: seq<Availability>, i: nat, start: Time, end: Time,
                                 leadingId: Uuid, trailingId: Uuid, p: Uuid)
    requires i < |avails| && !avails[i].isBooked
    ensures
      var alloc := Allocate(avails[i], avails[i].professional, start, end, leadingId, trailingId);
      var now := OpenAvailabilities(avails[i := alloc.booked] + alloc.Created(), Some(p), None).value;
      var before := OpenAvailabilities(avails, Some(p), None).value;
      if p == avails[i].professional
      then multiset(now) == multiset(before) - multiset{avails[i]} + multiset(alloc.Created())
      else multiset(now) == multiset(before)
  {
    var alloc := Allocate(avails[i], avails[i].professional, start, end, leadingId, trailingId);
    AllocationCreatesOpen(avails[i], start, end, leadingId, trailingId);
    ListingAfterReplace(avails, i, alloc.booked, alloc.Created(), p);
  }

  /** `Meta.ordering` of appointments applies to every listing below. */
  function Newest(s: seq<Appointment>, keep: Appointment -> bool): (r: seq<Appointment>)
    ensures NewestFirst(r)
    ensures forall a :: a in r <==> a in s && keep(a)
    ensures forall a :: a in r ==> multiset(r)[a] == multiset(s)[a]
  {
    var f := Filter(s, keep);
    var sorted := SortNewestFirst(f);
    assert forall a :: a in sorted <==> a in multiset(f);
    sorted
  }

  /** `AdminListAppointmentAPIView` (and the queryset of
      `AdminUpdateAppointmentAPIView`): the requester's own appointments as
      a professional, newest first. */
  function ProfessionalAppointments(appts: seq<Appointment>, own: Option<Uuid>): (r: Result<seq<Appointment>, ViewError>)
    ensures r.Err? <==> own.None?
    ensures r.Err? ==> r.error == NoProfessionalRecord
    ensures r.Ok? ==>
      && NewestFirst(r.value)
      && (forall a :: a in r.value <==> a in appts && a.professional == own.value)
      && (forall a :: a in r.value ==> multiset(r.value)[a] == multiset(appts)[a])
  {
    if own.None? then Err(NoProfessionalRecord)
    else Ok(Newest(appts, (a: Appointment) => a.professional == own.value))
  }

  /** `PatientAppointmentListAPIView` (and the queryset of
      `PatientAppointmentUpdateAPIView`): the requester's own appointments as
      a patient, newest first. */
  function PatientAppointments(appts: seq<Appointment>, own: Option<Uuid>): (r: Result<seq<Appointment>, ViewError>)
    ensures r.Err? <==> own.None?
    ensures r.Err? ==> r.error == NoPatientRecord
    ensures r.Ok? ==>
      && NewestFirst(r.value)
      && (forall a :: a in r.value <==> a in appts && a.patient == own.value)
      && (forall a :: a in r.value ==> multiset(r.value)[a] == multiset(appts)[a])
  {
    if own.None? then Err(NoPatientRecord)
    else Ok(Newest(appts, (a: Appointment) => a.patient == own.value))
  }

  /** The statuses `MedicalProfessionalPatientsListAPIView` lists. */
  predicate ListedStatus(s: Status) {
    s in {Accepted, Completed, Pending, Cancelled}
  }

  /** `MedicalProfessionalPatientsListAPIView`: the requester's appointments
      as a professional in every status but `Active`. */
  function ProfessionalPatients(appts: seq<Appointment>, own: Option<Uuid>): (r: Result<seq<Appointment>, ViewError>)
    ensures r.Err? <==> own.None?
    ensures r.Err? ==> r.error == NoProfessionalRecord
    ensures r.Ok? ==>
      && NewestFirst(r.value)
      && (forall a :: a in r.value <==> a in appts && a.professional == own.value && a.status != Active)
      && (forall a :: a in r.value ==> multiset(r.value)[a] == multiset(appts)[a])
  {
    if own.None? then Err(NoProfessionalRecord)
    else
      assert forall s :: ListedStatus(s) <==> s != Active;
      Ok(Newest(appts, (a: Appointment) => a.professional == own.value && ListedStatus(a.status)))
  }

  /** Both appointment listings of one user show one record only when it is
      an appointment the user takes part in, and one the user had with
      themself shows up in both. */
  lemma ListingsAgree(appts: seq<Appointment>, patient: Uuid, professional: Uuid, a: Appointment)
    requires a in appts && a.patient == patient && a.professional == professional
    ensures a in PatientAppointments(appts, Some(patient)).value
    ensures a in ProfessionalAppointments(appts, Some(professional)).value
    ensures a.status != Active <==> a in ProfessionalPatients(appts, Some(professional)).value
  {
  }

  /** `VisitHistoryListAPIView`: the requester's visit histories as a
      patient, in table order (the model has no `ordering`). */
  function PatientVisits(hs: seq<VisitHistory>, own: Option<Uuid>): (r: Result<seq<VisitHistory>, ViewError>)
    ensures r.Err? <==> own.None?
    ensures r.Err? ==> r.error == NoPatientRecord
    ensures r.Ok? ==>
      && (forall h :: h in r.value <==> h in hs && h.patient == own.value)
      && (forall h :: h in r.value ==> multiset(r.value)[h] == multiset(hs)[h])
  {
    if own.None? then Err(NoPatientRecord)
    else Ok(Filter(hs, (h: VisitHistory) => h.patient == own.value))
  }

  /** `VisitHistoryRetrieveAPIView`: the record with key `pk`, if it is one
      of the requester's; any other key is not found. */
  function RetrieveVisit(hs: seq<VisitHistory>, own: Option<Uuid>, pk: Uuid): (r: Result<VisitHistory, ViewError>)
    ensures own.None? <==> r == Err(NoPatientRecord)
    ensures own.Some? ==> (r == Err(NotFound) <==> forall k :: 0 <= k < |hs| ==> !(hs[k].id == pk && hs[k].patient == own.value))
    ensures r.Ok? ==> r.value in hs && r.value.id == pk && r.value.patient == own.value
  {
    if own.None? then Err(NoPatientRecord)
    else
      var k := FirstByPk(hs, (h: VisitHistory) => h.id, (h: VisitHistory) => h.id == pk && h.patient == own.value);
      if k.None? then Err(NotFound) else Ok(hs[k.value])
  }

  /** A record is retrievable exactly when it is listed. */
  lemma RetrieveMatchesList(hs: seq<VisitHistory>, own: Uuid, pk: Uuid)
    ensures RetrieveVisit(hs, Some(own), pk).Ok? <==>
      exists h :: h in PatientVisits(hs, Some(own)).value && h.id == pk
  {
    var listed := PatientVisits(hs, Some(own)).value;
    if h :| h in listed && h.id == pk {
      var k :| 0 <= k < |hs| && hs[k] == h;
      assert hs[k].id == pk && hs[k].patient == own;
    }
  }

  // ---------------------------------------------------------------------
  // Retrieve, update and delete of one appointment

  /** Whose appointments a `RetrieveUpdateDestroyAPIView` exposes. */
  datatype Scope = OfPatient(patient: Option<Uuid>) | OfProfessional(professional: Option<Uuid>)

  function ScopeError(scope: Scope): ViewError {
    if scope.OfPatient? then NoPatientRecord else NoProfessionalRecord
  }

  predicate InScope(a: Appointment, scope: Scope) {
    match scope
    case OfPatient(p) => p.Some? && a.patient == p.value
    case OfProfessional(p) => p.Some? && a.professional == p.value
  }

  predicate ScopeResolves(scope: Scope) {
    match scope
    case OfPatient(p) => p.Some?
    case OfProfessional(p) => p.Some?
  }

  /** `get_object()`: the position of the appointment with key `pk` in the
      view's queryset. */
  function FindAppointment(appts: seq<Appointment>, scope: Scope, pk: Uuid): (r: Result<nat, ViewError>)
    ensures !ScopeResolves(scope) <==> r == Err(ScopeError(scope))
    ensures ScopeResolves(scope) ==>
      (r == Err(NotFound) <==> forall k :: 0 <= k < |appts| ==> !(appts[k].id == pk && InScope(appts[k], scope)))
    ensures r.Ok? ==> r.value < |appts| && appts[r.value].id == pk && InScope(appts[r.value], scope)
  {
    if !ScopeResolves(scope) then Err(ScopeError(scope))
    else
      var k := FirstByPk(appts, (a: Appointment) => a.id, (a: Appointment) => a.id == pk && InScope(a, scope));
      if k.None? then Err(NotFound) else Ok(k.value)
  }

  /** A `PUT`/`PATCH` on one of the scoped views: look the appointment up in
      the view's queryset, then `validate` and `update`. A failed lookup or a
      rejected request changes nothing. Otherwise the merged appointment is
      saved, and the visit is recorded as `RecordVisit` says; when recording
      conflicts, the saved appointment stays, since nothing is atomic. */
  method UpdateAppointment(db: Clinic, scope: Scope, pk: Uuid, req: Request, historyId: Uuid)
    returns (r: Result<Appointment, ViewError>)
    requires db.Valid() && db.FreshHistoryId(historyId)
    modifies db
    ensures db.Valid()
    ensures db.availabilities == old(db.availabilities)
    ensures db.professionals == old(db.professionals) && db.patients == old(db.patients)
    ensures FindAppointment(old(db.appointments), scope, pk).Err? ==>
      && r == Err(FindAppointment(old(db.appointments), scope, pk).error)
      && db.appointments == old(db.appointments) && db.histories == old(db.histories)
    ensures FindAppointment(old(db.appointments), scope, pk).Ok? &&
            Validate(old(db.professionals), old(db.availabilities), req).Err? ==>
      && r == Err(Rejected(Validate(old(db.professionals), old(db.availabilities), req).error))
      && db.appointments == old(db.appointments) && db.histories == old(db.histories)
    ensures FindAppointment(old(db.appointments), scope, pk).Ok? &&
            Validate(old(db.professionals), old(db.availabilities), req).Ok? ==>
      var i := FindAppointment(old(db.appointments), scope, pk).value;
      var merged := MergeUpdate(old(db.appointments[i]), req);
      && merged.id == pk
      && db.appointments == old(db.appointments)[i := merged]
      && match RecordVisit(old(db.histories), merged, historyId)
         case Ok(hs) => db.histories == hs && r == Ok(merged)
         case Err(e) => db.histories == old(db.histories) && r == Err(Rejected(e))
  {
    var found := FindAppointment(db.appointments, scope, pk);
    if found.Err? {
      return Err(found.error);
    }
    var checked := Validate(db.professionals, db.availabilities, req);
    if checked.Err? {
      return Err(Rejected(checked.error));
    }
    var updated := Update(db, found.value, checked.value, historyId);
    if updated.Err? {
      return Err(Rejected(updated.error));
    }
    r := Ok(updated.value);
  }

  /** A `DELETE` on one of the scoped views. */
  method DestroyAppointment(db: Clinic, scope: Scope, pk: Uuid) returns (r: Result<Uuid, ViewError>)
    requires db.Valid()
    modifies db
    ensures db.Valid()
    ensures db.availabilities == old(db.availabilities)
    ensures db.professionals == old(db.professionals) && db.patients == old(db.patients)
    ensures FindAppointment(old(db.appointments), scope, pk).Err? ==>
      && r == Err(FindAppointment(old(db.appointments), scope, pk).error)
      && db.appointments == old(db.appointments) && db.histories == old(db.histories)
    ensures r.Ok? <==> FindAppointment(old(db.appointments), scope, pk).Ok?
    ensures r.Ok? ==>
      var i := FindAppointment(old(db.appointments), scope, pk).value;
      && FindAppointment(old(db.appointments), scope, pk).Ok?
      && r.value == pk
      && db.appointments == old(db.appointments[..i] + db.appointments[i + 1..])
      && db.histories == Unlinked(old(db.histories), {pk})
  {
    var found := FindAppointment(db.appointments, scope, pk);
    if found.Err? {
      return Err(found.error);
    }
    db.DeleteAppointment(found.value);
    r := Ok(pk);
  }

  // ---------------------------------------------------------------------
  // The doctor's visit-history view

  /** `VisitHistory.objects.filter(medical_professional=doctor,
      appointment=key).first()`; a missing `appointment_id` parameter filters
      for histories with no appointment. */
  function AdminVisitLookup(hs: seq<VisitHistory>, doctor: Option<Uuid>, key: Option<Uuid>): (r: Result<Option<nat>, ViewError>)
    ensures doctor.None? <==> r == Err(NoProfessionalRecord)
    ensures r.Ok? ==>
      (r.value.None? <==> forall k :: 0 <= k < |hs| ==> !(hs[k].professional == doctor.value && hs[k].appointment == key))
    ensures r.Ok? && r.value.Some? ==>
      var j := r.value.value;
      && j < |hs| && hs[j].professional == doctor.value && hs[j].appointment == key
      && forall k :: 0 <= k < |hs| && hs[k].professional == doctor.value && hs[k].appointment == key ==> hs[j].id <= hs[k].id
  {
    if doctor.None? then Err(NoProfessionalRecord)
    else Ok(FirstByPk(hs, (h: VisitHistory) => h.id,
                      (h: VisitHistory) => h.professional == doctor.value && h.appointment == key))
  }

  /** The body of a `PUT` to the doctor's view. `patient` and
      `medical_professional` are required; the other columns may be left out. */
  datatype VisitForm = VisitForm(
    patient: Field<Uuid>,
    professional: Field<Uuid>,
    visitDate: Field<Option<int>>,
    reasonForVisit: Field<Option<string>>,
    treatmentsReceived: Field<Option<string>>,
    physicianNotes: Field<Option<string>>)

  /** `is_valid()` of the form: required fields present, keys that exist. */
  function CheckVisitForm(patients: set<Uuid>, professionals: set<Uuid>, form: VisitForm): (r: Option<ViewError>)
    ensures r.None? <==> form.patient.Given? && form.professional.Given?
                         && form.patient.value in patients && form.professional.value in professionals
  {
    if form.patient.Absent? || form.professional.Absent? then Some(MissingField)
    else if form.patient.value !in patients then Some(UnknownPatient)
    else if form.professional.value !in professionals then Some(UnknownProfessional)
    else None
  }

  /** `serializer.save()` on an existing record: every given field is
      written, every other column and the appointment link are kept. */
  function ApplyVisitForm(h: VisitHistory, form: VisitForm): (r: VisitHistory)
    requires form.patient.Given? && form.professional.Given?
    ensures r.id == h.id && r.appointment == h.appointment
    ensures r.patient == form.patient.value && r.professional == form.professional.value
    ensures r.visitDate == form.visitDate.GetOr(h.visitDate)
    ensures r.reasonForVisit == form.reasonForVisit.GetOr(h.reasonForVisit)
    ensures r.treatmentsReceived == form.treatmentsReceived.GetOr(h.treatmentsReceived)
    ensures r.physicianNotes == form.physicianNotes.GetOr(h.physicianNotes)
  {
    h.(patient := form.patient.value, professional := form.professional.value,
       visitDate := form.visitDate.GetOr(h.visitDate),
       reasonForVisit := form.reasonForVisit.GetOr(h.reasonForVisit),
       treatmentsReceived := form.treatmentsReceived.GetOr(h.treatmentsReceived),
       physicianNotes := form.physicianNotes.GetOr(h.physicianNotes))
  }

  /** `serializer.save()` with no record: a new history with no appointment
      link, the given columns and null elsewhere. */
  function VisitFromForm(id: Uuid, form: VisitForm): (r: VisitHistory)
    requires form.patient.Given? && form.professional.Given?
    ensures r.id == id && r.appointment.None?
    ensures r.patient == form.patient.value && r.professional == form.professional.value
    ensures r.visitDate == form.visitDate.GetOr(None)
    ensures r.reasonForVisit == form.reasonForVisit.GetOr(None)
    ensures r.treatmentsReceived == form.treatmentsReceived.GetOr(None)
    ensures r.physicianNotes == form.physicianNotes.GetOr(None)
  {
    ApplyVisitForm(VisitHistory(id, None, form.patient.value, form.professional.value, None, None, None, None), form)
  }

  /** Saving a form on an existing record and then saving it again changes
      nothing more. */
  lemma ApplyVisitFormIdempotent(h: VisitHistory, form: VisitForm)
    requires form.patient.Given? && form.professional.Given?
    ensures ApplyVisitForm(ApplyVisitForm(h, form), form) == ApplyVisitForm(h, form)
  {
  }

  /** `AdminVisitHistoryView.put`: the record the lookup finds is updated
      from the form; when none is found a new one is created from it. */
  method AdminPutVisit(db: Clinic, doctor: Option<Uuid>, key: Option<Uuid>, form: VisitForm, newId: Uuid)
    returns (r: Result<VisitHistory, ViewError>)
    requires db.Valid() && db.FreshHistoryId(newId)
    modifies db`histories
    ensures db.Valid()
    ensures doctor.None? ==> r == Err(NoProfessionalRecord)
    ensures doctor.Some? && CheckVisitForm(db.patients, db.professionals, form).Some? ==>
      r == Err(CheckVisitForm(db.patients, db.professionals, form).value)
    ensures r.Err? ==> db.histories == old(db.histories)
    ensures r.Ok? <==> doctor.Some? && CheckVisitForm(db.patients, db.professionals, form).None?
    ensures r.Ok? ==>
      var found := AdminVisitLookup(old(db.histories), doctor, key);
      && found.Ok? && CheckVisitForm(db.patients, db.professionals, form).None?
      && (found.value.Some? ==>
            var j := found.value.value;
            && r.value == ApplyVisitForm(old(db.histories[j]), form)
            && db.histories == old(db.histories)[j := r.value])
      && (found.value.None? ==>
            && r.value == VisitFromForm(newId, form)
            && db.histories == old(db.histories) + [r.value])
  {
    var found := AdminVisitLookup(db.histories, doctor, key);
    if found.Err? {
      return Err(found.error);
    }
    var invalid := CheckVisitForm(db.patients, db.professionals, form);
    if invalid.Some? {
      return Err(invalid.value);
    }
    if found.value.Some? {
      var j := found.value.value;
      var vh := ApplyVisitForm(db.histories[j], form);
      assert forall k :: 0 <= k < |db.histories| ==> db.histories[j := vh][k].appointment == db.histories[k].appointment;
      db.histories := db.histories[j := vh];
      r := Ok(vh);
    } else {
      var vh := VisitFromForm(newId, form);
      assert forall k :: 0 <= k < |db.histories| ==> (db.histories + [vh])[k] == db.histories[k];
      db.histories := db.histories + [vh];
      r := Ok(vh);
    }
  }
}

/** The appointment lifecycle of `appointmentController.js`: booking with the
    lazily created patient record and the role promotion, cancelling,
    rescheduling, status updates, deletion, the booked-slot query and the
    search. Each operation is a pure transition on `DbState` (the reference
    the lemmas talk about) and a method that performs the same steps in place
    on a `Db`. */
module AppointmentController {
  import opened Common
  import opened Text
  import opened ChangeCase
  import opened DateHelper
  import opened AppointmentModel
  import opened PatientModel
  import opened UserModel
  import opened Store
  import opened Pagination
  import opened PatientResource

  // ---------------------------------------------------------------------
  // createAppointment

  /** The body of a booking request; `None` is a missing field. */
  datatype CreateRequest = CreateRequest(
    patientId: Option<UserId>,
    doctorId: Option<UserId>,
    date: Option<Instant>,
    time: Option<string>,
    reason: Option<string>,
    notes: Option<string>)

  /** The patient-role promotion: a user whose only role is `user` becomes a
      `patient` only; anyone else gains `patient` unless they already have it. */
  function PromoteRoles(roles: seq<RoleId>, patientRole: RoleId, userRole: Option<RoleId>): (r: seq<RoleId>)
    ensures patientRole in r
    ensures userRole.Some? && roles == [userRole.value] ==> r == [patientRole]
    ensures !(userRole.Some? && roles == [userRole.value]) ==>
              (forall x :: x != patientRole ==> multiset(r)[x] == multiset(roles)[x])
    ensures multiset(r)[patientRole] == if patientRole in roles then multiset(roles)[patientRole] else 1
  {
    if userRole.Some? && |roles| == 1 && userRole.value in roles then
      assert roles == [userRole.value];
      [patientRole]
    else if patientRole !in roles then roles + [patientRole]
    else roles
  }

  /** Promoting twice is promoting once. */
  lemma PromoteRolesIdempotent(roles: seq<RoleId>, patientRole: RoleId, userRole: Option<RoleId>)
    requires userRole.Some? ==> userRole.value != patientRole
    ensures PromoteRoles(PromoteRoles(roles, patientRole, userRole), patientRole, userRole)
            == PromoteRoles(roles, patientRole, userRole)
  {
  }

  /** Lines 238-253: the patient record created for a user who has none. */
  function EnsurePatientRecord(st: DbState, userId: UserId, now: Instant): (st': DbState)
    ensures st'.users == st.users && st'.roles == st.roles && st'.appointments == st.appointments
    ensures FindPatientOf(st.patients, Some(userId)).Some? ==> st' == st
    ensures FindPatientOf(st.patients, Some(userId)).None? ==>
              st'.nextId == st.nextId + 1 && |st'.patients| == |st.patients| + 1
              && st'.patients[..|st.patients|] == st.patients
              && NewRecordFor(st'.patients[|st.patients|], userId, st.nextId, now)
  {
    if FindPatientOf(st.patients, Some(userId)).Some? then st
    else
      FirstVisitRecordValid(userId, st.nextId, now);
      var p := PatientModel.Validate(FirstVisitFields(userId), st.nextId, now).value;
      assert (st.patients + [p])[..|st.patients|] == st.patients;
      st.(patients := st.patients + [p], nextId := st.nextId + 1)
  }

  /** The record a first booking creates: the given id and user, empty
      history lists, notes `''`, no next appointment. */
  predicate NewRecordFor(p: PatientRecord, userId: UserId, id: PatientId, now: Instant) {
    p.id == id && p.userId == userId && p.medicalHistory == [] && p.visitHistory == []
    && p.notes == Some("") && p.nextAppointment.None? && p.appointments == []
    && p.createdAt == now && p.updatedAt == now
  }

  /** Lines 274-285: promote the roles of user `i` and save the user; `None`
      when the save is rejected. Without a `patient` role nothing is saved. */
  function PromotePatient(st: DbState, i: nat, now: Instant): (r: Option<DbState>)
    requires i < |st.users|
    ensures r.Some? ==> r.value.roles == st.roles && r.value.patients == st.patients
                        && r.value.appointments == st.appointments && r.value.nextId == st.nextId
                        && |r.value.users| == |st.users|
                        && (forall j :: 0 <= j < |st.users| && j != i ==> r.value.users[j] == st.users[j])
                        && r.value.users[i].id == st.users[i].id
    ensures FindRole(st.roles, PatientRoleName).None? ==> r == Some(st)
    ensures FindRole(st.roles, PatientRoleName).Some? ==>
              (r.Some? <==> UserModel.FailingPaths(st.users[i]) == {})
  {
    var patientRole := FindRole(st.roles, PatientRoleName);
    if patientRole.None? then Some(st)
    else
      var userRole := FindRole(st.roles, UserRoleName);
      var u := st.users[i];
      var roles := PromoteRoles(u.roles, patientRole.value.id, if userRole.None? then None else Some(userRole.value.id));
      SaveIgnoresRoles(u, roles, u.updatedAt);
      var saved := UserModel.Save(u.(roles := roles), now);
      if saved.Invalid? then None else Some(st.(users := st.users[i := saved.value]))
  }

  /** Lines 287-295: the new appointment document, reason and notes sentence-cased. */
  function NewAppointmentFields(req: CreateRequest): AppointmentFields {
    AppointmentFields(req.patientId, req.doctorId, req.date, req.time,
                      SentenceCase(req.reason), Some("scheduled"), SentenceCase(req.notes))
  }

  /** `createAppointment` as a transition. The checks run in source order:
      patient, doctor, lazy patient record, conflicting booking, role save,
      appointment save. */
  function Create(st: DbState, req: CreateRequest, now: Instant): Outcome<Appointment> {
    var pi := FindUser(st.users, req.patientId);
    if pi.None? then Outcome(NotFound(PatientEntity), st)
    else if FindUser(st.users, req.doctorId).None? then Outcome(NotFound(DoctorEntity), st)
    else Book(EnsurePatientRecord(st, req.patientId.value, now), pi.value, req, now)
  }

  /** The part of `createAppointment` after the patient record exists, for
      the requesting user at position `i`: the conflict check, the role save
      and the appointment save. */
  function Book(st1: DbState, i: nat, req: CreateRequest, now: Instant): Outcome<Appointment>
    requires i < |st1.users| && req.patientId.Some? && req.doctorId.Some?
  {
    var existing := FindScheduled(st1.appointments, req.patientId.value, req.doctorId.value);
    if existing.Some? then Outcome(Conflict(st1.appointments[existing.value]), st1)
    else
      var st2 := PromotePatient(st1, i, now);
      if st2.None? then Outcome(Internal, st1)
      else
        var v := AppointmentModel.Validate(NewAppointmentFields(req), st2.value.nextId, now);
        if v.Invalid? then Outcome(Internal, st2.value)
        else Outcome(Ok(v.value), st2.value.(appointments := st2.value.appointments + [v.value],
                                             nextId := st2.value.nextId + 1))
  }

  /** Lines 238-253 on the store: create the patient record if the user has none. */
  method EnsurePatientRecordIn(db: Db, userId: UserId, now: Instant)
    modifies db
    ensures db.State() == EnsurePatientRecord(old(db.State()), userId, now)
  {
    if FindPatientOf(db.patients, Some(userId)).None? {
      FirstVisitRecordValid(userId, db.nextId, now);
      var record := PatientModel.Validate(FirstVisitFields(userId), db.nextId, now).value;
      db.patients := db.patients + [record];
      db.nextId := db.nextId + 1;
    }
  }

  /** Lines 274-285 on the store: promote and save user `i`; `false` when the
      save is rejected, in which case nothing is written. */
  method PromotePatientIn(db: Db, i: nat, now: Instant) returns (saved: bool)
    requires i < |db.users|
    modifies db
    ensures var r := PromotePatient(old(db.State()), i, now);
            saved == r.Some? && (saved ==> db.State() == r.value) && (!saved ==> db.State() == old(db.State()))
  {
    var patientRole := FindRole(db.roles, PatientRoleName);
    if patientRole.None? {
      return true;
    }
    var userRole := FindRole(db.roles, UserRoleName);
    var user := db.users[i];
    var roles := user.roles;
    if userRole.Some? && |roles| == 1 && userRole.value.id in roles {
      roles := [patientRole.value.id];
    } else if patientRole.value.id !in roles {
      roles := roles + [patientRole.value.id];
    }
    var v := UserModel.Save(user.(roles := roles), now);
    if v.Invalid? {
      return false;
    }
    db.users := db.users[i := v.value];
    saved := true;
  }

  /** `createAppointment` on the store, step by step. */
  method CreateAppointment(db: Db, req: CreateRequest, now: Instant) returns (r: Response<Appointment>)
    modifies db
    ensures Outcome(r, db.State()) == Create(old(db.State()), req, now)
  {
    var pi := FindUser(db.users, req.patientId);
    if pi.None? {
      return NotFound(PatientEntity);
    }
    if FindUser(db.users, req.doctorId).None? {
      return NotFound(DoctorEntity);
    }
    EnsurePatientRecordIn(db, req.patientId.value, now);
    var existing := FindScheduled(db.appointments, req.patientId.value, req.doctorId.value);
    if existing.Some? {
      return Conflict(db.appointments[existing.value]);
    }
    var saved := PromotePatientIn(db, pi.value, now);
    if !saved {
      return Internal;
    }
    var v := AppointmentModel.Validate(NewAppointmentFields(req), db.nextId, now);
    if v.Invalid? {
      return Internal;
    }
    db.appointments := db.appointments + [v.value];
    db.nextId := db.nextId + 1;
    r := Ok(v.value);
  }

  /** Both lookups happen before any write: a missing patient, or else a
      missing doctor, is a 404 that leaves the store as it was. */
  lemma CreateChecksUsersFirst(st: DbState, req: CreateRequest, now: Instant)
    ensures FindUser(st.users, req.patientId).None? ==> Create(st, req, now) == Outcome(NotFound(PatientEntity), st)
    ensures FindUser(st.users, req.patientId).Some? && FindUser(st.users, req.doctorId).None?
            ==> Create(st, req, now) == Outcome(NotFound(DoctorEntity), st)
  {
  }

  /** Once both users exist, a user without a patient record gets exactly one,
      with the first-visit defaults, whatever the response (409 and 500 included). */
  lemma CreateMakesPatientRecord(st: DbState, req: CreateRequest, now: Instant)
    requires FindUser(st.users, req.patientId).Some? && FindUser(st.users, req.doctorId).Some?
    requires FindPatientOf(st.patients, req.patientId).None?
    ensures var out := Create(st, req, now).state;
            |out.patients| == |st.patients| + 1 && out.patients[..|st.patients|] == st.patients
            && NewRecordFor(out.patients[|st.patients|], req.patientId.value, st.nextId, now)
  {
  }

  /** A scheduled appointment for the same patient and doctor is a 409 that
      carries the first such appointment; nothing is booked and no role changes. */
  lemma CreateConflict(st: DbState, req: CreateRequest, now: Instant, k: nat)
    requires FindUser(st.users, req.patientId).Some? && FindUser(st.users, req.doctorId).Some?
    requires FindScheduled(st.appointments, req.patientId.value, req.doctorId.value) == Some(k)
    ensures var out := Create(st, req, now);
            out.response == Conflict(st.appointments[k])
            && out.state.appointments == st.appointments && out.state.users == st.users
  {
  }

  /** Appointments that are completed or cancelled never block a booking. */
  lemma ClosedAppointmentsDoNotBlock(st: DbState, req: CreateRequest, now: Instant)
    requires req.patientId.Some? && req.doctorId.Some?
    requires forall j :: 0 <= j < |st.appointments| && st.appointments[j].patientId == req.patientId.value
                         && st.appointments[j].doctorId == req.doctorId.value
                         ==> st.appointments[j].status != Scheduled
    ensures !Create(st, req, now).response.Conflict?
  {
  }

  /** A successful booking appends exactly one new appointment: scheduled, with
      the requested ids, date and time, sentence-cased reason and notes, and
      an id not used before; the requesting user now has the patient role. */
  lemma CreateSuccess(st: DbState, req: CreateRequest, now: Instant)
    requires Consistent(st)
    requires Create(st, req, now).response.Ok?
    ensures var out := Create(st, req, now);
            var a := out.response.value;
            out.state.appointments == st.appointments + [a]
            && a.status == Scheduled && Some(a.patientId) == req.patientId && Some(a.doctorId) == req.doctorId
            && Some(a.date) == req.date && Some(a.time) == req.time
            && Some(a.reason) == SentenceCase(req.reason) && a.notes == SentenceCase(req.notes)
            && (forall j :: 0 <= j < |st.appointments| ==> st.appointments[j].id != a.id)
            && (FindRole(st.roles, PatientRoleName).Some? ==>
                  var i := FindUser(st.users, req.patientId).value;
                  FindRole(st.roles, PatientRoleName).value.id in out.state.users[i].roles)
  {
  }

  /** Lines 217-328 as written. helper/dateHelper.js exports no
      `formatOnlyDate` (its exports at line 54 are `formatDate` and
      `calculateAge`), so the conflict message at line 266 and the projection
      at line 308 call `undefined` and throw: a conflict and a success both
      answer 500, after every write `Create` makes. */
  function CreateAsWritten(st: DbState, req: CreateRequest, now: Instant): Outcome<Appointment> {
    var o := Create(st, req, now);
    Outcome(if o.response.NotFound? then o.response else Internal, o.state)
  }

  /** As written, a booking never answers 201 or 409: once both users exist
      the answer is a 500, while the store changes exactly as in `Create`,
      the new appointment included. */
  lemma CreateAsWrittenNeverAnswers(st: DbState, req: CreateRequest, now: Instant)
    ensures !CreateAsWritten(st, req, now).response.Ok? && !CreateAsWritten(st, req, now).response.Conflict?
    ensures CreateAsWritten(st, req, now).state == Create(st, req, now).state
    ensures FindUser(st.users, req.patientId).Some? && FindUser(st.users, req.doctorId).Some? ==>
              CreateAsWritten(st, req, now).response == Internal
    ensures Create(st, req, now).response.Ok? ==>
              Create(st, req, now).response.value in CreateAsWritten(st, req, now).state.appointments
  {
    if FindUser(st.users, req.patientId).Some? && FindUser(st.users, req.doctorId).Some? {
      var pi := FindUser(st.users, req.patientId).value;
      var st1 := EnsurePatientRecord(st, req.patientId.value, now);
      assert Create(st, req, now) == Book(st1, pi, req, now);
    }
  }

  // ---------------------------------------------------------------------
  // Invariants

  /** At most one scheduled appointment per (patient, doctor) pair. */
  predicate UniqueScheduled(appts: seq<Appointment>) {
    forall i, j :: 0 <= i < j < |appts| && BlocksBooking(appts[i], appts[j].patientId, appts[j].doctorId)
                   ==> appts[j].status != Scheduled
  }

  /** Creating the patient record keeps the store consistent. */
  lemma EnsurePatientRecordConsistent(st: DbState, userId: UserId, now: Instant)
    requires Consistent(st)
    ensures Consistent(EnsurePatientRecord(st, userId, now))
  {
  }

  /** Saving a promoted user keeps the store consistent. */
  lemma PromotePatientConsistent(st: DbState, i: nat, now: Instant)
    requires Consistent(st) && i < |st.users|
    requires PromotePatient(st, i, now).Some?
    ensures Consistent(PromotePatient(st, i, now).value)
  {
    var st' := PromotePatient(st, i, now).value;
    assert forall j :: 0 <= j < |st.users| ==> st'.users[j].id == st.users[j].id;
  }

  /** Appending a well-formed appointment with the next id keeps the store consistent. */
  lemma AppendAppointment(st: DbState, a: Appointment)
    requires Consistent(st) && WellFormed(a) && a.id == st.nextId
    ensures Consistent(st.(appointments := st.appointments + [a], nextId := st.nextId + 1))
  {
  }

  /** Booking keeps ids unique and every appointment valid. */
  lemma CreatePreservesConsistent(st: DbState, req: CreateRequest, now: Instant)
    requires Consistent(st)
    ensures Consistent(Create(st, req, now).state)
  {
    var pi := FindUser(st.users, req.patientId);
    if pi.Some? && FindUser(st.users, req.doctorId).Some? {
      var st1 := EnsurePatientRecord(st, req.patientId.value, now);
      EnsurePatientRecordConsistent(st, req.patientId.value, now);
      BookPreservesConsistent(st1, pi.value, req, now);
    }
  }

  lemma BookPreservesConsistent(st1: DbState, i: nat, req: CreateRequest, now: Instant)
    requires i < |st1.users| && req.patientId.Some? && req.doctorId.Some?
    requires Consistent(st1)
    ensures Consistent(Book(st1, i, req, now).state)
  {
    var existing := FindScheduled(st1.appointments, req.patientId.value, req.doctorId.value);
    if existing.None? {
      var st2 := PromotePatient(st1, i, now);
      if st2.Some? {
        PromotePatientConsistent(st1, i, now);
        var v := AppointmentModel.Validate(NewAppointmentFields(req), st2.value.nextId, now);
        if v.Valid? {
          AppendAppointment(st2.value, v.value);
        }
      }
    }
  }

  /** Booking never creates a second scheduled appointment for a pair. */
  lemma CreatePreservesUniqueScheduled(st: DbState, req: CreateRequest, now: Instant)
    requires UniqueScheduled(st.appointments)
    ensures UniqueScheduled(Create(st, req, now).state.appointments)
  {
    var out := Create(st, req, now);
    if out.response.Ok? {
      var a := out.response.value;
      var appts := out.state.appointments;
      assert appts == st.appointments + [a];
      forall i, j | 0 <= i < j < |appts| && BlocksBooking(appts[i], appts[j].patientId, appts[j].doctorId)
        ensures appts[j].status != Scheduled
      {
      }
    }
  }

  // ---------------------------------------------------------------------
  // cancelScheduleAppointment

  /** What `save()` stores for a loaded document `before` whose paths were
      assigned to give `after`: with the schema's `timestamps`, `updatedAt`
      moves to the save time only when some path actually changed. */
  function SaveLoaded(before: Appointment, after: Appointment, now: Instant): Appointment {
    if after == before then before else after.(updatedAt := now)
  }

  /** `cancelScheduleAppointment` as a transition: the appointment's status
      becomes cancelled whatever it was, and the document is saved. */
  function Cancel(st: DbState, id: Option<AppointmentId>, now: Instant): Outcome<Appointment> {
    var i := FindAppointment(st.appointments, id);
    if i.None? then Outcome(NotFound(AppointmentEntity), st)
    else
      var a := st.appointments[i.value].(status := Cancelled);
      if !WellFormed(a) then Outcome(Internal, st)
      else
        var saved := SaveLoaded(st.appointments[i.value], a, now);
        Outcome(Ok(saved), st.(appointments := st.appointments[i.value := saved]))
  }

  method CancelScheduleAppointment(db: Db, id: Option<AppointmentId>, now: Instant) returns (r: Response<Appointment>)
    modifies db
    ensures Outcome(r, db.State()) == Cancel(old(db.State()), id, now)
  {
    var i := FindAppointment(db.appointments, id);
    if i.None? {
      return NotFound(AppointmentEntity);
    }
    var loaded := db.appointments[i.value];
    var appointment := loaded.(status := Cancelled);
    if !WellFormed(appointment) {
      return Internal;
    }
    if appointment != loaded {
      appointment := appointment.(updatedAt := now);
    }
    db.appointments := db.appointments[i.value := appointment];
    r := Ok(appointment);
  }

  /** An unknown id is a 404; a known one ends cancelled, with `updatedAt` set
      to now unless it was cancelled already, and with every other field and
      every other appointment unchanged. */
  lemma CancelEffect(st: DbState, id: Option<AppointmentId>, now: Instant)
    requires Consistent(st)
    ensures FindAppointment(st.appointments, id).None? ==> Cancel(st, id, now) == Outcome(NotFound(AppointmentEntity), st)
    ensures FindAppointment(st.appointments, id).Some? ==>
              var i := FindAppointment(st.appointments, id).value;
              var a := st.appointments[i];
              var b := if a.status == Cancelled then a else a.(status := Cancelled, updatedAt := now);
              var out := Cancel(st, id, now);
              out.response == Ok(b)
              && |out.state.appointments| == |st.appointments|
              && out.state.appointments[i] == b
              && (forall j :: 0 <= j < |st.appointments| && j != i ==> out.state.appointments[j] == st.appointments[j])
              && out.state.(appointments := st.appointments) == st
  {
  }

  /** Cancelling twice is cancelling once, even at a later instant. */
  lemma CancelIdempotent(st: DbState, id: Option<AppointmentId>, now: Instant, later: Instant)
    requires Consistent(st)
    ensures Cancel(Cancel(st, id, now).state, id, later) == Cancel(st, id, now)
  {
    var out := Cancel(st, id, now);
    var i := FindAppointment(st.appointments, id);
    if i.Some? {
      assert out.state.appointments[i.value].id == st.appointments[i.value].id;
      var k := FindAppointment(out.state.appointments, id);
      assert out.state.appointments[i.value].status == Cancelled;
      assert k == Some(i.value);
      assert out.state.appointments[i.value := out.response.value] == out.state.appointments;
    }
  }

  /** Lines 356-389 as written: the save at line 371 happens, then the
      projection at line 379 calls the undefined `formatOnlyDate`, so a
      cancel answers 500 after the write. */
  function CancelAsWritten(st: DbState, id: Option<AppointmentId>, now: Instant): Outcome<Appointment> {
    var o := Cancel(st, id, now);
    Outcome(if o.response.Ok? then Internal else o.response, o.state)
  }

  /** As written, a cancel never answers 200: a stored appointment is
      cancelled in the store and the answer is a 500. */
  lemma CancelAsWrittenFails(st: DbState, id: Option<AppointmentId>, now: Instant)
    requires Consistent(st)
    ensures !CancelAsWritten(st, id, now).response.Ok?
    ensures CancelAsWritten(st, id, now).state == Cancel(st, id, now).state
    ensures FindAppointment(st.appointments, id).Some? ==>
              var i := FindAppointment(st.appointments, id).value;
              CancelAsWritten(st, id, now).response == Internal
              && CancelAsWritten(st, id, now).state.appointments[i].status == Cancelled
  {
    CancelEffect(st, id, now);
  }

  lemma CancelPreservesConsistent(st: DbState, id: Option<AppointmentId>, now: Instant)
    requires Consistent(st)
    ensures Consistent(Cancel(st, id, now).state)
  {
  }

  lemma CancelPreservesUniqueScheduled(st: DbState, id: Option<AppointmentId>, now: Instant)
    requires UniqueScheduled(st.appointments)
    ensures UniqueScheduled(Cancel(st, id, now).state.appointments)
  {
  }

  // ---------------------------------------------------------------------
  // rescheduleAppointment

  datatype RescheduleRequest = RescheduleRequest(
    appointmentId: Option<AppointmentId>,
    date: Option<Instant>,
    time: Option<string>,
    doctorId: Option<UserId>,
    reason: Option<string>)

  /** `rescheduleAppointment` as a transition: date, time, doctor and reason
      are overwritten with what the request holds (missing values included),
      the status is forced to scheduled and the document is saved, which
      validates it and refreshes `updatedAt` when something changed. No
      conflicting booking is looked for. */
  function Reschedule(st: DbState, req: RescheduleRequest, now: Instant): Outcome<Appointment> {
    var i := FindAppointment(st.appointments, req.appointmentId);
    if i.None? then Outcome(NotFound(AppointmentEntity), st)
    else if req.doctorId.Some? && FindUser(st.users, req.doctorId).None? then Outcome(NotFound(DoctorEntity), st)
    else
      var a := st.appointments[i.value];
      var f := FieldsOf(a).(date := req.date, time := req.time, doctorId := req.doctorId,
                            reason := SentenceCase(req.reason), status := Some("scheduled"));
      var v := AppointmentModel.Validate(f, a.id, a.createdAt);
      if v.Invalid? then Outcome(Internal, st)
      else
        var b := SaveLoaded(a, v.value.(updatedAt := a.updatedAt), now);
        Outcome(Ok(b), st.(appointments := st.appointments[i.value := b]))
  }

  method RescheduleAppointment(db: Db, req: RescheduleRequest, now: Instant) returns (r: Response<Appointment>)
    modifies db
    ensures Outcome(r, db.State()) == Reschedule(old(db.State()), req, now)
  {
    var i := FindAppointment(db.appointments, req.appointmentId);
    if i.None? {
      return NotFound(AppointmentEntity);
    }
    if req.doctorId.Some? && FindUser(db.users, req.doctorId).None? {
      return NotFound(DoctorEntity);
    }
    var appointment := db.appointments[i.value];
    var fields := FieldsOf(appointment);
    fields := fields.(date := req.date);
    fields := fields.(time := req.time);
    fields := fields.(doctorId := req.doctorId);
    fields := fields.(reason := SentenceCase(req.reason));
    fields := fields.(status := Some("scheduled"));
    var v := AppointmentModel.Validate(fields, appointment.id, appointment.createdAt);
    if v.Invalid? {
      return Internal;
    }
    var saved := v.value.(updatedAt := appointment.updatedAt);
    if saved != appointment {
      saved := saved.(updatedAt := now);
    }
    db.appointments := db.appointments[i.value := saved];
    r := Ok(saved);
  }

  /** An unknown appointment, then a given but unknown doctor, is a 404 that
      changes nothing; the reschedule succeeds exactly when the appointment
      and the doctor exist, a date and a non-empty time are given and the
      reason is truthy. A success overwrites exactly date, time, doctor and
      reason, makes the appointment scheduled again, and moves `updatedAt`
      to now when any of these changed. */
  lemma RescheduleOverwrites(st: DbState, req: RescheduleRequest, now: Instant)
    ensures FindAppointment(st.appointments, req.appointmentId).None? ==>
              Reschedule(st, req, now) == Outcome(NotFound(AppointmentEntity), st)
    ensures FindAppointment(st.appointments, req.appointmentId).Some? && req.doctorId.Some?
            && FindUser(st.users, req.doctorId).None? ==>
              Reschedule(st, req, now) == Outcome(NotFound(DoctorEntity), st)
    ensures Reschedule(st, req, now).response.Ok? <==>
              FindAppointment(st.appointments, req.appointmentId).Some?
              && req.doctorId.Some? && FindUser(st.users, req.doctorId).Some?
              && req.date.Some? && RequiredString(req.time) && Truthy(req.reason)
    ensures Reschedule(st, req, now).response.Ok? ==>
            var i := FindAppointment(st.appointments, req.appointmentId).value;
            var a := st.appointments[i];
            var b := a.(date := req.date.value, time := req.time.value, doctorId := req.doctorId.value,
                        reason := SentenceCase(req.reason).value, status := Scheduled);
            var out := Reschedule(st, req, now);
            out.response.value == (if b == a then a else b.(updatedAt := now))
            && out.state.appointments == st.appointments[i := out.response.value]
            && out.state.(appointments := st.appointments) == st
  {
    var i := FindAppointment(st.appointments, req.appointmentId);
    if i.Some? {
      StatusRoundTrip(Scheduled, st.appointments[i.value].status);
    }
  }

  /** Lines 391-436 as written: the save at line 416 happens, then the
      projection at line 426 calls the undefined `formatOnlyDate`, so a
      reschedule that passes the checks answers 500 after the write. */
  function RescheduleAsWritten(st: DbState, req: RescheduleRequest, now: Instant): Outcome<Appointment> {
    var o := Reschedule(st, req, now);
    Outcome(if o.response.Ok? then Internal else o.response, o.state)
  }

  /** As written, a reschedule never answers 200; where `Reschedule`
      succeeds, the answer is a 500 and the new date is stored. */
  lemma RescheduleAsWrittenFails(st: DbState, req: RescheduleRequest, now: Instant)
    ensures !RescheduleAsWritten(st, req, now).response.Ok?
    ensures RescheduleAsWritten(st, req, now).state == Reschedule(st, req, now).state
    ensures Reschedule(st, req, now).response.Ok? ==>
              var i := FindAppointment(st.appointments, req.appointmentId).value;
              RescheduleAsWritten(st, req, now).response == Internal
              && RescheduleAsWritten(st, req, now).state.appointments[i].date == req.date.value
  {
    RescheduleOverwrites(st, req, now);
  }

  /** Leaving out the doctor does not keep the old one: the required doctor
      path is emptied, the save is rejected and nothing changes. */
  lemma RescheduleWithoutDoctorFails(st: DbState, req: RescheduleRequest, now: Instant)
    requires FindAppointment(st.appointments, req.appointmentId).Some? && req.doctorId.None?
    ensures Reschedule(st, req, now) == Outcome(Internal, st)
  {
  }

  /** Rescheduling does not check for conflicts: two bookings for one pair,
      one cancelled, both end up scheduled. */
  lemma RescheduleCanDoubleBook()
    ensures var a := Appointment(1, 7, 8, 100, "10:00", "Fever", Scheduled, None, 0, 0);
            var b := Appointment(2, 7, 8, 200, "11:00", "Cough", Cancelled, None, 0, 0);
            var doctor := User(8, Some("Dr A"), None, Some("f"), Some("1"), Some("a@b.in"), None,
                               Some("password"), None, 0, 0, [], []);
            var st := DbState([doctor], [], [], [a, b], [], 3);
            var out := Reschedule(st, RescheduleRequest(Some(2), Some(300), Some("12:00"), Some(8), Some("cough")), 400);
            UniqueScheduled(st.appointments) && out.response.Ok? && !UniqueScheduled(out.state.appointments)
  {
    var a := Appointment(1, 7, 8, 100, "10:00", "Fever", Scheduled, None, 0, 0);
    var b := Appointment(2, 7, 8, 200, "11:00", "Cough", Cancelled, None, 0, 0);
    var doctor := User(8, Some("Dr A"), None, Some("f"), Some("1"), Some("a@b.in"), None,
                       Some("password"), None, 0, 0, [], []);
    var st := DbState([doctor], [], [], [a, b], [], 3);
    var req := RescheduleRequest(Some(2), Some(300), Some("12:00"), Some(8), Some("cough"));
    assert st.appointments[1].id == 2 && st.appointments[0].id != 2;
    assert st.users[0].id == 8;
    assert SentenceCase(Some("cough")).Some?;
    var out := Reschedule(st, req, 400);
    assert out.state.appointments[0] == a;
    assert out.state.appointments[1].status == Scheduled;
  }

  // ---------------------------------------------------------------------
  // updateAppointmentStatus

  datatype StatusRequest = StatusRequest(
    userId: Option<UserId>,
    appointmentId: Option<AppointmentId>,
    status: Option<string>)

  /** The appointment with this id that belongs to this patient user. */
  function FindOwnedAppointment(appts: seq<Appointment>, id: Option<AppointmentId>, owner: UserId): (r: Option<nat>)
    ensures r.Some? ==> id.Some? && r.value < |appts| && appts[r.value].id == id.value && appts[r.value].patientId == owner
    ensures r.None? ==> id.None? || forall j :: 0 <= j < |appts| ==> !(appts[j].id == id.value && appts[j].patientId == owner)
  {
    if id.None? then None
    else FirstIndex(appts, (a: Appointment) => a.id == id.value && a.patientId == owner)
  }

  /** `updateAppointmentStatus` as written: the record lookup populates
      `appointments`, a path the Patient schema does not declare, which the
      query rejects once a record is found; so after the enum check and the
      404 for a missing record, every request is a 500. */
  function UpdateStatusAsWritten(st: DbState, req: StatusRequest): Outcome<Appointment> {
    if ParseStatus(req.status).None? then Outcome(BadRequest, st)
    else if FindPatientOf(st.patients, req.userId).None? then Outcome(NotFound(PatientEntity), st)
    else Outcome(Internal, st)
  }

  /** As written the status update never succeeds and never writes. */
  lemma UpdateStatusAsWrittenNeverSucceeds(st: DbState, req: StatusRequest)
    ensures !UpdateStatusAsWritten(st, req).response.Ok?
    ensures UpdateStatusAsWritten(st, req).state == st
    ensures ParseStatus(req.status).Some? && FindPatientOf(st.patients, req.userId).Some?
            ==> UpdateStatusAsWritten(st, req).response == Internal
  {
  }

  /** `updateAppointmentStatus` with the record looked up without the
      populate: the status is checked against the enum before any lookup,
      then the patient record and the patient's appointment are looked up,
      then the status is written (without running validators, as
      `findOneAndUpdate` does) together with the `updatedAt` the schema's
      timestamps add to every update. */
  function UpdateStatus(st: DbState, req: StatusRequest, now: Instant): Outcome<Appointment> {
    var status := ParseStatus(req.status);
    if status.None? then Outcome(BadRequest, st)
    else
      var p := FindPatientOf(st.patients, req.userId);
      if p.None? then Outcome(NotFound(PatientEntity), st)
      else
        var i := FindOwnedAppointment(st.appointments, req.appointmentId, st.patients[p.value].userId);
        if i.None? then Outcome(NotFound(AppointmentEntity), st)
        else
          var a := st.appointments[i.value].(status := status.value, updatedAt := now);
          Outcome(Ok(a), st.(appointments := st.appointments[i.value := a]))
  }

  method UpdateAppointmentStatus(db: Db, req: StatusRequest, now: Instant) returns (r: Response<Appointment>)
    modifies db
    ensures Outcome(r, db.State()) == UpdateStatus(old(db.State()), req, now)
  {
    var status := ParseStatus(req.status);
    if status.None? {
      return BadRequest;
    }
    var p := FindPatientOf(db.patients, req.userId);
    if p.None? {
      return NotFound(PatientEntity);
    }
    var i := FindOwnedAppointment(db.appointments, req.appointmentId, db.patients[p.value].userId);
    if i.None? {
      return NotFound(AppointmentEntity);
    }
    var updated := db.appointments[i.value].(status := status.value, updatedAt := now);
    db.appointments := db.appointments[i.value := updated];
    r := Ok(updated);
  }

  /** A status outside the enum is a 400 before anything is looked up; a
      success changes only the status and `updatedAt` of the one appointment
      with that id and that patient. */
  lemma UpdateStatusEffect(st: DbState, req: StatusRequest, now: Instant)
    ensures ParseStatus(req.status).None? ==> UpdateStatus(st, req, now) == Outcome(BadRequest, st)
    ensures ParseStatus(req.status).Some? && FindPatientOf(st.patients, req.userId).None? ==>
              UpdateStatus(st, req, now) == Outcome(NotFound(PatientEntity), st)
    ensures ParseStatus(req.status).Some? && FindPatientOf(st.patients, req.userId).Some? ==>
              var owner := st.patients[FindPatientOf(st.patients, req.userId).value].userId;
              (FindOwnedAppointment(st.appointments, req.appointmentId, owner).None? ==>
                 UpdateStatus(st, req, now) == Outcome(NotFound(AppointmentEntity), st))
              && (FindOwnedAppointment(st.appointments, req.appointmentId, owner).Some? ==>
                    UpdateStatus(st, req, now).response.Ok?)
    ensures UpdateStatus(st, req, now).response.Ok? ==>
              var out := UpdateStatus(st, req, now);
              var a := out.response.value;
              var p := FindPatientOf(st.patients, req.userId).value;
              var i := FindOwnedAppointment(st.appointments, req.appointmentId, st.patients[p].userId).value;
              Some(StatusName(a.status)) == req.status && Some(a.patientId) == req.userId
              && Some(a.id) == req.appointmentId
              && a == st.appointments[i].(status := a.status, updatedAt := now)
              && out.state.appointments == st.appointments[i := a]
              && out.state.(appointments := st.appointments) == st
  {
  }

  // ---------------------------------------------------------------------
  // deleteAppointment

  /** `deleteAppointment` as a transition: a missing id is a 400, an unknown
      one a 404, otherwise the appointment is removed. */
  function Delete(st: DbState, id: Option<AppointmentId>): Outcome<Appointment> {
    if id.None? then Outcome(BadRequest, st)
    else
      var i := FindAppointment(st.appointments, id);
      if i.None? then Outcome(NotFound(AppointmentEntity), st)
      else Outcome(Ok(st.appointments[i.value]),
                   st.(appointments := st.appointments[..i.value] + st.appointments[i.value + 1..]))
  }

  method DeleteAppointment(db: Db, id: Option<AppointmentId>) returns (r: Response<Appointment>)
    modifies db
    ensures Outcome(r, db.State()) == Delete(old(db.State()), id)
  {
    if id.None? {
      return BadRequest;
    }
    var i := FindAppointment(db.appointments, id);
    if i.None? {
      return NotFound(AppointmentEntity);
    }
    r := Ok(db.appointments[i.value]);
    db.appointments := db.appointments[..i.value] + db.appointments[i.value + 1..];
  }

  /** A missing id is a 400 and an unknown one a 404, neither changing
      anything; a stored id is always deleted: exactly the appointment with
      that id goes, and the others keep their order. */
  lemma DeleteRemovesOne(st: DbState, id: Option<AppointmentId>)
    requires Consistent(st)
    ensures id.None? ==> Delete(st, id) == Outcome(BadRequest, st)
    ensures id.Some? && FindAppointment(st.appointments, id).None? ==>
              Delete(st, id) == Outcome(NotFound(AppointmentEntity), st)
    ensures FindAppointment(st.appointments, id).Some? ==> Delete(st, id).response.Ok?
    ensures Delete(st, id).response.Ok? ==>
            var out := Delete(st, id);
            var a := out.response.value;
            Some(a.id) == id
            && multiset(out.state.appointments) + multiset{a} == multiset(st.appointments)
            && (forall j :: 0 <= j < |out.state.appointments| ==> out.state.appointments[j].id != a.id)
            && out.state.(appointments := st.appointments) == st
  {
    if Delete(st, id).response.Ok? {
      var i := FindAppointment(st.appointments, id).value;
      var s := st.appointments;
      assert s == s[..i] + [s[i]] + s[i + 1..];
      forall j | 0 <= j < |Delete(st, id).state.appointments|
        ensures Delete(st, id).state.appointments[j].id != s[i].id
      {
        if j < i {
          assert Delete(st, id).state.appointments[j] == s[j];
        } else {
          assert Delete(st, id).state.appointments[j] == s[j + 1];
        }
      }
    }
  }

  /** Removing one element keeps every pairwise property of a sequence. */
  lemma RemoveAtIndex<T>(s: seq<T>, i: nat)
    requires i < |s|
    ensures var t := s[..i] + s[i + 1..];
            |t| == |s| - 1 && forall j :: 0 <= j < |t| ==> t[j] == s[if j < i then j else j + 1]
  {
  }

  lemma DeletePreservesConsistent(st: DbState, id: Option<AppointmentId>)
    requires Consistent(st)
    ensures Consistent(Delete(st, id).state)
  {
    if Delete(st, id).response.Ok? {
      var i := FindAppointment(st.appointments, id).value;
      assert Delete(st, id).state == st.(appointments := st.appointments[..i] + st.appointments[i + 1..]);
      RemoveAppointment(st, i);
    }
  }

  /** Removing the appointment at `i` keeps the store consistent. */
  lemma RemoveAppointment(st: DbState, i: nat)
    requires Consistent(st) && i < |st.appointments|
    ensures Consistent(st.(appointments := st.appointments[..i] + st.appointments[i + 1..]))
  {
    RemoveAtIndex(st.appointments, i);
  }

  lemma DeletePreservesUniqueScheduled(st: DbState, id: Option<AppointmentId>)
    requires UniqueScheduled(st.appointments)
    ensures UniqueScheduled(Delete(st, id).state.appointments)
  {
    if Delete(st, id).response.Ok? {
      RemoveAtIndex(st.appointments, FindAppointment(st.appointments, id).value);
    }
  }

  // ---------------------------------------------------------------------
  // getBookedTimeSlot

  /** An appointment that occupies a slot of this doctor on this date. */
  predicate IsBooked(a: Appointment, doctorId: UserId, date: Instant) {
    a.doctorId == doctorId && a.date == date && a.status == Scheduled
  }

  /** `getBookedTimeSlot`: the times of the scheduled appointments of the
      doctor on the date, in store order. */
  function BookedTimes(appts: seq<Appointment>, doctorId: UserId, date: Instant): (r: seq<string>)
    ensures |r| <= |appts|
    ensures forall t :: t in r <==> exists i :: 0 <= i < |appts| && IsBooked(appts[i], doctorId, date) && appts[i].time == t
  {
    if appts == [] then []
    else
      var rest := BookedTimes(appts[1..], doctorId, date);
      assert forall i :: 1 <= i < |appts| ==> appts[i] == appts[1..][i - 1];
      (if IsBooked(appts[0], doctorId, date) then [appts[0].time] else []) + rest
  }

  /** The slots of a store are the slots of its parts, in order. */
  lemma {:induction false} BookedTimesConcat(s: seq<Appointment>, t: seq<Appointment>, doctorId: UserId, date: Instant)
    ensures BookedTimes(s + t, doctorId, date) == BookedTimes(s, doctorId, date) + BookedTimes(t, doctorId, date)
  {
    if s != [] {
      BookedTimesConcat(s[1..], t, doctorId, date);
      assert (s + t)[1..] == s[1..] + t;
    } else {
      assert s + t == t;
    }
  }

  /** A booking of that doctor and date adds its time at the end of the list. */
  lemma CreateAddsBookedTime(st: DbState, req: CreateRequest, now: Instant)
    requires Create(st, req, now).response.Ok?
    ensures var out := Create(st, req, now);
            var a := out.response.value;
            BookedTimes(out.state.appointments, a.doctorId, a.date)
            == BookedTimes(st.appointments, a.doctorId, a.date) + [a.time]
  {
    var out := Create(st, req, now);
    var a := out.response.value;
    BookedTimesConcat(st.appointments, [a], a.doctorId, a.date);
  }

  /** Cancelling a booked appointment frees exactly its slot. */
  lemma CancelFreesSlot(st: DbState, id: Option<AppointmentId>, doctorId: UserId, date: Instant, now: Instant)
    requires Cancel(st, id, now).response.Ok?
    ensures var i := FindAppointment(st.appointments, id).value;
            var a := st.appointments[i];
            multiset(BookedTimes(Cancel(st, id, now).state.appointments, doctorId, date))
            == multiset(BookedTimes(st.appointments, doctorId, date))
               - (if IsBooked(a, doctorId, date) then multiset{a.time} else multiset{})
  {
    var i := FindAppointment(st.appointments, id).value;
    var s := st.appointments;
    var t := Cancel(st, id, now).state.appointments;
    assert s == s[..i] + [s[i]] + s[i + 1..];
    assert t == s[..i] + [t[i]] + s[i + 1..];
    BookedTimesConcat(s[..i] + [s[i]], s[i + 1..], doctorId, date);
    BookedTimesConcat(s[..i], [s[i]], doctorId, date);
    BookedTimesConcat(s[..i] + [t[i]], s[i + 1..], doctorId, date);
    BookedTimesConcat(s[..i], [t[i]], doctorId, date);
  }

  // ---------------------------------------------------------------------
  // searchBookingDetails

  /** An appointment with its `$lookup` of patient and doctor; `None` where
      the unwind kept a row without a matching user. */
  datatype Joined = Joined(appt: Appointment, patient: Option<User>, doctor: Option<User>)

  /** The date and time renderings the search uses, and the current day. */
  datatype Formatters = Formatters(
    dateToString: Instant -> string,
    formatDate: Instant -> string,
    formatOnlyDate: Instant -> string,
    today: Date)

  /** One formatted search hit: the appointment fields, the rendered dates,
      both users' schema fields, and `name (age)`. */
  datatype SearchRow = SearchRow(
    id: AppointmentId,
    appointmentDateTime: string,
    reason: string,
    status: Status,
    notes: Option<string>,
    createdAt: string,
    updatedAt: string,
    patient: User,
    doctor: User,
    patientNameAge: string)

  function Join(users: seq<User>, a: Appointment): Joined {
    var p := FindUser(users, Some(a.patientId));
    var d := FindUser(users, Some(a.doctorId));
    Joined(a, if p.None? then None else Some(users[p.value]),
              if d.None? then None else Some(users[d.value]))
  }

  /** A regular-expression test on a path that may be missing. */
  predicate Hits(regex: string -> bool, v: Option<string>) {
    v.Some? && regex(v.value)
  }

  /** The text paths of a joined user the `$or` looks at. `dob` is a date, and
      a regular expression never matches a date, so it is not among them. */
  predicate UserHits(regex: string -> bool, u: Option<User>) {
    u.Some? && (Hits(regex, u.value.name) || Hits(regex, u.value.gender)
                || Hits(regex, u.value.mobile) || Hits(regex, u.value.email))
  }

  /** The `$match` stage: one of the text paths matches, and the date lies in
      the parsed range when the query parsed as a date. */
  predicate RowMatches(j: Joined, regex: string -> bool, dateRange: Option<(Instant, Instant)>, fmt: Formatters) {
    var a := j.appt;
    (regex(a.reason) || regex(StatusName(a.status)) || regex(fmt.dateToString(a.date)) || regex(a.time)
     || UserHits(regex, j.patient) || UserHits(regex, j.doctor))
    && (dateRange.Some? ==> dateRange.value.0 <= a.date <= dateRange.value.1)
  }

  /** The aggregation's result: the matching joined rows, in store order. */
  function Matching(users: seq<User>, appts: seq<Appointment>, regex: string -> bool,
                    dateRange: Option<(Instant, Instant)>, fmt: Formatters): (r: seq<Joined>)
    ensures |r| <= |appts|
    ensures forall j :: j in r <==> exists i :: 0 <= i < |appts| && j == Join(users, appts[i])
                                                 && RowMatches(j, regex, dateRange, fmt)
  {
    if appts == [] then []
    else
      var rest := Matching(users, appts[1..], regex, dateRange, fmt);
      assert forall i :: 1 <= i < |appts| ==> appts[i] == appts[1..][i - 1];
      var j := Join(users, appts[0]);
      (if RowMatches(j, regex, dateRange, fmt) then [j] else []) + rest
  }

  /** Lines 103-140: one hit formatted; both users must be present. */
  function FormatRow(j: Joined, fmt: Formatters): SearchRow
    requires j.patient.Some? && j.doctor.Some?
  {
    var a := j.appt;
    var p := j.patient.value;
    SearchRow(a.id, fmt.formatOnlyDate(a.date) + " " + a.time, a.reason, a.status, a.notes,
              fmt.formatDate(a.createdAt), fmt.formatDate(a.updatedAt), p, j.doctor.value,
              (if p.name.None? then "undefined" else p.name.value) + " (" + CalculateAge(p.dob, fmt.today) + ")")
  }

  /** Every hit has both its patient and its doctor. */
  predicate AllJoined(rows: seq<Joined>) {
    forall i :: 0 <= i < |rows| ==> rows[i].patient.Some? && rows[i].doctor.Some?
  }

  /** The format loop over all hits: `None` when some hit lacks its patient
      or doctor, where reading a path of `undefined` throws. */
  function FormatAll(rows: seq<Joined>, fmt: Formatters): (r: Option<seq<SearchRow>>)
    ensures r.Some? <==> AllJoined(rows)
    ensures r.Some? ==> |r.value| == |rows| && forall i :: 0 <= i < |rows| ==> r.value[i].id == rows[i].appt.id
  {
    if AllJoined(rows)
    then Some(seq(|rows|, i requires 0 <= i < |rows| && AllJoined(rows) => FormatRow(rows[i], fmt)))
    else None
  }

  /** `searchBookingDetails`: a falsy query is a 400, a pattern `RegExp`
      rejects (`regex` is `None`) a 500, no hit a 404, a hit without its
      patient or doctor a 500, and otherwise the formatted hits. */
  function Search(st: DbState, query: Option<string>, regex: Option<string -> bool>,
                  dateRange: Option<(Instant, Instant)>, fmt: Formatters): Response<seq<SearchRow>>
  {
    if !Truthy(query) then BadRequest
    else if regex.None? then Internal
    else
      var hits := Matching(st.users, st.appointments, regex.value, dateRange, fmt);
      if hits == [] then NotFound(AppointmentEntity)
      else
        var rows := FormatAll(hits, fmt);
        if rows.None? then Internal else Ok(rows.value)
  }

  /** Lines 9-150 as written: a falsy query is a 400; otherwise line 20 calls
      `parseUserInputDate`, which helper/dateHelper.js does not define, and
      the handler answers 500 before any lookup (the format loop, whose line
      122 calls the equally undefined `formatOnlyDate`, is never reached). */
  function SearchAsWritten(query: Option<string>): Response<seq<SearchRow>> {
    if !Truthy(query) then BadRequest else Internal
  }

  /** As written, a search is a 400 or a 500 and never anything else; it is
      a 400 exactly where `Search` is, and a 500 wherever `Search` answers. */
  lemma SearchAsWrittenFails(st: DbState, query: Option<string>, regex: Option<string -> bool>,
                             dateRange: Option<(Instant, Instant)>, fmt: Formatters)
    ensures SearchAsWritten(query).BadRequest? || SearchAsWritten(query).Internal?
    ensures SearchAsWritten(query).BadRequest? <==> Search(st, query, regex, dateRange, fmt).BadRequest?
    ensures !Search(st, query, regex, dateRange, fmt).BadRequest? ==> SearchAsWritten(query) == Internal
  {
  }

  /** `searchBookingDetails` on the store, with the format loop of lines 100-141. */
  method SearchBookingDetails(db: Db, query: Option<string>, regex: Option<string -> bool>,
                              dateRange: Option<(Instant, Instant)>, fmt: Formatters)
    returns (r: Response<seq<SearchRow>>)
    ensures r == Search(db.State(), query, regex, dateRange, fmt)
  {
    if !Truthy(query) {
      return BadRequest;
    }
    if regex.None? {
      return Internal;
    }
    var results := Matching(db.users, db.appointments, regex.value, dateRange, fmt);
    if |results| == 0 {
      return NotFound(AppointmentEntity);
    }
    var formatted: seq<SearchRow> := [];
    var i := 0;
    while i < |results|
      invariant 0 <= i <= |results|
      invariant |formatted| == i
      invariant forall k :: 0 <= k < i ==> results[k].patient.Some? && results[k].doctor.Some?
                                           && formatted[k] == FormatRow(results[k], fmt)
    {
      var row := results[i];
      if row.patient.None? || row.doctor.None? {
        return Internal;
      }
      formatted := formatted + [FormatRow(row, fmt)];
      i := i + 1;
    }
    assert formatted == FormatAll(results, fmt).value;
    r := Ok(formatted);
  }

  /** Every hit of a successful search is a stored appointment (in the date
      range, when one was parsed) with a matching path. */
  lemma SearchHitsMatch(st: DbState, query: Option<string>, regex: Option<string -> bool>,
                        dateRange: Option<(Instant, Instant)>, fmt: Formatters, k: nat)
    requires Search(st, query, regex, dateRange, fmt).Ok?
    requires k < |Search(st, query, regex, dateRange, fmt).value|
    ensures exists i :: 0 <= i < |st.appointments|
                        && st.appointments[i].id == Search(st, query, regex, dateRange, fmt).value[k].id
                        && RowMatches(Join(st.users, st.appointments[i]), regex.value, dateRange, fmt)
  {
    var hits := Matching(st.users, st.appointments, regex.value, dateRange, fmt);
    assert hits[k] in hits;
  }

  /** Every stored appointment with a matching path is among the hits. */
  lemma SearchMissesNothing(st: DbState, query: Option<string>, regex: Option<string -> bool>,
                            dateRange: Option<(Instant, Instant)>, fmt: Formatters, i: nat)
    requires Search(st, query, regex, dateRange, fmt).Ok?
    requires i < |st.appointments| && RowMatches(Join(st.users, st.appointments[i]), regex.value, dateRange, fmt)
    ensures exists k :: 0 <= k < |Search(st, query, regex, dateRange, fmt).value|
                        && Search(st, query, regex, dateRange, fmt).value[k].id == st.appointments[i].id
  {
    var hits := Matching(st.users, st.appointments, regex.value, dateRange, fmt);
    var j := Join(st.users, st.appointments[i]);
    assert j in hits;
    var k :| 0 <= k < |hits| && hits[k] == j;
    assert Search(st, query, regex, dateRange, fmt).value[k].id == hits[k].appt.id;
  }

  /** Each hit shows `name (age)` of its patient, the age as `calculateAge`
      renders it, and the date and time separated by one space. */
  lemma SearchRowText(st: DbState, query: Option<string>, regex: Option<string -> bool>,
                      dateRange: Option<(Instant, Instant)>, fmt: Formatters, k: nat)
    requires Search(st, query, regex, dateRange, fmt).Ok?
    requires k < |Search(st, query, regex, dateRange, fmt).value|
    ensures var row := Search(st, query, regex, dateRange, fmt).value[k];
            row.patient.name.Some? ==>
              row.patientNameAge == row.patient.name.value + " (" + CalculateAge(row.patient.dob, fmt.today) + ")"
    ensures var row := Search(st, query, regex, dateRange, fmt).value[k];
            row.patient.dob.None? ==> row.patientNameAge[|row.patientNameAge| - |NoDobMessage| - 1..]
                                      == NoDobMessage + ")"
  {
  }

  // ---------------------------------------------------------------------
  // getAllAppointments

  /** The ids of the users holding a role. */
  function HoldersOf(users: seq<User>, role: RoleId): (r: set<UserId>)
    ensures forall id :: id in r <==> exists i :: 0 <= i < |users| && users[i].id == id && role in users[i].roles
  {
    set i | 0 <= i < |users| && role in users[i].roles :: users[i].id
  }

  /** `Appointment.find({ patientId: { $in: ids } })`, in store order. */
  function AppointmentsOf(appts: seq<Appointment>, ids: set<UserId>): (r: seq<Appointment>)
    ensures |r| <= |appts|
    ensures forall a :: a in r <==> a in appts && a.patientId in ids
  {
    if appts == [] then []
    else
      var rest := AppointmentsOf(appts[1..], ids);
      assert forall a :: a in appts <==> a == appts[0] || a in appts[1..];
      (if appts[0].patientId in ids then [appts[0]] else []) + rest
  }

  /** The two `populate` calls on one appointment. */
  function PopulateUsers(users: seq<User>, a: Appointment): Populated {
    var p := FindUser(users, Some(a.patientId));
    var d := FindUser(users, Some(a.doctorId));
    Populated(a, if p.None? then None else Some(users[p.value]), if d.None? then None else Some(users[d.value]))
  }

  /** One page of the listing, with the count, `total_pages` and the direction. */
  datatype AppointmentPage = AppointmentPage(items: seq<Projection>, total: nat, totalPages: PageCount, direction: int)

  /** Every appointment of the page can be projected. */
  predicate AllProjectable(users: seq<User>, page: seq<Appointment>, rd: Renderers) {
    forall k :: 0 <= k < |page| ==> ToJson(PopulateUsers(users, page[k]), rd).Some?
  }

  /** `appointments.map(x => new PatientResource(x).toJSON())`; `None` when
      one of the projections throws. */
  function ProjectAll(users: seq<User>, page: seq<Appointment>, rd: Renderers): (r: Option<seq<Projection>>)
    ensures r.Some? <==> AllProjectable(users, page, rd)
    ensures r.Some? ==> |r.value| == |page|
                        && forall k :: 0 <= k < |page| ==> r.value[k].appointmentId == page[k].id
  {
    if !AllProjectable(users, page, rd) then None
    else Some(seq(|page|, k requires 0 <= k < |page| => ToJson(PopulateUsers(users, page[k]), rd).value))
  }

  /** `getAllAppointments` (lines 152-215): 404 without a `patient` role or
      without patients, then the appointments of the patients cut to the page
      and projected. A negative skip is refused by the server, and a row that
      the projection throws on (a patient without a doctor) is a 500. The
      direction is the one line 190 computes, ascending for `desc`
      (`AppointmentSortDirectionAsWritten`). The page is cut in store order:
      the ordering by `sort_by` is not modelled. */
  function GetAllAppointments(st: DbState, page: int, perPage: int, orderBy: Option<string>, rd: Renderers)
    : (r: Response<AppointmentPage>)
  {
    var role := FindRole(st.roles, PatientRoleName);
    if role.None? then NotFound(RoleEntity)
    else
      var ids := HoldersOf(st.users, role.value.id);
      if ids == {} then NotFound(PatientEntity)
      else
        var listed := AppointmentsOf(st.appointments, ids);
        var cut := PageOf(listed, Skip(page, perPage), perPage);
        if cut.None? then Internal
        else
          var items := ProjectAll(st.users, cut.value, rd);
          if items.None? then Internal
          else Ok(AppointmentPage(items.value, |listed|, TotalPages(|listed|, perPage), AppointmentSortDirectionAsWritten(orderBy)))
  }

  /** The listing answers 404 exactly when there is no `patient` role or no
      user holds it; otherwise a page is returned exactly when the skip is
      non-negative and every row can be projected. */
  lemma GetAllAppointmentsErrors(st: DbState, page: int, perPage: int, orderBy: Option<string>, rd: Renderers)
    ensures var r := GetAllAppointments(st, page, perPage, orderBy, rd);
            var role := FindRole(st.roles, PatientRoleName);
            (r.NotFound? <==> role.None? || HoldersOf(st.users, role.value.id) == {})
            && (r.NotFound? && role.None? ==> r.what == RoleEntity)
            && (!r.NotFound? ==>
                  var cut := PageOf(AppointmentsOf(st.appointments, HoldersOf(st.users, role.value.id)),
                                    Skip(page, perPage), perPage);
                  (r.Ok? <==> Skip(page, perPage) >= 0 && AllProjectable(st.users, cut.value, rd)))
  {
  }

  /** A returned page lists appointments of patients only, in store order
      from the skip on, counts all of them in `total`, and carries the
      direction line 190 computes. */
  lemma GetAllAppointmentsPage(st: DbState, page: int, perPage: int, orderBy: Option<string>, rd: Renderers)
    requires GetAllAppointments(st, page, perPage, orderBy, rd).Ok?
    ensures var r := GetAllAppointments(st, page, perPage, orderBy, rd).value;
            var ids := HoldersOf(st.users, FindRole(st.roles, PatientRoleName).value.id);
            var listed := AppointmentsOf(st.appointments, ids);
            var skip := Skip(page, perPage);
            r.total == |listed| && r.totalPages == TotalPages(|listed|, perPage)
            && r.direction == AppointmentSortDirectionAsWritten(orderBy)
            && skip >= 0
            && (forall k :: 0 <= k < |r.items| ==>
                  skip + k < |listed| && r.items[k].appointmentId == listed[skip + k].id
                  && listed[skip + k].patientId in ids)
  {
    var ids := HoldersOf(st.users, FindRole(st.roles, PatientRoleName).value.id);
    var listed := AppointmentsOf(st.appointments, ids);
    var skip := Skip(page, perPage);
    var cut := PageOf(listed, skip, perPage).value;
    var items := ProjectAll(st.users, cut, rd).value;
    assert GetAllAppointments(st, page, perPage, orderBy, rd).value
           == AppointmentPage(items, |listed|, TotalPages(|listed|, perPage), AppointmentSortDirectionAsWritten(orderBy));
    RowsFromListing(listed, ids, skip, perPage, cut, items);
  }

  /** The projected rows of a page are the listed appointments from the skip on. */
  lemma RowsFromListing(listed: seq<Appointment>, ids: set<UserId>, skip: int, perPage: int,
                        cut: seq<Appointment>, items: seq<Projection>)
    requires PageOf(listed, skip, perPage) == Some(cut)
    requires forall a :: a in listed ==> a.patientId in ids
    requires |items| == |cut| && forall k :: 0 <= k < |cut| ==> items[k].appointmentId == cut[k].id
    ensures forall k :: 0 <= k < |items| ==>
              skip + k < |listed| && items[k].appointmentId == listed[skip + k].id
              && listed[skip + k].patientId in ids
  {
    forall k | 0 <= k < |items|
      ensures skip + k < |listed| && items[k].appointmentId == listed[skip + k].id
              && listed[skip + k].patientId in ids
    {
      assert cut[k] == listed[skip + k];
      assert cut[k] in listed;
    }
  }

  /** Lines 152-215 as written: each `toJSON` of line 201 calls the undefined
      `formatOnlyDate` (PatientResource.js lines 26 and 54), so a page with a
      row answers 500 and only an empty page answers 200. */
  function GetAllAppointmentsAsWritten(st: DbState, page: int, perPage: int, orderBy: Option<string>)
    : Response<AppointmentPage>
  {
    var role := FindRole(st.roles, PatientRoleName);
    if role.None? then NotFound(RoleEntity)
    else
      var ids := HoldersOf(st.users, role.value.id);
      if ids == {} then NotFound(PatientEntity)
      else
        var listed := AppointmentsOf(st.appointments, ids);
        var cut := PageOf(listed, Skip(page, perPage), perPage);
        if cut.None? || cut.value != [] then Internal
        else Ok(AppointmentPage([], |listed|, TotalPages(|listed|, perPage), AppointmentSortDirectionAsWritten(orderBy)))
  }

  /** As written, the listing answers 200 only with an empty page, and then
      as the corrected listing does; every non-empty page of the corrected
      listing is a 500, and the 404s are the same. */
  lemma GetAllAppointmentsAsWrittenEmptyOnly(st: DbState, page: int, perPage: int, orderBy: Option<string>, rd: Renderers)
    ensures var w := GetAllAppointmentsAsWritten(st, page, perPage, orderBy);
            var c := GetAllAppointments(st, page, perPage, orderBy, rd);
            (w.Ok? ==> w.value.items == [] && c == w)
            && (c.Ok? && c.value.items != [] ==> w == Internal)
            && (w.NotFound? <==> c.NotFound?)
  {
    var role := FindRole(st.roles, PatientRoleName);
    if role.Some? && HoldersOf(st.users, role.value.id) != {} {
      var listed := AppointmentsOf(st.appointments, HoldersOf(st.users, role.value.id));
      var cut := PageOf(listed, Skip(page, perPage), perPage);
      ListedPageStage(st, page, perPage, orderBy, rd, listed, cut);
      if cut.Some? && cut.value == [] {
        assert ProjectAll(st.users, cut.value, rd) == Some([]);
      }
    }
  }

  /** Past the 404s, both listings depend on the page cut alone. */
  lemma ListedPageStage(st: DbState, page: int, perPage: int, orderBy: Option<string>, rd: Renderers,
                        listed: seq<Appointment>, cut: Option<seq<Appointment>>)
    requires FindRole(st.roles, PatientRoleName).Some?
    requires HoldersOf(st.users, FindRole(st.roles, PatientRoleName).value.id) != {}
    requires listed == AppointmentsOf(st.appointments, HoldersOf(st.users, FindRole(st.roles, PatientRoleName).value.id))
    requires cut == PageOf(listed, Skip(page, perPage), perPage)
    ensures var tail := AppointmentPage([], |listed|, TotalPages(|listed|, perPage), AppointmentSortDirectionAsWritten(orderBy));
            GetAllAppointmentsAsWritten(st, page, perPage, orderBy)
              == (if cut.None? || cut.value != [] then Internal else Ok(tail))
            && GetAllAppointments(st, page, perPage, orderBy, rd)
              == (if cut.None? || ProjectAll(st.users, cut.value, rd).None? then Internal
                  else Ok(tail.(items := ProjectAll(st.users, cut.value, rd).value)))
  {
  }
}

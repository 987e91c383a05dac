/** The older embedded-appointment operations of `patientController.js`, and
    the doctor listing.

    Neither the `User` nor the `Patient` schema declares an `appointments`
    path, so on a loaded document `appointments` is undefined and both
    embedded operations throw once they reach it. `CreateEmbeddedAsWritten`
    and `UpdateEmbeddedStatusAsWritten` model that; `CreateEmbedded` and
    `UpdateEmbeddedStatus` model the evident intent, an embedded list on the
    document, and are what the store methods implement. */
module PatientController {
  import opened Common
  import opened AppointmentModel
  import opened PatientModel
  import opened UserModel
  import opened Store

  datatype EmbeddedRequest = EmbeddedRequest(
    patientId: Option<UserId>,
    doctorId: Option<UserId>,
    date: Option<Instant>,
    reason: Option<string>)

  // ---------------------------------------------------------------------
  // createAppointment, as written

  /** Lines 5-44 as written: a 404 for an unknown user, and otherwise the
      `push` on the undeclared path throws, answered with a 500. */
  function CreateEmbeddedAsWritten(st: DbState, req: EmbeddedRequest): Outcome<User> {
    if FindUser(st.users, req.patientId).None? then Outcome(NotFound(PatientEntity), st)
    else Outcome(Internal, st)
  }

  /** As written, no request ever schedules an embedded appointment. */
  lemma CreateEmbeddedAsWrittenNeverSucceeds(st: DbState, req: EmbeddedRequest)
    ensures !CreateEmbeddedAsWritten(st, req).response.Ok?
    ensures CreateEmbeddedAsWritten(st, req).state == st
    ensures FindUser(st.users, req.patientId).Some? ==> CreateEmbeddedAsWritten(st, req).response == Internal
  {
  }

  // ---------------------------------------------------------------------
  // createAppointment, with the embedded list

  /** The entry lines 19-25 build: scheduled, and with the doctor set to the
      patient (the request's doctor is not used). */
  function NewEmbedded(id: SubdocId, patientId: UserId, req: EmbeddedRequest): EmbeddedAppointment {
    EmbeddedAppointment(id, patientId, req.date, req.reason, Scheduled, patientId)
  }

  /** `createAppointment` with the list declared: push the new entry on the
      user's list and save the user. */
  function CreateEmbedded(st: DbState, req: EmbeddedRequest, now: Instant): Outcome<User> {
    var i := FindUser(st.users, req.patientId);
    if i.None? then Outcome(NotFound(PatientEntity), st)
    else
      var u := st.users[i.value];
      var u' := u.(appointments := u.appointments + [NewEmbedded(st.nextId, req.patientId.value, req)]);
      var saved := UserModel.Save(u', now);
      if saved.Invalid? then Outcome(Internal, st)
      else Outcome(Ok(saved.value), st.(users := st.users[i.value := saved.value], nextId := st.nextId + 1))
  }

  method CreateEmbeddedAppointment(db: Db, req: EmbeddedRequest, now: Instant) returns (r: Response<User>)
    modifies db
    ensures Outcome(r, db.State()) == CreateEmbedded(old(db.State()), req, now)
  {
    var i := FindUser(db.users, req.patientId);
    if i.None? {
      return NotFound(PatientEntity);
    }
    var patient := db.users[i.value];
    var entry := NewEmbedded(db.nextId, req.patientId.value, req);
    patient := patient.(appointments := patient.appointments + [entry]);
    var saved := UserModel.Save(patient, now);
    if saved.Invalid? {
      return Internal;
    }
    db.users := db.users[i.value := saved.value];
    db.nextId := db.nextId + 1;
    r := Ok(saved.value);
  }

  /** An unknown user is a 404; otherwise exactly one scheduled entry is
      appended, its doctor is the patient, the earlier entries are kept, and
      the save succeeds exactly when the user passes validation. */
  lemma CreateEmbeddedEffect(st: DbState, req: EmbeddedRequest, now: Instant)
    ensures FindUser(st.users, req.patientId).None? ==> CreateEmbedded(st, req, now) == Outcome(NotFound(PatientEntity), st)
    ensures FindUser(st.users, req.patientId).Some? ==>
              var i := FindUser(st.users, req.patientId).value;
              var out := CreateEmbedded(st, req, now);
              (out.response.Ok? <==> UserModel.FailingPaths(st.users[i]) == {})
              && (out.response.Ok? ==>
                    var u := out.response.value;
                    |u.appointments| == |st.users[i].appointments| + 1
                    && u.appointments[..|st.users[i].appointments|] == st.users[i].appointments
                    && var e := u.appointments[|st.users[i].appointments|];
                       e.status == Scheduled && e.userId == req.patientId.value
                       && e.doctorId == req.patientId.value && e.date == req.date && e.reason == req.reason
                       && out.state.users[i] == u
                       && (forall j :: 0 <= j < |st.users| && j != i ==> out.state.users[j] == st.users[j]))
  {
    var i := FindUser(st.users, req.patientId);
    if i.Some? {
      var u := st.users[i.value];
      var u' := u.(appointments := u.appointments + [NewEmbedded(st.nextId, req.patientId.value, req)]);
      SaveIgnoresEmbedded(u, u'.appointments);
      assert u'.appointments[..|u.appointments|] == u.appointments;
    }
  }

  /** The embedded list has no validator of its own. */
  lemma SaveIgnoresEmbedded(u: User, appts: seq<EmbeddedAppointment>)
    ensures UserModel.FailingPaths(u.(appointments := appts)) == UserModel.FailingPaths(u)
  {
  }

  // ---------------------------------------------------------------------
  // updateAppointmentStatus, as written

  datatype EmbeddedStatusRequest = EmbeddedStatusRequest(
    patientId: Option<PatientId>,
    appointmentId: Option<SubdocId>,
    status: Option<string>)

  /** `Patient.findById(patientId)`. */
  function FindPatient(patients: seq<PatientRecord>, id: Option<PatientId>): (r: Option<nat>)
    ensures r.Some? ==> id.Some? && r.value < |patients| && patients[r.value].id == id.value
    ensures r.None? ==> id.None? || forall j :: 0 <= j < |patients| ==> patients[j].id != id.value
  {
    if id.None? then None else FirstIndex(patients, (p: PatientRecord) => p.id == id.value)
  }

  /** Lines 46-91 as written: 400 for a status outside the enum, 404 for an
      unknown patient record, and otherwise `appointments.id` on the
      undeclared path throws, answered with a 500. */
  function UpdateEmbeddedStatusAsWritten(st: DbState, req: EmbeddedStatusRequest): Outcome<EmbeddedAppointment> {
    if ParseStatus(req.status).None? then Outcome(BadRequest, st)
    else if FindPatient(st.patients, req.patientId).None? then Outcome(NotFound(PatientEntity), st)
    else Outcome(Internal, st)
  }

  lemma UpdateEmbeddedStatusAsWrittenNeverSucceeds(st: DbState, req: EmbeddedStatusRequest)
    ensures !UpdateEmbeddedStatusAsWritten(st, req).response.Ok?
    ensures UpdateEmbeddedStatusAsWritten(st, req).state == st
    ensures ParseStatus(req.status).Some? && FindPatient(st.patients, req.patientId).Some?
            ==> UpdateEmbeddedStatusAsWritten(st, req).response == Internal
  {
  }

  // ---------------------------------------------------------------------
  // updateAppointmentStatus, with the embedded list

  /** `appointments.id(appointmentId)`: the entry with that sub-document id. */
  function FindEmbedded(appts: seq<EmbeddedAppointment>, id: Option<SubdocId>): (r: Option<nat>)
    ensures r.Some? ==> id.Some? && r.value < |appts| && appts[r.value].id == id.value
    ensures r.None? ==> id.None? || forall j :: 0 <= j < |appts| ==> appts[j].id != id.value
  {
    if id.None? then None else FirstIndex(appts, (e: EmbeddedAppointment) => e.id == id.value)
  }

  /** The fields of a stored record, as `save()` validates them. */
  function RecordFields(p: PatientRecord): PatientFields {
    PatientFields(Some(p.userId), Some(p.medicalHistory), p.notes, p.visitHistory, p.nextAppointment)
  }

  /** `updateAppointmentStatus` with the list declared: the status check
      first, then the record, then the entry; the entry's status is set and
      the record saved, which validates its visit history and, under the
      schema's `timestamps`, moves `updatedAt` to the save time only when the
      entry actually changed. */
  function UpdateEmbeddedStatus(st: DbState, req: EmbeddedStatusRequest, now: Instant): Outcome<EmbeddedAppointment> {
    var status := ParseStatus(req.status);
    if status.None? then Outcome(BadRequest, st)
    else
      var p := FindPatient(st.patients, req.patientId);
      if p.None? then Outcome(NotFound(PatientEntity), st)
      else
        var record := st.patients[p.value];
        var k := FindEmbedded(record.appointments, req.appointmentId);
        if k.None? then Outcome(NotFound(AppointmentEntity), st)
        else if PatientModel.FailingPaths(RecordFields(record)) != {} then Outcome(Internal, st)
        else
          var e := record.appointments[k.value].(status := status.value);
          var record' := record.(appointments := record.appointments[k.value := e]);
          var saved := if record' == record then record else record'.(updatedAt := now);
          Outcome(Ok(e), st.(patients := st.patients[p.value := saved]))
  }

  method UpdateEmbeddedAppointmentStatus(db: Db, req: EmbeddedStatusRequest, now: Instant)
    returns (r: Response<EmbeddedAppointment>)
    modifies db
    ensures Outcome(r, db.State()) == UpdateEmbeddedStatus(old(db.State()), req, now)
  {
    var status := ParseStatus(req.status);
    if status.None? {
      return BadRequest;
    }
    var p := FindPatient(db.patients, req.patientId);
    if p.None? {
      return NotFound(PatientEntity);
    }
    var loaded := db.patients[p.value];
    var patient := loaded;
    var k := FindEmbedded(patient.appointments, req.appointmentId);
    if k.None? {
      return NotFound(AppointmentEntity);
    }
    var appointment := patient.appointments[k.value];
    appointment := appointment.(status := status.value);
    patient := patient.(appointments := patient.appointments[k.value := appointment]);
    if PatientModel.FailingPaths(RecordFields(patient)) != {} {
      return Internal;
    }
    if patient != loaded {
      patient := patient.(updatedAt := now);
    }
    db.patients := db.patients[p.value := patient];
    r := Ok(appointment);
  }

  /** A status outside the enum is a 400 before any lookup; a success changes
      the status of the one matched entry, refreshes the record's `updatedAt`
      when that status was a different one, and changes nothing else. */
  lemma UpdateEmbeddedStatusEffect(st: DbState, req: EmbeddedStatusRequest, now: Instant)
    ensures ParseStatus(req.status).None? ==> UpdateEmbeddedStatus(st, req, now) == Outcome(BadRequest, st)
    ensures UpdateEmbeddedStatus(st, req, now).response.Ok? ==>
              var p := FindPatient(st.patients, req.patientId).value;
              var old_ := st.patients[p].appointments;
              var k := FindEmbedded(old_, req.appointmentId).value;
              var out := UpdateEmbeddedStatus(st, req, now);
              var e := out.response.value;
              Some(StatusName(e.status)) == req.status
              && e == old_[k].(status := e.status)
              && out.state.patients[p] == (if e == old_[k] then st.patients[p]
                                           else st.patients[p].(appointments := old_[k := e], updatedAt := now))
              && |out.state.patients| == |st.patients|
              && (forall j :: 0 <= j < |st.patients| && j != p ==> out.state.patients[j] == st.patients[j])
              && out.state.(patients := st.patients) == st
  {
  }

  /** An unknown record or entry is a 404 that changes nothing. */
  lemma UpdateEmbeddedStatusNotFound(st: DbState, req: EmbeddedStatusRequest, now: Instant)
    requires ParseStatus(req.status).Some?
    ensures FindPatient(st.patients, req.patientId).None? ==>
              UpdateEmbeddedStatus(st, req, now) == Outcome(NotFound(PatientEntity), st)
    ensures FindPatient(st.patients, req.patientId).Some?
            && FindEmbedded(st.patients[FindPatient(st.patients, req.patientId).value].appointments, req.appointmentId).None?
            ==> UpdateEmbeddedStatus(st, req, now) == Outcome(NotFound(AppointmentEntity), st)
  {
  }

  // ---------------------------------------------------------------------
  // getAllDoctors

  /** Lines 162-170: one doctor in the listing. `display`, `inforce` and
      `remarks` are not user paths and are always undefined. */
  datatype DoctorRow = DoctorRow(id: UserId, name: Option<string>, createdAt: Instant, updatedAt: Instant)

  predicate HasRole(u: User, role: RoleId) {
    role in u.roles
  }

  /** `User.find({ roles: doctorRole._id })` mapped to rows, in store order. */
  function DoctorRows(users: seq<User>, role: RoleId): (r: seq<DoctorRow>)
    ensures |r| <= |users|
    ensures forall row :: row in r <==> exists i :: 0 <= i < |users| && HasRole(users[i], role)
                                                   && row == DoctorRow(users[i].id, users[i].name, users[i].createdAt, users[i].updatedAt)
  {
    if users == [] then []
    else
      var u := users[0];
      var rest := DoctorRows(users[1..], role);
      assert forall i :: 1 <= i < |users| ==> users[i] == users[1..][i - 1];
      (if HasRole(u, role) then [DoctorRow(u.id, u.name, u.createdAt, u.updatedAt)] else []) + rest
  }

  /** The listing of a store is the listing of its parts, in order. */
  lemma {:induction false} DoctorRowsConcat(a: seq<User>, b: seq<User>, role: RoleId)
    ensures DoctorRows(a + b, role) == DoctorRows(a, role) + DoctorRows(b, role)
  {
    if a == [] {
      assert a + b == b;
    } else {
      var u := a[0];
      var head := if HasRole(u, role) then [DoctorRow(u.id, u.name, u.createdAt, u.updatedAt)] else [];
      assert (a + b)[0] == u && (a + b)[1..] == a[1..] + b;
      assert DoctorRows(a + b, role) == head + DoctorRows(a[1..] + b, role);
      assert DoctorRows(a, role) == head + DoctorRows(a[1..], role);
      DoctorRowsConcat(a[1..], b, role);
    }
  }

  /** `getAllDoctors`: a 404 when no role is named `doctor`, else the rows. */
  function GetAllDoctors(st: DbState): (r: Response<seq<DoctorRow>>)
    ensures r.NotFound? <==> FindRole(st.roles, DoctorRoleName).None?
    ensures r.NotFound? ==> r.what == RoleEntity
    ensures r.Ok? ==> |r.value| <= |st.users|
                      && forall k :: 0 <= k < |r.value| ==>
                           exists i :: 0 <= i < |st.users| && st.users[i].id == r.value[k].id
                                       && HasRole(st.users[i], FindRole(st.roles, DoctorRoleName).value.id)
  {
    var role := FindRole(st.roles, DoctorRoleName);
    if role.None? then NotFound(RoleEntity)
    else
      var rows := DoctorRows(st.users, role.value.id);
      assert forall k :: 0 <= k < |rows| ==> rows[k] in rows;
      Ok(rows)
  }
}

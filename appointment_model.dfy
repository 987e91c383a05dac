/** The `Appointment` schema: the stored record, its status enum with the
    default, and the validators `save()` runs. */
module AppointmentModel {
  import opened Common

  /** The three values the `status` enum admits. */
  datatype Status = Scheduled | Completed | Cancelled

  function StatusName(s: Status): (r: string)
    ensures r in {"scheduled", "completed", "cancelled"}
    ensures |r| >= 9
  {
    match s
    case Scheduled => "scheduled"
    case Completed => "completed"
    case Cancelled => "cancelled"
  }

  /** Membership in `['scheduled', 'completed', 'cancelled']`: the only strings
      the enum validator (and the controllers' status checks) accept. */
  function ParseStatus(s: Option<string>): (r: Option<Status>)
    ensures r.Some? <==> s.Some? && s.value in {"scheduled", "completed", "cancelled"}
    ensures r.Some? ==> StatusName(r.value) == s.value
  {
    if s == Some("scheduled") then Some(Scheduled)
    else if s == Some("completed") then Some(Completed)
    else if s == Some("cancelled") then Some(Cancelled)
    else None
  }

  /** Every status reads back as itself, and distinct statuses have distinct names. */
  lemma StatusRoundTrip(st: Status, st': Status)
    ensures ParseStatus(Some(StatusName(st))) == Some(st)
    ensures StatusName(st) == StatusName(st') ==> st == st'
  {
  }

  /** A stored appointment. `createdAt`/`updatedAt` come from the `timestamps`
      option; `notes` is the one optional path. */
  datatype Appointment = Appointment(
    id: AppointmentId,
    patientId: UserId,
    doctorId: UserId,
    date: Instant,
    time: string,
    reason: string,
    status: Status,
    notes: Option<string>,
    createdAt: Instant,
    updatedAt: Instant)

  /** What a controller assigns to an appointment document before `save()`;
      `None` is an undefined value. */
  datatype AppointmentFields = AppointmentFields(
    patientId: Option<UserId>,
    doctorId: Option<UserId>,
    date: Option<Instant>,
    time: Option<string>,
    reason: Option<string>,
    status: Option<string>,
    notes: Option<string>)

  /** An appointment every validator accepts: the required strings are non-empty. */
  predicate WellFormed(a: Appointment) {
    a.time != "" && a.reason != ""
  }

  /** The schema paths whose validators reject `f`: the five required paths,
      and `status` when it is given but outside the enum. */
  function FailingPaths(f: AppointmentFields): (r: set<string>)
    ensures r == {} <==> (f.patientId.Some? && f.doctorId.Some? && f.date.Some?
                          && RequiredString(f.time) && RequiredString(f.reason)
                          && (f.status.None? || ParseStatus(f.status).Some?))
  {
    (if f.patientId.None? then {"patientId"} else {})
    + (if f.doctorId.None? then {"doctorId"} else {})
    + (if f.date.None? then {"appointmentDate"} else {})
    + (if RequiredString(f.time) then {} else {"appointmentTime"})
    + (if RequiredString(f.reason) then {} else {"reasonForVisit"})
    + (if f.status.None? || ParseStatus(f.status).Some? then {} else {"status"})
  }

  /** `save()` of a new appointment document: validation, the `status` default,
      and the timestamps set to the save time. */
  function Validate(f: AppointmentFields, id: AppointmentId, now: Instant): (r: Validated<Appointment>)
    ensures r.Invalid? <==> FailingPaths(f) != {}
    ensures r.Invalid? ==> r.paths == FailingPaths(f)
    ensures r.Valid? ==> WellFormed(r.value) && r.value.id == id
                         && r.value.createdAt == now && r.value.updatedAt == now
    ensures r.Valid? && f.status.None? ==> r.value.status == Scheduled
  {
    var paths := FailingPaths(f);
    if paths != {} then Invalid(paths)
    else
      var status := if f.status.None? then Scheduled else ParseStatus(f.status).value;
      Valid(Appointment(id, f.patientId.value, f.doctorId.value, f.date.value, f.time.value,
                        f.reason.value, status, f.notes, now, now))
  }

  /** The fields that rebuild a stored appointment. */
  function FieldsOf(a: Appointment): AppointmentFields {
    AppointmentFields(Some(a.patientId), Some(a.doctorId), Some(a.date), Some(a.time),
                      Some(a.reason), Some(StatusName(a.status)), a.notes)
  }

  /** Validation accepts exactly the well-formed appointments, and keeps every
      field it is given. */
  lemma ValidateFieldsOf(a: Appointment)
    ensures Validate(FieldsOf(a), a.id, a.createdAt).Valid? <==> WellFormed(a)
    ensures WellFormed(a) && a.createdAt == a.updatedAt
            ==> Validate(FieldsOf(a), a.id, a.createdAt) == Valid(a)
  {
    StatusRoundTrip(a.status, a.status);
  }

  /** Whatever validation stores came from the fields it was given. */
  lemma ValidateKeepsFields(f: AppointmentFields, id: AppointmentId, now: Instant)
    requires Validate(f, id, now).Valid?
    ensures var a := Validate(f, id, now).value;
            FieldsOf(a) == f.(status := Some(StatusName(a.status)))
            && (f.status.Some? ==> FieldsOf(a) == f)
  {
  }

  /** An appointment kept inside a user's or patient's own `appointments`
      array, as `patientController.js` builds it; `id` is the sub-document id. */
  datatype EmbeddedAppointment = EmbeddedAppointment(
    id: SubdocId,
    userId: UserId,
    date: Option<Instant>,
    reason: Option<string>,
    status: Status,
    doctorId: UserId)
}

/** The `Patient` schema: the patient extension record kept beside a user,
    its defaults and the validator of its visit-history entries. */
module PatientModel {
  import opened Common
  import opened AppointmentModel
  import DateHelper

  /** One `visitHistory` entry; `doctorId` and `visitDate` are required. */
  datatype Visit = Visit(
    doctorId: Option<UserId>,
    visitDate: Option<Instant>,
    reason: Option<string>,
    prescription: Option<string>)

  /** A stored patient record. `appointments` is the embedded array the
      corrected `patientController` operations work on; models/patient.js does
      not declare it. */
  datatype PatientRecord = PatientRecord(
    id: PatientId,
    userId: UserId,
    medicalHistory: seq<string>,
    notes: Option<string>,
    visitHistory: seq<Visit>,
    nextAppointment: Option<Instant>,
    createdAt: Instant,
    updatedAt: Instant,
    appointments: seq<EmbeddedAppointment>)

  /** What a controller passes to `new Patient({...})`; `None` is undefined.
      Paths the schema does not declare (such as `addlInfo`) have no field:
      strict mode drops them. */
  datatype PatientFields = PatientFields(
    userId: Option<UserId>,
    medicalHistory: Option<seq<string>>,
    notes: Option<string>,
    visitHistory: seq<Visit>,
    nextAppointment: Option<Instant>)

  predicate VisitValid(v: Visit) {
    v.doctorId.Some? && v.visitDate.Some?
  }

  /** The paths whose validators reject `f`: `userId`, and the two required
      paths of every visit entry, reported as `visitHistory.<i>.<path>`. */
  function FailingPaths(f: PatientFields): (r: set<string>)
    ensures r == {} <==> f.userId.Some? && forall i :: 0 <= i < |f.visitHistory| ==> VisitValid(f.visitHistory[i])
  {
    (if f.userId.Some? then {} else {"userId"}) + VisitPaths(f.visitHistory, 0)
  }

  /** Failing visit paths of entries `from ..` of `vs`. */
  function VisitPaths(vs: seq<Visit>, from: nat): (r: set<string>)
    requires from <= |vs|
    ensures r == {} <==> forall i :: from <= i < |vs| ==> VisitValid(vs[i])
    decreases |vs| - from
  {
    if from == |vs| then {}
    else
      (if vs[from].doctorId.Some? then {} else {"visitHistory." + DateHelper.NatToDecimal(from) + ".doctorId"})
      + (if vs[from].visitDate.Some? then {} else {"visitHistory." + DateHelper.NatToDecimal(from) + ".visitDate"})
      + VisitPaths(vs, from + 1)
  }

  /** `patient.save()` of a new record: validation, the `medicalHistory`
      default and the timestamps. */
  function Validate(f: PatientFields, id: PatientId, now: Instant): (r: Validated<PatientRecord>)
    ensures r.Invalid? <==> FailingPaths(f) != {}
    ensures r.Valid? ==> r.value.userId == f.userId.value && r.value.id == id
                         && r.value.createdAt == now && r.value.updatedAt == now
                         && r.value.visitHistory == f.visitHistory
                         && r.value.notes == f.notes && r.value.nextAppointment == f.nextAppointment
                         && r.value.appointments == []
    ensures r.Valid? ==> (f.medicalHistory.None? ==> r.value.medicalHistory == [])
                         && (f.medicalHistory.Some? ==> r.value.medicalHistory == f.medicalHistory.value)
  {
    if FailingPaths(f) != {} then Invalid(FailingPaths(f))
    else
      Valid(PatientRecord(id, f.userId.value,
                          if f.medicalHistory.None? then [] else f.medicalHistory.value,
                          f.notes, f.visitHistory, f.nextAppointment, now, now, []))
  }

  /** The record `createAppointment` creates for a user without one: empty
      history lists, empty notes and no next appointment. */
  function FirstVisitFields(userId: UserId): PatientFields {
    PatientFields(Some(userId), Some([]), Some(""), [], None)
  }

  /** The record created on a first booking always passes validation, and
      carries the defaults for `userId`. */
  lemma FirstVisitRecordValid(userId: UserId, id: PatientId, now: Instant)
    ensures Validate(FirstVisitFields(userId), id, now).Valid?
    ensures var p := Validate(FirstVisitFields(userId), id, now).value;
            p.userId == userId && p.medicalHistory == [] && p.visitHistory == []
            && p.notes == Some("") && p.nextAppointment.None?
  {
  }

  /** An entry missing its doctor or its date makes the whole record invalid. */
  lemma InvalidVisitRejects(f: PatientFields, i: int, id: PatientId, now: Instant)
    requires 0 <= i < |f.visitHistory| && !VisitValid(f.visitHistory[i])
    ensures Validate(f, id, now).Invalid?
  {
  }
}

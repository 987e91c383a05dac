/** `PatientResource.toJSON`: the projection of an appointment whose
    `patientId` and `doctorId` were populated with the user documents. */
module PatientResource {
  import opened Common
  import opened Text
  import opened ChangeCase
  import opened DateHelper
  import opened AppointmentModel
  import opened UserModel

  /** An appointment with its populated references; `None` where populate
      found no user. */
  datatype Populated = Populated(appt: Appointment, patient: Option<User>, doctor: Option<User>)

  /** The renderings the projection calls: `formatDate`, `formatOnlyDate` on
      the appointment date and on a date of birth, and the current day. */
  datatype Renderers = Renderers(
    formatDate: Instant -> string,
    formatOnlyDate: Instant -> string,
    formatDob: Option<Date> -> string,
    today: Date)

  /** The two shapes `toJSON` returns: without a patient (its id `null`), and
      with the flattened patient and doctor fields. */
  datatype Projection =
    | Unlinked(
        appointmentId: AppointmentId,
        appointmentDateTime: string,
        reason: string,
        status: Option<string>,
        notes: Option<string>,
        createdAt: string,
        updatedAt: string,
        doctorId: Option<UserId>)
    | Linked(
        appointmentId: AppointmentId,
        appointmentDateTime: string,
        reason: string,
        status: Option<string>,
        notes: Option<string>,
        createdAt: string,
        updatedAt: string,
        patientId: UserId,
        patientName: Option<string>,
        patientNameAge: string,
        patientGender: Option<string>,
        patientDob: string,
        patientMobile: Option<string>,
        patientCreatedAt: string,
        patientUpdatedAt: string,
        patientAge: string,
        doctorId: Option<UserId>,
        doctorName: Option<string>,
        doctorMobile: Option<string>)

  /** `notes || null`. */
  function NotesOrNull(notes: Option<string>): (r: Option<string>)
    ensures r.Some? <==> Truthy(notes)
    ensures r.Some? ==> r == notes
  {
    if Truthy(notes) then notes else None
  }

  /** A template literal of a value that may be undefined. */
  function Interpolate(v: Option<string>): string {
    if v.None? then "undefined" else v.value
  }

  /** `toJSON`; `None` when it throws, which it does when a patient is
      present and the doctor is not (lines 84-85 read a path of `null`). */
  function ToJson(p: Populated, rd: Renderers): (r: Option<Projection>)
    ensures r.None? <==> p.patient.Some? && p.doctor.None?
    ensures r.Some? ==> (r.value.Unlinked? <==> p.patient.None?)
    ensures r.Some? ==> r.value.appointmentId == p.appt.id && r.value.reason == p.appt.reason
    ensures r.Some? ==> r.value.doctorId == (if p.doctor.None? then None else Some(p.doctor.value.id))
    ensures r.Some? ==> (r.value.notes.Some? <==> Truthy(p.appt.notes))
                        && (r.value.notes.Some? ==> r.value.notes == p.appt.notes)
    ensures r.Some? ==> var d := rd.formatOnlyDate(p.appt.date);
                        var s := r.value.appointmentDateTime;
                        |s| == |d| + 1 + |p.appt.time| && s[..|d|] == d && s[|d|] == ' '
                        && s[|d| + 1..] == p.appt.time
    ensures r.Some? && r.value.Linked? ==> (r.value.patientId == p.patient.value.id
                                           && r.value.patientAge == CalculateAge(p.patient.value.dob, rd.today))
  {
    var a := p.appt;
    var dateTime := rd.formatOnlyDate(a.date) + " " + a.time;
    var status := ToUpperCase(Some(StatusName(a.status)));
    var notes := NotesOrNull(a.notes);
    var doctorId := if p.doctor.None? then None else Some(p.doctor.value.id);
    if p.patient.None? then
      Some(Unlinked(a.id, dateTime, a.reason, status, notes, rd.formatDate(a.createdAt),
                    rd.formatDate(a.updatedAt), doctorId))
    else if p.doctor.None? then None
    else
      var u := p.patient.value;
      var age := CalculateAge(u.dob, rd.today);
      Some(Linked(a.id, dateTime, a.reason, status, notes, rd.formatDate(a.createdAt),
                  rd.formatDate(a.updatedAt), u.id, u.name, Interpolate(u.name) + " (" + age + ")",
                  u.gender, rd.formatDob(u.dob), u.mobile, rd.formatDate(u.createdAt),
                  rd.formatDate(u.updatedAt), age, doctorId, p.doctor.value.name, p.doctor.value.mobile))
  }

  /** `toJSON` as written: both branches call `formatOnlyDate` (lines 26 and
      54), which helper/dateHelper.js does not define, so every call throws. */
  function ToJsonAsWritten(p: Populated): Option<Projection> {
    None
  }

  /** As written, `toJSON` throws even on every appointment `ToJson` projects. */
  lemma ToJsonAsWrittenThrows(p: Populated, rd: Renderers)
    ensures ToJsonAsWritten(p).None?
    ensures p.patient.None? || p.doctor.Some? ==> ToJson(p, rd).Some? && ToJson(p, rd) != ToJsonAsWritten(p)
  {
  }

  /** Status names are lower-case ASCII letters. */
  lemma StatusNameLower(st: Status)
    ensures IsLowerCase(StatusName(st))
    ensures forall i :: 0 <= i < |StatusName(st)| ==> 'a' <= StatusName(st)[i] <= 'z'
  {
  }

  /** The emitted status is the upper-cased enum value, in both shapes, and
      lower-casing it gives back the stored status. */
  lemma StatusIsUpperCased(p: Populated, rd: Renderers)
    requires ToJson(p, rd).Some?
    ensures ToJson(p, rd).value.status == ToUpperCase(Some(StatusName(p.appt.status)))
    ensures var s := ToJson(p, rd).value.status.value;
            |s| == |StatusName(p.appt.status)| && forall i :: 0 <= i < |s| ==> 'A' <= s[i] <= 'Z'
    ensures ToLowerCase(ToJson(p, rd).value.status) == Some(StatusName(p.appt.status))
  {
    var name := StatusName(p.appt.status);
    assert ToJson(p, rd).value.status == ToUpperCase(Some(name));
    StatusNameLower(p.appt.status);
    LowerLettersUpperCased(name);
  }

  /** A non-empty word of lower-case ASCII letters upper-cases letter by
      letter, and lower-casing the result gives the word back. */
  lemma LowerLettersUpperCased(name: string)
    requires name != [] && forall i :: 0 <= i < |name| ==> 'a' <= name[i] <= 'z'
    ensures var s := ToUpperCase(Some(name)).value;
            |s| == |name| && forall i :: 0 <= i < |s| ==> 'A' <= s[i] <= 'Z'
    ensures ToLowerCase(ToUpperCase(Some(name))) == Some(name)
  {
    var up := ToUpperCase(Some(name)).value;
    var low := ToLowerCase(Some(up)).value;
    forall i | 0 <= i < |name|
      ensures low[i] == name[i] && 'A' <= up[i] <= 'Z'
    {
      assert up[i] == UpperChar(name[i]);
      CaseMapFacts(name[i]);
    }
    assert low == name;
  }

  /** With a patient, `patientNameAge` is the patient's name followed by the
      age in parentheses, and the age is `calculateAge` of the date of birth. */
  lemma NameAgeText(p: Populated, rd: Renderers)
    requires ToJson(p, rd).Some? && ToJson(p, rd).value.Linked?
    ensures var r := ToJson(p, rd).value;
            var name := Interpolate(p.patient.value.name);
            r.patientNameAge == name + " (" + r.patientAge + ")"
            && (p.patient.value.dob.None? ==> r.patientAge == NoDobMessage)
  {
  }
}

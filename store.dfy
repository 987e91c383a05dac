/** The document store the controllers read and write: the users, roles,
    patient records, appointments and medicines collections, the queries the controllers
    issue against them, and the outcomes a request can have. */
module Store {
  import opened Common
  import opened AppointmentModel
  import opened PatientModel
  import opened UserModel
  import opened MedicineModel

  /** A role document; only its id and `name` matter here. */
  datatype Role = Role(id: RoleId, name: string)

  /** Role names the seeder creates and the controllers look up. */
  const PatientRoleName: string := "patient"
  const UserRoleName: string := "user"
  const DoctorRoleName: string := "doctor"

  /** The contents of the five collections, in natural (insertion) order, and
      the next fresh ObjectId. */
  datatype DbState = DbState(
    users: seq<User>,
    roles: seq<Role>,
    patients: seq<PatientRecord>,
    appointments: seq<Appointment>,
    medicines: seq<Medicine>,
    nextId: nat)

  /** What a 404 reports as missing. */
  datatype Entity = PatientEntity | DoctorEntity | AppointmentEntity | RoleEntity | MedicineEntity

  /** The outcome of a request: 200/201 with a value, 404, 409 with the
      appointment already booked, 400, or 500. */
  datatype Response<T> = Ok(value: T) | NotFound(what: Entity) | Conflict(existing: Appointment) | BadRequest | Internal

  /** A response together with the store it leaves behind. */
  datatype Outcome<T> = Outcome(response: Response<T>, state: DbState)

  /** The first index whose element satisfies `p`: what `findOne` and
      `findById` return on a collection scanned in natural order. */
  function FirstIndex<T>(s: seq<T>, p: T -> bool): (r: Option<nat>)
    ensures r.Some? ==> r.value < |s| && p(s[r.value]) && forall j :: 0 <= j < r.value ==> !p(s[j])
    ensures r.None? ==> forall j :: 0 <= j < |s| ==> !p(s[j])
  {
    if s == [] then None
    else if p(s[0]) then Some(0)
    else
      var rest := FirstIndex(s[1..], p);
      if rest.None? then None else Some(rest.value + 1)
  }

  /** `User.findById(id)`; an undefined id finds nothing. */
  function FindUser(users: seq<User>, id: Option<UserId>): (r: Option<nat>)
    ensures r.Some? ==> id.Some? && r.value < |users| && users[r.value].id == id.value
    ensures r.None? ==> id.None? || forall j :: 0 <= j < |users| ==> users[j].id != id.value
  {
    if id.None? then None else FirstIndex(users, (u: User) => u.id == id.value)
  }

  /** `Role.findOne({ name })`. */
  function FindRole(roles: seq<Role>, name: string): (r: Option<Role>)
    ensures r.Some? ==> r.value in roles && r.value.name == name
    ensures r.None? ==> forall j :: 0 <= j < |roles| ==> roles[j].name != name
  {
    var i := FirstIndex(roles, (x: Role) => x.name == name);
    if i.None? then None else Some(roles[i.value])
  }

  /** `Patient.findOne({ userId })`. */
  function FindPatientOf(patients: seq<PatientRecord>, userId: Option<UserId>): (r: Option<nat>)
    ensures r.Some? ==> userId.Some? && r.value < |patients| && patients[r.value].userId == userId.value
    ensures r.None? ==> userId.None? || forall j :: 0 <= j < |patients| ==> patients[j].userId != userId.value
  {
    if userId.None? then None else FirstIndex(patients, (p: PatientRecord) => p.userId == userId.value)
  }

  /** `Appointment.findById(id)`. */
  function FindAppointment(appts: seq<Appointment>, id: Option<AppointmentId>): (r: Option<nat>)
    ensures r.Some? ==> id.Some? && r.value < |appts| && appts[r.value].id == id.value
    ensures r.None? ==> id.None? || forall j :: 0 <= j < |appts| ==> appts[j].id != id.value
  {
    if id.None? then None else FirstIndex(appts, (a: Appointment) => a.id == id.value)
  }

  /** An appointment that blocks a new booking for the pair. */
  predicate BlocksBooking(a: Appointment, patientId: UserId, doctorId: UserId) {
    a.patientId == patientId && a.doctorId == doctorId && a.status == Scheduled
  }

  /** `Appointment.findOne({ patientId, status: 'scheduled', doctorId })`. */
  function FindScheduled(appts: seq<Appointment>, patientId: UserId, doctorId: UserId): (r: Option<nat>)
    ensures r.Some? ==> r.value < |appts| && BlocksBooking(appts[r.value], patientId, doctorId)
    ensures r.None? ==> forall j :: 0 <= j < |appts| ==> !BlocksBooking(appts[j], patientId, doctorId)
  {
    FirstIndex(appts, (a: Appointment) => BlocksBooking(a, patientId, doctorId))
  }

  /** Identifiers are unique within each collection and below the next fresh
      id, and every stored appointment passed validation. */
  predicate Consistent(st: DbState) {
    && (forall i, j :: 0 <= i < j < |st.users| ==> st.users[i].id != st.users[j].id)
    && (forall i :: 0 <= i < |st.patients| ==> st.patients[i].id < st.nextId)
    && (forall i, j :: 0 <= i < j < |st.patients| ==> st.patients[i].id != st.patients[j].id)
    && (forall i :: 0 <= i < |st.appointments| ==> st.appointments[i].id < st.nextId)
    && (forall i, j :: 0 <= i < j < |st.appointments| ==> st.appointments[i].id != st.appointments[j].id)
    && (forall i :: 0 <= i < |st.appointments| ==> WellFormed(st.appointments[i]))
    && (forall i :: 0 <= i < |st.medicines| ==> st.medicines[i].id < st.nextId)
    && (forall i, j :: 0 <= i < j < |st.medicines| ==> st.medicines[i].id != st.medicines[j].id)
  }

  /** The in-memory store: one field per collection, updated in place by the
      controller operations. */
  class Db {
    var users: seq<User>
    var roles: seq<Role>
    var patients: seq<PatientRecord>
    var appointments: seq<Appointment>
    var medicines: seq<Medicine>
    var nextId: nat

    constructor (st: DbState)
      ensures State() == st
    {
      users := st.users;
      roles := st.roles;
      patients := st.patients;
      appointments := st.appointments;
      medicines := st.medicines;
      nextId := st.nextId;
    }

    /** The collections as a value. */
    function State(): DbState
      reads this
    {
      DbState(users, roles, patients, appointments, medicines, nextId)
    }
  }
}

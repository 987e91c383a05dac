/** Values shared by every module of the clinic model: optional values and
    the identifier and time types of the document store. */
module Common {

  /** An optional value: `None` stands for JavaScript's `undefined`/`null`. */
  datatype Option<+T> = None | Some(value: T)

  /** Outcome of a Mongoose validation: the document as it would be stored, or
      the set of schema paths whose validators failed. */
  datatype Validated<T> = Valid(value: T) | Invalid(paths: set<string>)

  /** Mongoose's `required` validator on a string path: undefined, null and
      the empty string all fail. */
  predicate RequiredString(v: Option<string>) {
    v.Some? && v.value != ""
  }

  /** A point in time, in milliseconds since the Unix epoch. */
  type Instant = int

  /** Document identifiers (MongoDB ObjectIds), one type per collection. */
  type UserId = nat
  type RoleId = nat
  type AppointmentId = nat
  type PatientId = nat
  type SubdocId = nat
}

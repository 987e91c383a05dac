# Clinic booking back end: a Dafny model

This project models the core of an Express/Mongoose back end for a clinic. It
covers three request-handler groups, the schemas they write and the helpers
they call:

- **Appointments** (`controllers/appointmentController.js`):
  - booking, with its patient-record creation, role promotion and
    double-booking check;
  - cancelling, rescheduling, deleting and the status update;
  - the booked-slot query, the text search and the paginated listing.
- **Embedded appointments and the doctor list** (`controllers/patientController.js`).
- **Medicines** (`controllers/medicineController.js`): saving one with its
  comma lists split and capitalised, updating one, and the paginated listing.
- **Helpers and schemas**:
  - the response projection `PatientResource.toJSON`;
  - the case helpers of `helper/changeCase.js`;
  - `calculateAge` of `helper/dateHelper.js`;
  - the `Appointment`, `User`, `Patient` and `Medication` schemas, with their
    validators.

**Layout.** The database is a class `Store.Db` with one `seq` field per
collection. Every handler that writes is a method that `modifies db`. Each
such method is proved equal to a pure transition function over
`Store.DbState`, which returns the response together with the new state.
The read-only handlers are functions over `Store.DbState`: the appointment
listing, the booked-slot query, the medicine listing and the doctor list.
The text search is a method that changes nothing; it is proved equal to
such a function. The properties of the handlers are lemmas about those
functions:

- which checks run first;
- what a success writes;
- that ids stay unique and stored documents stay valid (`Consistent`);
- that a (patient, doctor) pair has at most one scheduled appointment;
- idempotence;
- that the pages of a listing cover the collection.

The helpers are pure functions. Their contracts state what each returns,
character by character. Lemmas prove these facts about them:

- the round trips (split then join, status name then parse, decimal
  rendering then reading);
- idempotence;
- the bounds of the age arithmetic.

**Parameters, not code.** These inputs come from outside the model:

- the clock (`now`, `today`);
- the search `RegExp`;
- the date renderers `formatDate`, `formatOnlyDate` and `parseUserInputDate`.

helper/dateHelper.js defines only `formatDate` and `calculateAge`, so the
handlers and `PatientResource.toJSON` that call `formatOnlyDate` or
`parseUserInputDate` throw as written. Each of them is modelled twice: an
`...AsWritten` member with the 500 that throw gives, and the handler with a
working renderer passed in, which is the corrected one the rest of the
model builds on (see "## Findings").

Responses are a datatype:

- `Ok`;
- `NotFound(entity)`;
- `Conflict(existing appointment)`;
- `BadRequest`;
- `Internal`, which stands for every 500, including the ones a thrown
  JavaScript error leads to.

## Model

| member | source | states |
|---|---|---|
| Text.UpperChar | helper/changeCase.js:53-57 | ASCII lower-case letters map to upper-case letters; every other character is unchanged |
| Text.LowerChar | helper/changeCase.js:60-64 | ASCII upper-case letters map to lower-case letters; every other character is unchanged |
| Text.CaseMapFacts | helper/changeCase.js:9 | case mapping is idempotent, each mapping absorbs the other, and spaces and whitespace are preserved |
| Text.Upper | helper/changeCase.js:55 | `toUpperCase` keeps the length and maps every position |
| Text.Lower | helper/changeCase.js:9 | `toLowerCase` keeps the length and maps every position |
| Text.Without | helper/changeCase.js:34 | the result has no occurrence of the character, and the length drops by exactly its count |
| Text.Split | helper/changeCase.js:10 | `split(' ')` yields one piece more than there are separators, and no piece contains the separator |
| Text.JoinSplit | helper/changeCase.js:10-12 | joining the pieces of a split with the same separator rebuilds the string |
| Text.TrimStart | helper/changeCase.js:5 | the result is a suffix with no leading whitespace, and everything cut off is whitespace |
| Text.TrimEnd | helper/changeCase.js:5 | the result is a prefix with no trailing whitespace, and everything cut off is whitespace |
| Text.Trim | helper/changeCase.js:5 | the trimmed text neither starts nor ends with whitespace |
| Text.TrimIsSlice | helper/changeCase.js:5 | `trim` keeps a contiguous slice, and everything outside it is whitespace |
| Text.TrimIdempotent | helper/changeCase.js:5 | trimming twice equals trimming once |
| Text.Utf16Length | models/user.js:8-39 | JavaScript's `length` counts between one and two code units per character, and exactly one per character only when every character lies in the Basic Multilingual Plane |
| Text.Utf16LengthConcat | models/user.js:8 | the code units of a concatenation are those of its parts |
| ChangeCase.CapitalizeText | helper/changeCase.js:3-12 | on a truthy string: the result has the length of the de-dotted, trimmed text, and each word's first letter is upper-case while the rest is lower-case |
| ChangeCase.CapitalizeTextTrimmed | helper/changeCase.js:5-12 | the title-cased text has no whitespace at either end |
| ChangeCase.CapitalizeWords | helper/changeCase.js:2-15 | a falsy argument is returned unchanged; a string stays a string; a truthy string is title-cased |
| ChangeCase.SentenceCase | helper/changeCase.js:19-23 | defined exactly for truthy strings; the first character is upper-cased, the rest lower-cased, and the length is kept |
| ChangeCase.SentenceCaseIdempotent | helper/changeCase.js:19-23 | sentence-casing twice equals sentence-casing once |
| ChangeCase.ToCamelCase | helper/changeCase.js:26-36 | the lower-cased text with every word after the first capitalised and all spaces removed; no spaces remain, and the length drops by the number of spaces |
| ChangeCase.CollapseWhitespace | helper/changeCase.js:41 | `replace(/\s+/g, sep)` leaves no whitespace, never grows the text, is empty only for empty input, and keeps lower-case text lower-case |
| ChangeCase.CollapseRun | helper/changeCase.js:41 | one maximal whitespace run between two texts becomes exactly one separator |
| ChangeCase.ToSnakeCase | helper/changeCase.js:39-43 | defined exactly for truthy strings; the result is lower-case, has no whitespace and is no longer than the input |
| ChangeCase.ToKebabCase | helper/changeCase.js:46-50 | defined exactly for truthy strings; the result is lower-case, has no whitespace and is no longer than the input |
| ChangeCase.LowerConcat | helper/changeCase.js:41 | `toLowerCase` of a concatenation is the concatenation of the lower-cased parts |
| ChangeCase.LowerCollapseRun | helper/changeCase.js:41 | after lower-casing, a whitespace run between two words becomes one separator and each side is converted on its own |
| ChangeCase.LowerCollapseWord | helper/changeCase.js:41 | text without whitespace is only lower-cased |
| ChangeCase.SnakeCaseRun | helper/changeCase.js:39-43 | a whitespace run between two words becomes one `_` joining the snake-cased words |
| ChangeCase.KebabCaseRun | helper/changeCase.js:46-50 | a whitespace run between two words becomes one `-` joining the kebab-cased words |
| ChangeCase.CaseOfWord | helper/changeCase.js:39-50 | a non-empty word without whitespace comes out of snake case and kebab case only lower-cased |
| ChangeCase.CollapsedLowerIsLower | helper/changeCase.js:41 | lower-casing and then collapsing whitespace gives lower-case text |
| ChangeCase.SnakeCaseIdempotent | helper/changeCase.js:39-43 | converting to snake case twice equals converting once |
| ChangeCase.KebabCaseIdempotent | helper/changeCase.js:46-50 | converting to kebab case twice equals converting once |
| ChangeCase.ToUpperCase | helper/changeCase.js:53-57 | defined exactly for truthy strings, character by character |
| ChangeCase.ToLowerCase | helper/changeCase.js:60-64 | defined exactly for truthy strings, character by character |
| ChangeCase.UpperCaseIdempotent | helper/changeCase.js:53-57 | upper-casing twice equals upper-casing once |
| ChangeCase.LowerCaseIdempotent | helper/changeCase.js:60-64 | lower-casing twice equals lower-casing once |
| DateHelper.ComputeAge | helper/dateHelper.js:34-49 | the differences and the two borrows, step by step, give the as-written age; months lie in -1..11 and days in -2..30 |
| DateHelper.AgeBounds | helper/dateHelper.js:39-49 | the printed months are always in -1..11 and the printed days in -2..30 |
| DateHelper.AgeTotalMonths | helper/dateHelper.js:34-49 | years times 12 plus months is the calendar month difference, minus one when the day is borrowed |
| DateHelper.AgeYearBorrow | helper/dateHelper.js:39-42 | a year is borrowed exactly when the current month precedes the birth month |
| DateHelper.NegativeMonthsIff | helper/dateHelper.js:39-49 | months print as -1 exactly in the birth month before the birthday |
| DateHelper.NegativeMonthsExample | helper/dateHelper.js:39-49 | born 20 May 2000, on 10 May 2024 the age prints 24 years, -1 months, 20 days |
| DateHelper.NegativeDaysExample | helper/dateHelper.js:45-49 | born 31 January 2000, on 1 March 2023 the days print as -2 |
| DateHelper.AgeCorrected | helper/dateHelper.js:34-49 | normalised age: months in 0..11, days in 0..30, the whole-month count kept, and no day borrow when the day has been reached |
| DateHelper.CorrectedAgreesWhenNormal | helper/dateHelper.js:34-49 | the corrected age equals the as-written one whenever the latter has non-negative months and days and a borrowed birth day fits in the previous month |
| DateHelper.NatToDecimal | helper/dateHelper.js:51 | a numeral of at least one digit, with no leading zero |
| DateHelper.DecimalRoundTrip | helper/dateHelper.js:51 | reading the numeral back gives the number |
| DateHelper.IntToDecimal | helper/dateHelper.js:51 | template rendering of an integer: a minus sign exactly for negatives, then the digits of its magnitude |
| DateHelper.CalculateAge | helper/dateHelper.js:26-52 | the "not provided" message exactly when there is no date of birth, otherwise the text of the as-written age |
| AppointmentModel.StatusName | models/appointment.js:27-31 | every status name is one of the three enum strings `scheduled`, `completed` and `cancelled` |
| AppointmentModel.ParseStatus | models/appointment.js:29 | only the three enum strings are accepted, and each one names the status it parses to |
| AppointmentModel.StatusRoundTrip | models/appointment.js:29 | name then parse is the identity, and names are distinct |
| AppointmentModel.FailingPaths | models/appointment.js:5-26 | no path fails exactly when both ids and the date are present and time and reason are non-empty strings |
| AppointmentModel.Validate | models/appointment.js:3-42 | invalid exactly when some path fails, reporting those paths; a valid document is well-formed, gets the id and timestamps, and defaults to `scheduled` |
| AppointmentModel.ValidateFieldsOf | models/appointment.js:3-42 | re-validating a stored appointment's own fields succeeds exactly when it is well-formed |
| AppointmentModel.ValidateKeepsFields | models/appointment.js:3-42 | every stored field comes from the fields validated |
| UserModel.DomainHasNoAt | models/user.js:29 | a domain the email pattern accepts contains no `@` |
| UserModel.EmailExampleAccepted | models/user.js:28-31 | `jo.ann@clinic.in` matches the email pattern |
| UserModel.EmailExampleRefused | models/user.js:28-31 | `jo@localhost` does not match: the domain needs a dot and a top label of at least two letters |
| UserModel.OneAt | models/user.js:29 | an address with a single `@` and a domain that is not a domain part is refused |
| UserModel.FailingPaths | models/user.js:3-40 | no path fails exactly when the name (at most 150), gender, mobile number, email (at most 320, matching the pattern) and password (at least 8) are valid, each bound counted in UTF-16 code units |
| UserModel.AstralPasswordLength | models/user.js:39 | four characters above the Basic Multilingual Plane meet the password's `minlength` of 8; four ordinary ones do not |
| UserModel.Save | models/user.js:61-64 | saves exactly the valid users; only `updated_at` changes, and it is set to now |
| UserModel.SaveIgnoresRoles | models/user.js:52-57 | roles and `updated_at` play no part in validation |
| UserModel.SaveIdempotent | models/user.js:61-64 | saving a saved user again at the same instant changes nothing |
| PatientModel.FailingPaths | models/patient.js:3-42 | valid exactly when `userId` is present and every visit has a doctor and a date |
| PatientModel.VisitPaths | models/patient.js:16-34 | no visit path (reported as `visitHistory.<i>.<path>`) fails exactly when every visit from that index on is valid |
| PatientModel.Validate | models/patient.js:3-42 | invalid exactly when some path fails; a valid record keeps the user, visits, notes and next appointment, gets the id and timestamps, and defaults `medicalHistory` to empty |
| PatientModel.FirstVisitRecordValid | controllers/appointmentController.js:238-253 | the record booking creates for a new patient passes validation, with empty medical and visit histories, notes `''` and no next appointment |
| PatientModel.InvalidVisitRejects | models/patient.js:18-26 | a visit without a doctor or a date rejects the whole record |
| Store.FirstIndex | controllers/appointmentController.js:256-262 | `findOne` in natural order: the first match, and none before it |
| Store.FindUser | controllers/appointmentController.js:222 | `User.findById`: the index of the user with that id, or proof that there is none |
| Store.FindRole | controllers/appointmentController.js:163 | `Role.findOne({name})`: a stored role with that name, or none has it |
| Store.FindPatientOf | controllers/appointmentController.js:238 | `Patient.findOne({userId})`: the record of that user, or none exists |
| Store.FindAppointment | controllers/appointmentController.js:361 | `Appointment.findById`: the index of that id, or none has it |
| Store.FindScheduled | controllers/appointmentController.js:256-262 | a scheduled appointment of that patient with that doctor, or none exists |
| Pagination.TotalPages | controllers/medicineController.js:78 | `Math.ceil(total / perPage)`: NaN for 0/0, Infinity for n/0, otherwise the least page count covering the total (the sign follows a negative page size) |
| Pagination.PageOf | controllers/medicineController.js:66-72 | `skip`/`limit`: fails (a 500) exactly for a negative skip; otherwise the slice from skip, limit 0 meaning no limit |
| Pagination.PagesFromSlice | controllers/medicineController.js:66-72 | consecutive pages concatenate to the slice they span |
| Pagination.PagesCoverAll | controllers/medicineController.js:66-78 | pages 1 to `total_pages` together list the whole collection, in order |
| Pagination.SortDirection | controllers/medicineController.js:70 | ascending exactly for `orderBy=asc` |
| Pagination.AppointmentSortDirectionAsWritten | controllers/appointmentController.js:190 | the appointment listing sorts ascending exactly for `orderBy=desc` |
| Pagination.AppointmentSortInverted | controllers/appointmentController.js:190 | for `asc` and for `desc` the appointment listing sorts opposite to the medicine listing, and for every other value both sort descending |
| PatientResource.NotesOrNull | resources/PatientResource.js:62 | `notes || null`: present exactly when the notes are truthy, and then unchanged |
| PatientResource.ToJson | resources/PatientResource.js:8-87 | with a working `formatOnlyDate` (corrected): returns `None` (the throw) exactly when a patient is populated but the doctor is not; the short projection exactly without a patient; the id, reason, doctor id and `notes || null` come from the appointment; the date-time is the rendered date, a space and the time; the patient id and age come from the populated patient |
| PatientResource.ToJsonAsWritten | resources/PatientResource.js:1-54 | as written, `toJSON` throws on every appointment: `formatOnlyDate` is undefined |
| PatientResource.ToJsonAsWrittenThrows | resources/PatientResource.js:22-54 | as written every call throws, including each one the corrected projection answers |
| PatientResource.LowerLettersUpperCased | resources/PatientResource.js:61 | a lower-case ASCII word upper-cases letter by letter, and lower-casing gives it back |
| PatientResource.StatusNameLower | models/appointment.js:29 | the enum strings are lower-case ASCII letters |
| PatientResource.StatusIsUpperCased | resources/PatientResource.js:61 | the projected status is `toUpperCase` of the stored status name: as long as the name, every character an upper-case letter, and lower-casing it gives back the stored name |
| PatientResource.NameAgeText | resources/PatientResource.js:55 | `patientNameAge` is the name, a space, and the `calculateAge` text in parentheses |
| AppointmentController.PromoteRoles | controllers/appointmentController.js:277-282 | the patient role is always present afterwards; a user holding only `user` becomes only `patient`; otherwise every other role keeps its count and the patient role appears once if it was missing |
| AppointmentController.PromoteRolesIdempotent | controllers/appointmentController.js:277-282 | promoting twice equals promoting once |
| AppointmentController.EnsurePatientRecord | controllers/appointmentController.js:238-253 | a user with a record leaves the store unchanged; otherwise exactly one new record for that user is appended, with empty histories, notes `''`, the fresh id and the timestamps, and users, roles and appointments are untouched |
| AppointmentController.PromotePatient | controllers/appointmentController.js:274-285 | without a patient role nothing changes; otherwise the save succeeds exactly when the user passes validation, and only that user changes, keeping its id |
| AppointmentController.EnsurePatientRecordIn | controllers/appointmentController.js:238-253 | the store method leaves the state the transition describes |
| AppointmentController.PromotePatientIn | controllers/appointmentController.js:274-285 | the store method saves exactly when the transition succeeds, leaving its state |
| AppointmentController.CreateAppointment | controllers/appointmentController.js:217-328 | the handler's response and new store are those of the corrected booking transition (`formatOnlyDate` working) |
| AppointmentController.CreateChecksUsersFirst | controllers/appointmentController.js:222-236 | an unknown patient, then an unknown doctor, is a 404 that changes nothing |
| AppointmentController.CreateMakesPatientRecord | controllers/appointmentController.js:238-253 | once both users exist, a patient without a record gets exactly one new record with the first-booking defaults, whatever the response (409 and 500 included) |
| AppointmentController.CreateConflict | controllers/appointmentController.js:256-269 | in the corrected handler, an existing scheduled appointment of the pair is returned as a 409; no appointment is added and no user changes |
| AppointmentController.CreateAsWrittenNeverAnswers | controllers/appointmentController.js:256-328 | as written a booking never answers 201 or 409: once both users exist it is a 500, while the store changes exactly as in the corrected handler, the new appointment included |
| AppointmentController.ClosedAppointmentsDoNotBlock | controllers/appointmentController.js:256-260 | completed or cancelled appointments never cause a 409 |
| AppointmentController.CreateSuccess | controllers/appointmentController.js:287-298 | a success appends exactly one scheduled appointment with an unused id, the requested pair, date and time, and the sentence-cased reason and notes; when a patient role exists, the user now holds it |
| AppointmentController.EnsurePatientRecordConsistent | controllers/appointmentController.js:238-253 | creating the patient record keeps the store consistent |
| AppointmentController.PromotePatientConsistent | controllers/appointmentController.js:274-285 | saving the promoted user keeps the store consistent |
| AppointmentController.AppendAppointment | controllers/appointmentController.js:298 | inserting a well-formed appointment with the fresh id keeps ids unique and documents valid |
| AppointmentController.CreatePreservesConsistent | controllers/appointmentController.js:217-328 | booking keeps the store consistent on every path |
| AppointmentController.BookPreservesConsistent | controllers/appointmentController.js:256-298 | the steps after the record check keep the store consistent |
| AppointmentController.CreatePreservesUniqueScheduled | controllers/appointmentController.js:256-298 | booking never creates a second scheduled appointment for a pair |
| AppointmentController.CancelScheduleAppointment | controllers/appointmentController.js:356-389 | the handler's response and new store are those of the corrected cancel transition (`formatOnlyDate` working), with `updatedAt` set to the clock exactly when `save()` finds the document changed |
| AppointmentController.CancelEffect | controllers/appointmentController.js:361-369 | in the corrected handler, an unknown id is a 404 that changes nothing; a known one becomes `cancelled` with `updatedAt` refreshed, or is returned untouched when already cancelled; all else is unchanged |
| AppointmentController.CancelAsWrittenFails | controllers/appointmentController.js:356-389 | as written a cancel never answers 200: a stored appointment is cancelled in the store and the answer is a 500 |
| AppointmentController.CancelIdempotent | controllers/appointmentController.js:356-389 | cancelling again, at any later time, changes neither the response nor the store |
| AppointmentController.CancelPreservesConsistent | controllers/appointmentController.js:356-389 | cancelling keeps the store consistent |
| AppointmentController.CancelPreservesUniqueScheduled | controllers/appointmentController.js:356-389 | cancelling never creates a second scheduled appointment for a pair |
| AppointmentController.RescheduleAppointment | controllers/appointmentController.js:391-436 | the handler's response and new store are those of the corrected reschedule transition (`formatOnlyDate` working), with `updatedAt` set to the clock exactly when a field changed |
| AppointmentController.RescheduleOverwrites | controllers/appointmentController.js:397-416 | an unknown appointment, then a given but unknown doctor, is a 404 that changes nothing; success exactly when appointment and doctor exist, a date and a non-empty time are given and the reason is truthy; a success overwrites exactly date, time, doctor and reason and refreshes `updatedAt` when one of them changed; no other appointment changes |
| AppointmentController.RescheduleAsWrittenFails | controllers/appointmentController.js:391-436 | as written a reschedule never answers 200: where the corrected one succeeds, the new date is stored and the answer is a 500 |
| AppointmentController.RescheduleWithoutDoctorFails | controllers/appointmentController.js:402-416 | without a doctor id the required validator fails: a 500 that changes nothing |
| AppointmentController.RescheduleCanDoubleBook | controllers/appointmentController.js:391-436 | a reschedule may leave two scheduled appointments for one pair |
| AppointmentController.FindOwnedAppointment | controllers/appointmentController.js:480-484 | the appointment with that id and that patient, or none matches both |
| AppointmentController.UpdateStatusAsWrittenNeverSucceeds | controllers/appointmentController.js:457-506 | as written, no request succeeds or changes the store: `populate('appointments')` on a path the Patient schema does not declare is rejected, so a valid status for an existing record is a 500 |
| AppointmentController.UpdateAppointmentStatus | controllers/appointmentController.js:457-506 | the handler's response and new store are those of the corrected status transition, which sets the status and `updatedAt` |
| AppointmentController.UpdateStatusEffect | controllers/appointmentController.js:462-492 | a status outside the enum is a 400; an unknown patient record, then an appointment not owned by that patient, is a 404; none of these changes anything; a found record and owned appointment always succeed, setting that status and `updatedAt` on that appointment and changing no other field or collection |
| AppointmentController.DeleteAppointment | controllers/appointmentController.js:330-354 | the handler's response and new store are those of the delete transition |
| AppointmentController.DeleteRemovesOne | controllers/appointmentController.js:334-343 | a missing id is a 400 and an unknown one a 404, neither changing anything; a stored id is always deleted: exactly that appointment goes, the others keep their order, and no other collection changes |
| AppointmentController.RemoveAtIndex | controllers/appointmentController.js:339 | removing one element keeps the other elements pairwise distinct and in order |
| AppointmentController.DeletePreservesConsistent | controllers/appointmentController.js:330-354 | deleting keeps the store consistent |
| AppointmentController.RemoveAppointment | controllers/appointmentController.js:339 | removing any one appointment keeps the store consistent |
| AppointmentController.DeletePreservesUniqueScheduled | controllers/appointmentController.js:330-354 | deleting never creates a second scheduled appointment for a pair |
| AppointmentController.BookedTimes | controllers/appointmentController.js:439-455 | a time is listed exactly when some scheduled appointment of that doctor and date has it |
| AppointmentController.BookedTimesConcat | controllers/appointmentController.js:443-449 | the slots of a concatenation are the slots of its parts, in order |
| AppointmentController.CreateAddsBookedTime | controllers/appointmentController.js:287-298 | a booking adds its time at the end of that doctor's booked slots for that date |
| AppointmentController.CancelFreesSlot | controllers/appointmentController.js:367-369 | cancelling removes that appointment's time from the booked slots of its doctor and date, and changes no other doctor's or date's slots |
| AppointmentController.Matching | controllers/appointmentController.js:28-94 | the aggregation keeps matching rows in store order, each a joined stored appointment |
| AppointmentController.FormatAll | controllers/appointmentController.js:100-141 | in the corrected handler, the format loop succeeds exactly when every hit has its patient and doctor, and yields one row per hit |
| AppointmentController.SearchBookingDetails | controllers/appointmentController.js:9-150 | the handler, with its loop, returns what the corrected search transition (`parseUserInputDate` and `formatOnlyDate` working) returns |
| AppointmentController.SearchAsWrittenFails | controllers/appointmentController.js:9-20 | as written a search is a 400 exactly where the corrected one is, and a 500 everywhere else |
| AppointmentController.SearchHitsMatch | controllers/appointmentController.js:28-94 | every row of a successful search is a stored appointment matching the pattern and date range |
| AppointmentController.SearchMissesNothing | controllers/appointmentController.js:28-94 | every stored appointment matching the pattern and range is among the rows |
| AppointmentController.SearchRowText | controllers/appointmentController.js:120-139 | each row shows its patient's name, a space and the `calculateAge` text in parentheses; without a date of birth the text ends in the "not provided" message |
| AppointmentController.HoldersOf | controllers/appointmentController.js:172 | exactly the ids of users holding the role |
| AppointmentController.AppointmentsOf | controllers/appointmentController.js:181 | exactly the stored appointments whose patient is in the set, in store order |
| AppointmentController.ProjectAll | controllers/appointmentController.js:201 | in the corrected listing, projection succeeds exactly when every appointment projects; one row per appointment, with matching ids |
| AppointmentController.GetAllAppointmentsErrors | controllers/appointmentController.js:152-215 | in the corrected listing: 404 exactly without a patient role or without patients (a role 404 first); otherwise a success exactly when the skip is non-negative and the page projects |
| AppointmentController.GetAllAppointmentsPage | controllers/appointmentController.js:161-201 | a page lists the patients' appointments from the skip on, in store order, with the full count, `total_pages` and the sort direction line 190 computes (ascending for `desc`) |
| AppointmentController.GetAllAppointmentsAsWrittenEmptyOnly | controllers/appointmentController.js:152-215 | as written only an empty page answers 200, and then as the corrected listing does; every non-empty corrected page is a 500; the 404s agree |
| PatientController.CreateEmbeddedAsWrittenNeverSucceeds | controllers/patientController.js:19-29 | as written, the push into an undeclared array always fails: no success, and the store is unchanged |
| PatientController.CreateEmbeddedAppointment | controllers/patientController.js:5-44 | the handler's response and new store are those of the corrected embedded-booking transition |
| PatientController.CreateEmbeddedEffect | controllers/patientController.js:9-29 | an unknown user is a 404 that changes nothing; otherwise the save succeeds exactly when the user passes validation, and appends one scheduled entry whose doctor is the patient, changing no other user |
| PatientController.SaveIgnoresEmbedded | controllers/patientController.js:28-29 | the embedded list plays no part in the user's validation |
| PatientController.FindPatient | controllers/patientController.js:58 | `Patient.findById`: that record, or none has the id |
| PatientController.UpdateEmbeddedStatusAsWrittenNeverSucceeds | controllers/patientController.js:58-77 | as written, `.appointments.id` on the undeclared list always throws: never a success |
| PatientController.FindEmbedded | controllers/patientController.js:68 | the embedded entry with that id, or none has it |
| PatientController.UpdateEmbeddedAppointmentStatus | controllers/patientController.js:46-91 | the handler's response and new store are those of the corrected status transition, with the record's `updatedAt` set to the clock exactly when the entry changed |
| PatientController.UpdateEmbeddedStatusEffect | controllers/patientController.js:51-77 | an invalid status is a 400 that changes nothing; a success sets exactly that entry's status, refreshes the record's `updatedAt` when the status was a different one (the schema's `timestamps`), and no other record changes |
| PatientController.UpdateEmbeddedStatusNotFound | controllers/patientController.js:58-74 | an unknown record or entry is a 404 that changes nothing |
| PatientController.DoctorRows | controllers/patientController.js:161-170 | a row is listed exactly when some user holds the role, and it carries that user's id, name and timestamps |
| PatientController.DoctorRowsConcat | controllers/patientController.js:161-170 | the rows of a concatenation are the rows of its parts |
| PatientController.GetAllDoctors | controllers/patientController.js:149-184 | 404 exactly without a doctor role; otherwise every row is a user holding that role, and there are no more rows than users |
| MedicineController.SplitByCommaAndCapitalize | controllers/medicineController.js:19-24 | a truthy non-string throws; a falsy value gives `[]`; a string gives one capitalised, trimmed entry per comma piece |
| MedicineController.CapitalizePieces | controllers/medicineController.js:21 | one entry per piece, each the capitalised trimmed piece, itself trimmed |
| MedicineController.CapitalizedIsTrimmed | controllers/medicineController.js:21 | a capitalised string has no whitespace at either end, so the schema's `trim` keeps it |
| MedicineController.ListsOf | controllers/medicineController.js:29-35 | the lists fail exactly when some list field is a truthy non-string |
| MedicineController.SentenceCased | controllers/medicineController.js:36-37 | present exactly for truthy strings: the trimmed sentence-cased text |
| MedicineController.NameOf | controllers/medicineController.js:28 | an absent or empty name stays empty; a non-empty string is title-cased; `0` or `false` is kept as the trimmed text the schema casts it to; the name is trimmed |
| MedicineController.SaveMedicineDetails | controllers/medicineController.js:3-54 | the handler's response and new store are those of the save transition: a 500 for a throwing helper, an empty name or a name in use, otherwise one medicine appended with the next id |
| MedicineController.InsertMedicineIn | controllers/medicineController.js:40 | `save()` on the store: an empty name (required) or a name in use (unique index) is a 500 that changes nothing; otherwise the medicine is appended with the next id |
| MedicineController.SaveFalsyName | controllers/medicineController.js:28-40 | a `medName` of `0` or `false` is saved under its text when that text is free |
| MedicineController.SaveMedicineEffect | controllers/medicineController.js:27-53 | a success appends one medicine with an unused id and a name not taken, non-empty and trimmed; a string list gets one entry per comma plus one; falsy notes and remarks become `null` |
| MedicineController.SavedMedicine | controllers/medicineController.js:27-40 | a saved medicine has the fresh id, the capitalised name (non-empty and not taken), the split lists and the sentence-cased notes and remarks |
| MedicineController.SavePreservesInvariants | controllers/medicineController.js:3-54 | saving keeps ids unique and names unique |
| MedicineController.UpdateMedicineAsWrittenFails | controllers/medicineController.js:115-147 | as written, the update always answers 500 and changes nothing, even for a stored id |
| MedicineController.FindMedicine | controllers/medicineController.js:133 | `findByIdAndUpdate`'s lookup: that medicine, or none has the id |
| MedicineController.Apply | controllers/medicineController.js:119-133 | the update replaces the lists, and replaces the name, notes and remarks only when given |
| MedicineController.UpdateDataOf | controllers/medicineController.js:119-130 | the update document exists exactly when no field makes a helper throw |
| MedicineController.BuildUpdateData | controllers/medicineController.js:119-130 | building the document field by field gives the update document |
| MedicineController.UpdateMedicineById | controllers/medicineController.js:115-147 | the handler's response and new store are those of the corrected update transition |
| MedicineController.UpdateMedicineEffect | controllers/medicineController.js:119-136 | a success keeps the id; a truthy name is stored title-cased and otherwise the old name is kept; the lists are replaced (a missing one becomes empty); truthy notes and remarks are stored sentence-cased and otherwise the old ones are kept; only that medicine is rewritten |
| MedicineController.UpdatePreservesInvariants | controllers/medicineController.js:115-147 | updating keeps ids unique and names unique |
| MedicineController.GetAllMedicines | controllers/medicineController.js:57-91 | a success exactly for a non-negative skip; the count is the collection size; at most `per_page` items, each the stored medicine at skip plus its index |
| MedicineController.MedicinePagesCoverAll | controllers/medicineController.js:57-91 | with a positive page size every page answers, and pages 1 to `total_pages` list every medicine once, in order |

## Left out

- HTTP, authentication middleware, routing, logging and the JSON bodies of the responses. A response is its kind and the document or documents it carries.
- Database I/O is modelled as sequences in one store object. Concurrency between requests is not modelled; each handler runs atomically.
- ObjectId casting errors (a malformed id string) are not modelled. Ids are naturals, and a missing one is `None`.
- Date casting errors are not modelled: an `appointmentDate` that is not a date makes Mongoose raise a CastError (a 500) in booking, rescheduling and the booked-slot query. In the model every date given is a valid `Instant`.
- `parseInt` returning NaN for a missing or non-numeric `page` or `per_page` is not modelled; page numbers are integers.
- The `sort_by` key of both listings is not modelled. Pages are taken in store order, and only the direction each handler computes is reported.
- `formatDate`, `formatOnlyDate` and `parseUserInputDate` are parameters of the corrected handlers. The first depends on the locale. The other two are imported from helper/dateHelper.js, but that file does not define them (its exports list only `formatDate` and `calculateAge`); what calling them does as written is in "## Findings".
- The search `RegExp` is a predicate parameter; regular-expression syntax is not modelled.
- Case mapping covers ASCII letters only; other Unicode characters are left unchanged.
- `calculateAge` takes the current date as a parameter, and dates as a year, a 0-based month and a day.
- The response projections after booking, cancelling and rescheduling (`findById(...).populate(...)` and the response fields) are left out. The corrected handlers return the stored appointment; as written the projection throws (see "## Findings").
- The appointment, user and medication pre-save hooks set `updated_at`. That path is not declared on appointments or medications, so it is dropped there. On users it is modelled in `UserModel.Save`.
- Medicines carry no `createdAt`/`updatedAt`, although models/medication.js:63 turns timestamps on: no property of the model reads them.
- The unique index on user email is not modelled. The unique index on `medName` is (`MedicineController.UniqueNames`).
- User paths that the schema does not declare are not modelled: `display`, `inforce`, `remarks`, `aboutMe`, `first_name`, `middle_name` and `last_name`. The resource reads them, but Mongoose never stores them.
- The `mind` list of the medication schema is never written by the handlers, and keeps its `null` default.
- `populate` is modelled for Mongoose 6 and later, where `strictPopulate` rejects a path the schema does not declare. The status update's `populate('appointments')` is the as-written half of a finding; the corrected transition looks the record up without it.
- The model assumes Mongoose 7 or later: `save()` sets `updatedAt` only when the document changed, `findOneAndUpdate` always sets it, and `undefined` keys of an update document are dropped.
- `getMedicineDetailsById`, `searchMedicineDetails`, `getAppointments`, `getPatientDetails` and `PatientCollection` are left out. They are plain lookups or lists with no state change.
- The scheduled-today roster split is left out: the handlers that would compute it do not exist in the repository.
- MedicineController.SplitByCommaAndCapitalize: a truthy value that is not a string makes `capitalizeWords` call `replace` on a non-string, which throws. The model gives a 500 there rather than a single-element list.
- PatientResource.ToJson: a populated patient without a populated doctor throws at line 84. The model returns `None` (a 500), not a precondition.
- MedicineController.Apply: it assumes Mongoose drops `undefined` keys of an update document, so a missing name, notes or remarks keeps the stored value.
- Text.Trim: its own contract states only that both ends are not whitespace. `Text.TrimIsSlice` states that the result is a slice of the input with only whitespace outside it.
- PatientController.GetAllDoctors: its contract bounds the number of rows. Which rows are returned is stated by `PatientController.DoctorRows`.

## Findings

| source | as written | input that shows it | evidently intended | confidence | as-written member | corrected member |
|---|---|---|---|---|---|---|
| helper/dateHelper.js:39-49 | the month borrow runs before the day borrow, so months can end at -1; days borrow only the length of the month before today, so they can stay negative | born 20 May 2000, today 10 May 2024: "24 years, -1 months, 20 days"; born 31 Jan 2000, today 1 Mar 2023: days -2 | months in 0..11 and days in 0..30 | not executed | DateHelper.NegativeMonthsExample | DateHelper.AgeCorrected |
| controllers/appointmentController.js:190 | `orderBy === 'desc' ? 1 : -1` sorts ascending when descending is asked for | `orderBy=desc` sorts ascending; `orderBy=asc` sorts descending | `orderBy === 'asc' ? 1 : -1`, as the medicine listing does at line 70 | not executed | Pagination.AppointmentSortInverted | Pagination.SortDirection |
| controllers/medicineController.js:122-128 | `splitByCommaAndCapitalize` is local to `saveMedicineDetails` (line 19), so the update throws a ReferenceError and always answers 500 | any update request, including one for a stored id | the same splitter applied to each list field | not executed | MedicineController.UpdateMedicineAsWrittenFails | MedicineController.UpdateMedicineById |
| controllers/patientController.js:28-29 | pushes onto `patient.appointments`, a path the User schema does not declare, so the push throws and nothing is saved | any booking through this handler for an existing user | the entry is stored in an embedded appointments list | not executed | PatientController.CreateEmbeddedAsWrittenNeverSucceeds | PatientController.CreateEmbeddedEffect |
| controllers/appointmentController.js:470 | `populate('appointments')` names a path the Patient schema does not declare; under `strictPopulate` the query is rejected once a record is found, so the handler answers 500 | any valid status for a user with a patient record | look the record up without populating, then write the status | not executed | AppointmentController.UpdateStatusAsWrittenNeverSucceeds | AppointmentController.UpdateStatusEffect |
| controllers/appointmentController.js:20 | `parseUserInputDate` is imported at line 6 but helper/dateHelper.js does not define it, so the call throws | any truthy search query | the query's date range computed, then the lookup | not executed | AppointmentController.SearchAsWrittenFails | AppointmentController.SearchHitsMatch |
| resources/PatientResource.js:26-54 | `formatOnlyDate` is imported at line 1 but not defined, so both branches of `toJSON` throw | any appointment | the date rendered, then the projection | not executed | PatientResource.ToJsonAsWrittenThrows | PatientResource.ToJson |
| controllers/appointmentController.js:266-308 | the 409 message (line 266) and the projection (line 308) call the undefined `formatOnlyDate`: a conflict and a success are both 500, after the patient record, roles and appointment are written | any booking for two existing users | a 409 with the existing appointment, or 201 with the new one | not executed | AppointmentController.CreateAsWrittenNeverAnswers | AppointmentController.CreateSuccess |
| controllers/appointmentController.js:371-379 | the save happens, then the projection throws | a cancel of any stored appointment | 200 with the cancelled appointment | not executed | AppointmentController.CancelAsWrittenFails | AppointmentController.CancelEffect |
| controllers/appointmentController.js:416-426 | the save happens, then the projection throws | a valid reschedule of a stored appointment | 200 with the rescheduled appointment | not executed | AppointmentController.RescheduleAsWrittenFails | AppointmentController.RescheduleOverwrites |
| controllers/appointmentController.js:201 | every `toJSON` throws, so only an empty page answers 200 | any listing whose page holds an appointment | the page projected | not executed | AppointmentController.GetAllAppointmentsAsWrittenEmptyOnly | AppointmentController.GetAllAppointmentsPage |
| controllers/patientController.js:68-74 | `patient.appointments.id(...)` on a Patient record without that path throws | any status update for an existing patient record with a valid status | the entry's status is updated in place | not executed | PatientController.UpdateEmbeddedStatusAsWrittenNeverSucceeds | PatientController.UpdateEmbeddedStatusEffect |

/** The `Medicine` schema: a required, unique, trimmed name, seven lists of
    trimmed strings, and the optional `notes` and `remarks`. */
module MedicineModel {
  import opened Common

  type MedicineId = nat

  /** The seven comma-list paths, in schema order. */
  datatype MedicineLists = MedicineLists(
    kingdom: seq<string>,
    family: seq<string>,
    miasm: seq<string>,
    temperament: seq<string>,
    diathisis: seq<string>,
    thermalReaction: seq<string>,
    personility: seq<string>)

  /** A stored medicine; `None` is the `null` default of `notes` and `remarks`. */
  datatype Medicine = Medicine(
    id: MedicineId,
    medName: string,
    lists: MedicineLists,
    notes: Option<string>,
    remarks: Option<string>)
}

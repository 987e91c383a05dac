/** `medicineController.js`: saving a medicine with its comma lists split and
    capitalised, updating one, and the paginated listing. */
module MedicineController {
  import opened Common
  import opened Text
  import opened ChangeCase
  import opened MedicineModel
  import opened Store
  import opened Pagination

  /** A request-body value as the handlers test it: `Missing` is undefined
      or `null`, `Str` a string (`''` included), `Falsy` a falsy scalar that
      is not a string (`0`, `false`, `NaN`) with `cast` the text a `String`
      schema path makes of it (`"0"`, `"false"`, `"NaN"`), `Other` a truthy
      value that is not a string (a number, an array, an object). */
  datatype BodyValue = Missing | Str(s: string) | Falsy(cast: string) | Other

  predicate BodyTruthy(v: BodyValue) {
    v.Other? || (v.Str? && v.s != "")
  }

  /** Each piece trimmed, then passed through `capitalizeWords`. */
  function CapitalizePieces(pieces: seq<string>): (r: seq<string>)
    ensures |r| == |pieces|
    ensures forall k :: 0 <= k < |r| ==> Some(r[k]) == CapitalizeWords(Some(Trim(pieces[k])))
    ensures forall k :: 0 <= k < |r| ==> Trim(r[k]) == r[k]
  {
    PiecesTrimmed(pieces);
    seq(|pieces|, k requires 0 <= k < |pieces| => CapitalizeWords(Some(Trim(pieces[k]))).value)
  }

  lemma PiecesTrimmed(pieces: seq<string>)
    ensures forall k :: 0 <= k < |pieces| ==>
              Trim(CapitalizeWords(Some(Trim(pieces[k]))).value) == CapitalizeWords(Some(Trim(pieces[k]))).value
  {
    forall k | 0 <= k < |pieces| {
      CapitalizedIsTrimmed(Trim(pieces[k]));
    }
  }

  /** `capitalizeWords` of a string returns a string with nothing to trim. */
  lemma CapitalizedIsTrimmed(s: string)
    ensures Trim(CapitalizeWords(Some(s)).value) == CapitalizeWords(Some(s)).value
  {
    if s != "" {
      assert CapitalizeWords(Some(s)) == Some(CapitalizeText(s));
      CapitalizeTextTrimmed(s);
    } else {
      assert CapitalizeWords(Some(s)).value == "";
      assert Trim("") == "";
    }
  }

  /** `splitByCommaAndCapitalize` (lines 19-24): `None` where it throws,
      which `capitalizeWords` does on a truthy value that is not a string. */
  function SplitByCommaAndCapitalize(v: BodyValue): (r: Option<seq<string>>)
    ensures r.None? <==> v.Other?
    ensures !BodyTruthy(v) ==> r == Some([])
    ensures BodyTruthy(v) && v.Str? ==>
              |r.value| == Count(v.s, ',') + 1
              && forall k :: 0 <= k < |r.value| ==> Some(r.value[k]) == CapitalizeWords(Some(Trim(Split(v.s, ',')[k])))
    ensures r.Some? ==> forall k :: 0 <= k < |r.value| ==> Trim(r.value[k]) == r.value[k]
  {
    match v
    case Missing => Some([])
    case Falsy(_) => Some([])
    case Other => None
    case Str(s) => if s == "" then Some([]) else Some(CapitalizePieces(Split(s, ',')))
  }

  /** The request body of a save or an update. */
  datatype MedicineBody = MedicineBody(
    medName: BodyValue,
    kingdom: BodyValue,
    family: BodyValue,
    miasm: BodyValue,
    temperament: BodyValue,
    diathisis: BodyValue,
    thermalReaction: BodyValue,
    personility: BodyValue,
    notes: BodyValue,
    remarks: BodyValue)

  /** All seven lists split; `None` when one of them throws. */
  function ListsOf(b: MedicineBody): (r: Option<MedicineLists>)
    ensures r.None? <==> b.kingdom.Other? || b.family.Other? || b.miasm.Other? || b.temperament.Other?
                         || b.diathisis.Other? || b.thermalReaction.Other? || b.personility.Other?
  {
    var k := SplitByCommaAndCapitalize(b.kingdom);
    var f := SplitByCommaAndCapitalize(b.family);
    var m := SplitByCommaAndCapitalize(b.miasm);
    var t := SplitByCommaAndCapitalize(b.temperament);
    var d := SplitByCommaAndCapitalize(b.diathisis);
    var h := SplitByCommaAndCapitalize(b.thermalReaction);
    var p := SplitByCommaAndCapitalize(b.personility);
    if k.None? || f.None? || m.None? || t.None? || d.None? || h.None? || p.None? then None
    else Some(MedicineLists(k.value, f.value, m.value, t.value, d.value, h.value, p.value))
  }

  /** `sentenceCase` of a body value, trimmed by the schema's setter; `None`
      when the value is not truthy (`sentenceCase` returns undefined). */
  function SentenceCased(v: BodyValue): (r: Option<string>)
    requires !v.Other?
    ensures r.Some? <==> BodyTruthy(v)
    ensures r.Some? ==> r.value == Trim(SentenceCase(Some(v.s)).value)
  {
    if v.Str? && v.s != "" then Some(Trim(SentenceCase(Some(v.s)).value)) else None
  }

  /** `medName` after `capitalizeWords` and the schema's cast and trim:
      `capitalizeWords` hands a falsy value back unchanged, so `0` or `false`
      reaches the schema and is stored as its text; `""` stands for no name
      (undefined, `null` or the empty string, which the required validator
      refuses). */
  function NameOf(v: BodyValue): (r: string)
    requires !v.Other?
    ensures v.Missing? || v == Str("") ==> r == ""
    ensures v.Str? && v.s != "" ==> Some(r) == CapitalizeWords(Some(v.s))
    ensures v.Falsy? ==> r == Trim(v.cast)
    ensures Trim(r) == r
  {
    match v
    case Missing => ""
    case Falsy(cast) =>
      TrimIdempotent(cast);
      Trim(cast)
    case Str(s) =>
      if s == "" then ""
      else
        CapitalizedIsTrimmed(s);
        CapitalizeWords(Some(s)).value
  }

  /** A medicine other than the one at position `except` has this name. */
  predicate NameTaken(meds: seq<Medicine>, name: string, except: int) {
    exists j :: 0 <= j < |meds| && j != except && meds[j].medName == name
  }

  /** No two medicines share a name: what the unique index on `medName` keeps. */
  predicate UniqueNames(meds: seq<Medicine>) {
    forall i, j :: 0 <= i < j < |meds| ==> meds[i].medName != meds[j].medName
  }

  // ---------------------------------------------------------------------
  // saveMedicineDetails

  /** `saveMedicineDetails` (lines 3-54): a body value that makes a helper
      throw, an empty name (the required validator) and a name already in use
      (the unique index) are all 500s; otherwise the medicine is inserted. */
  function SaveMedicine(st: DbState, b: MedicineBody): Outcome<Medicine> {
    var lists := ListsOf(b);
    if b.medName.Other? || lists.None? || b.notes.Other? || b.remarks.Other? then Outcome(Internal, st)
    else InsertMedicine(st, NameOf(b.medName), lists.value, SentenceCased(b.notes), SentenceCased(b.remarks))
  }

  /** `newMedicine.save()` (line 40): the required validator refuses an empty
      name and the unique index a name in use; otherwise the next id is given out. */
  function InsertMedicine(st: DbState, name: string, lists: MedicineLists, notes: Option<string>, remarks: Option<string>): Outcome<Medicine> {
    if name == "" || NameTaken(st.medicines, name, -1) then Outcome(Internal, st)
    else
      var m := Medicine(st.nextId, name, lists, notes, remarks);
      Outcome(Ok(m), st.(medicines := st.medicines + [m], nextId := st.nextId + 1))
  }

  method SaveMedicineDetails(db: Db, b: MedicineBody) returns (r: Response<Medicine>)
    modifies db
    ensures Outcome(r, db.State()) == SaveMedicine(old(db.State()), b)
  {
    var lists := ListsOf(b);
    if b.medName.Other? || lists.None? || b.notes.Other? || b.remarks.Other? {
      return Internal;
    }
    var name := NameOf(b.medName);
    var notes := SentenceCased(b.notes);
    var remarks := SentenceCased(b.remarks);
    assert SaveMedicine(db.State(), b) == InsertMedicine(db.State(), name, lists.value, notes, remarks);
    r := InsertMedicineIn(db, name, lists.value, notes, remarks);
  }

  /** Line 40: `newMedicine.save()` on the store. */
  method InsertMedicineIn(db: Db, name: string, lists: MedicineLists, notes: Option<string>, remarks: Option<string>)
    returns (r: Response<Medicine>)
    modifies db
    ensures Outcome(r, db.State()) == InsertMedicine(old(db.State()), name, lists, notes, remarks)
  {
    if name == "" || NameTaken(db.medicines, name, -1) {
      return Internal;
    }
    var m := Medicine(db.nextId, name, lists, notes, remarks);
    db.medicines := db.medicines + [m];
    db.nextId := db.nextId + 1;
    r := Ok(m);
  }

  /** A saved medicine has a fresh id and a new, non-empty, trimmed name; a
      string list holds one entry per comma plus one; falsy notes and remarks
      are stored as `null`. */
  lemma SaveMedicineEffect(st: DbState, b: MedicineBody)
    requires Consistent(st)
    requires SaveMedicine(st, b).response.Ok?
    ensures var out := SaveMedicine(st, b);
            var m := out.response.value;
            out.state.medicines == st.medicines + [m]
            && (forall j :: 0 <= j < |st.medicines| ==> st.medicines[j].id != m.id && st.medicines[j].medName != m.medName)
            && m.medName != "" && Trim(m.medName) == m.medName
            && (b.kingdom.Str? && b.kingdom.s != "" ==> |m.lists.kingdom| == Count(b.kingdom.s, ',') + 1)
            && (m.notes.None? <==> !BodyTruthy(b.notes)) && (m.remarks.None? <==> !BodyTruthy(b.remarks))
  {
    var m := SavedMedicine(st, b);
    assert m.lists.kingdom == SplitByCommaAndCapitalize(b.kingdom).value;
    assert !NameTaken(st.medicines, m.medName, -1);
  }

  /** The medicine a successful save inserts. */
  lemma SavedMedicine(st: DbState, b: MedicineBody) returns (m: Medicine)
    requires SaveMedicine(st, b).response.Ok?
    ensures m == SaveMedicine(st, b).response.value
    ensures SaveMedicine(st, b).state == st.(medicines := st.medicines + [m], nextId := st.nextId + 1)
    ensures m.id == st.nextId && m.medName == NameOf(b.medName) && !NameTaken(st.medicines, m.medName, -1)
    ensures m.medName != "" && Some(m.lists) == ListsOf(b)
    ensures m.notes == SentenceCased(b.notes) && m.remarks == SentenceCased(b.remarks)
  {
    var lists := ListsOf(b);
    assert !b.medName.Other? && lists.Some? && !b.notes.Other? && !b.remarks.Other?;
    var out := InsertMedicine(st, NameOf(b.medName), lists.value, SentenceCased(b.notes), SentenceCased(b.remarks));
    assert SaveMedicine(st, b) == out;
    m := out.response.value;
  }

  /** A `medName` of `0` or `false` is not refused: it is saved under its
      text, like any other name, when that text is free. */
  lemma SaveFalsyName(st: DbState, b: MedicineBody, cast: string)
    requires b.medName == Falsy(cast) && Trim(cast) != ""
    requires ListsOf(b).Some? && !b.notes.Other? && !b.remarks.Other?
    requires !NameTaken(st.medicines, Trim(cast), -1)
    ensures SaveMedicine(st, b).response.Ok?
    ensures SaveMedicine(st, b).response.value.medName == Trim(cast)
  {
    var name := NameOf(b.medName);
    assert name == Trim(cast);
    var lists := ListsOf(b).value;
    assert SaveMedicine(st, b) == InsertMedicine(st, name, lists, SentenceCased(b.notes), SentenceCased(b.remarks));
  }

  lemma SavePreservesInvariants(st: DbState, b: MedicineBody)
    requires Consistent(st) && UniqueNames(st.medicines)
    ensures Consistent(SaveMedicine(st, b).state) && UniqueNames(SaveMedicine(st, b).state.medicines)
  {
    if SaveMedicine(st, b).response.Ok? {
      var m := SavedMedicine(st, b);
      AppendMedicine(st, m);
    }
  }

  /** Inserting a medicine with the next id and an unused name keeps the invariants. */
  lemma AppendMedicine(st: DbState, m: Medicine)
    requires Consistent(st) && UniqueNames(st.medicines)
    requires m.id == st.nextId && !NameTaken(st.medicines, m.medName, -1)
    ensures var st' := st.(medicines := st.medicines + [m], nextId := st.nextId + 1);
            Consistent(st') && UniqueNames(st'.medicines)
  {
  }

  // ---------------------------------------------------------------------
  // updateMedicineById

  /** Lines 115-147 as written: the splitter is a local of
      `saveMedicineDetails`, so its first use here throws a `ReferenceError`
      (answered with a 500) before the store is touched. */
  function UpdateMedicineAsWritten(st: DbState, id: Option<MedicineId>, b: MedicineBody): Outcome<Medicine> {
    Outcome(Internal, st)
  }

  /** As written, no update request ever succeeds or changes the store. */
  lemma UpdateMedicineAsWrittenFails(st: DbState, id: Option<MedicineId>, b: MedicineBody)
    ensures UpdateMedicineAsWritten(st, id, b) == Outcome(Internal, st)
    ensures forall m :: m in st.medicines && Some(m.id) == id ==> !UpdateMedicineAsWritten(st, id, b).response.Ok?
  {
  }

  /** The update document lines 119-130 build: `medName` only when given,
      the lists always, and `notes`/`remarks` undefined (so left out of the
      update) when not truthy. */
  datatype UpdateData = UpdateData(
    medName: Option<string>,
    lists: MedicineLists,
    notes: Option<string>,
    remarks: Option<string>)

  /** `findById` on the medicines. */
  function FindMedicine(meds: seq<Medicine>, id: Option<MedicineId>): (r: Option<nat>)
    ensures r.Some? ==> id.Some? && r.value < |meds| && meds[r.value].id == id.value
    ensures r.None? ==> id.None? || forall j :: 0 <= j < |meds| ==> meds[j].id != id.value
  {
    if id.None? then None else FirstIndex(meds, (m: Medicine) => m.id == id.value)
  }

  /** The stored medicine after `findByIdAndUpdate` with `d`: no validator
      runs, and undefined fields keep their stored value. */
  function Apply(m: Medicine, d: UpdateData): (r: Medicine)
    ensures r.id == m.id && r.lists == d.lists
    ensures r.medName == (if d.medName.Some? then d.medName.value else m.medName)
    ensures r.notes == (if d.notes.Some? then d.notes else m.notes)
    ensures r.remarks == (if d.remarks.Some? then d.remarks else m.remarks)
  {
    Medicine(m.id, if d.medName.Some? then d.medName.value else m.medName, d.lists,
             if d.notes.Some? then d.notes else m.notes,
             if d.remarks.Some? then d.remarks else m.remarks)
  }

  /** The update document of a request; `None` when a helper throws on a
      truthy non-string field. */
  function UpdateDataOf(b: MedicineBody): (r: Option<UpdateData>)
    ensures r.Some? <==> !b.medName.Other? && ListsOf(b).Some? && !b.notes.Other? && !b.remarks.Other?
  {
    var lists := ListsOf(b);
    if b.medName.Other? || lists.None? || b.notes.Other? || b.remarks.Other? then None
    else Some(UpdateData(if BodyTruthy(b.medName) then Some(NameOf(b.medName)) else None, lists.value,
                         SentenceCased(b.notes), SentenceCased(b.remarks)))
  }

  /** `updateMedicineById` with the splitter in scope: a throwing helper is a
      500, an unknown id a 404, a name taken by another medicine a 500 (the
      unique index), and otherwise the update is applied. */
  function UpdateMedicine(st: DbState, id: Option<MedicineId>, b: MedicineBody): Outcome<Medicine> {
    var d := UpdateDataOf(b);
    if d.None? then Outcome(Internal, st)
    else
      var i := FindMedicine(st.medicines, id);
      if i.None? then Outcome(NotFound(MedicineEntity), st)
      else
        var m := Apply(st.medicines[i.value], d.value);
        if NameTaken(st.medicines, m.medName, i.value) then Outcome(Internal, st)
        else Outcome(Ok(m), st.(medicines := st.medicines[i.value := m]))
  }

  /** Lines 117-130: the update document filled field by field. */
  method BuildUpdateData(b: MedicineBody) returns (d: Option<UpdateData>)
    ensures d == UpdateDataOf(b)
  {
    if b.medName.Other? {
      return None;
    }
    var medName: Option<string> := None;
    if BodyTruthy(b.medName) {
      medName := Some(NameOf(b.medName));
    }
    var lists := ListsOf(b);
    if lists.None? || b.notes.Other? || b.remarks.Other? {
      return None;
    }
    var data := UpdateData(medName, lists.value, None, None);
    data := data.(notes := SentenceCased(b.notes));
    data := data.(remarks := SentenceCased(b.remarks));
    d := Some(data);
  }

  /** `updateMedicineById` on the store: the update document is built, then
      applied to the medicine with that id. */
  method UpdateMedicineById(db: Db, id: Option<MedicineId>, b: MedicineBody) returns (r: Response<Medicine>)
    modifies db
    ensures Outcome(r, db.State()) == UpdateMedicine(old(db.State()), id, b)
  {
    var d := BuildUpdateData(b);
    if d.None? {
      return Internal;
    }
    var i := FindMedicine(db.medicines, id);
    if i.None? {
      return NotFound(MedicineEntity);
    }
    var m := Apply(db.medicines[i.value], d.value);
    if NameTaken(db.medicines, m.medName, i.value) {
      return Internal;
    }
    db.medicines := db.medicines[i.value := m];
    r := Ok(m);
  }

  /** An update stores the title-cased name when a truthy one is given and
      keeps the old name otherwise, always replaces the seven lists (an absent
      list becomes empty), sentence-cases truthy `notes`/`remarks` and keeps
      the stored ones otherwise, and touches no other medicine. */
  lemma UpdateMedicineEffect(st: DbState, id: Option<MedicineId>, b: MedicineBody)
    requires UpdateMedicine(st, id, b).response.Ok?
    ensures var i := FindMedicine(st.medicines, id).value;
            var old_ := st.medicines[i];
            var out := UpdateMedicine(st, id, b);
            var m := out.response.value;
            m.id == old_.id
            && (!BodyTruthy(b.medName) ==> m.medName == old_.medName)
            && (BodyTruthy(b.medName) ==> m.medName == NameOf(b.medName))
            && (b.kingdom.Missing? ==> m.lists.kingdom == [])
            && Some(m.lists) == ListsOf(b)
            && (!BodyTruthy(b.notes) ==> m.notes == old_.notes)
            && (BodyTruthy(b.notes) ==> m.notes == SentenceCased(b.notes))
            && (!BodyTruthy(b.remarks) ==> m.remarks == old_.remarks)
            && (BodyTruthy(b.remarks) ==> m.remarks == SentenceCased(b.remarks))
            && out.state.medicines == st.medicines[i := m]
            && out.state.(medicines := st.medicines) == st
  {
  }

  lemma UpdatePreservesInvariants(st: DbState, id: Option<MedicineId>, b: MedicineBody)
    requires Consistent(st) && UniqueNames(st.medicines)
    ensures Consistent(UpdateMedicine(st, id, b).state) && UniqueNames(UpdateMedicine(st, id, b).state.medicines)
  {
  }

  // ---------------------------------------------------------------------
  // getAllMedicines

  /** One page of the listing, with the count, `total_pages` and the sort
      direction. */
  datatype MedicinePage = MedicinePage(items: seq<Medicine>, total: nat, totalPages: PageCount, direction: int)

  /** `getAllMedicines` (lines 57-91) with the page cut from the collection
      in store order; a negative skip is refused by the server (500). */
  function GetAllMedicines(st: DbState, page: int, perPage: int, orderBy: Option<string>): (r: Response<MedicinePage>)
    ensures r.Ok? <==> Skip(page, perPage) >= 0
    ensures r.Ok? ==> r.value.total == |st.medicines| && (r.value.direction == 1 <==> orderBy == Some("asc"))
    ensures r.Ok? && perPage > 0 ==> |r.value.items| <= perPage
    ensures r.Ok? ==> forall k :: 0 <= k < |r.value.items| ==>
                        Skip(page, perPage) + k < |st.medicines|
                        && r.value.items[k] == st.medicines[Skip(page, perPage) + k]
  {
    var items := PageOf(st.medicines, Skip(page, perPage), perPage);
    if items.None? then Internal
    else Ok(MedicinePage(items.value, |st.medicines|, TotalPages(|st.medicines|, perPage), SortDirection(orderBy)))
  }

  /** With a positive page size, pages `1 .. total_pages` list every medicine once, in order. */
  lemma MedicinePagesCoverAll(st: DbState, perPage: int, orderBy: Option<string>)
    requires perPage > 0
    ensures GetAllMedicines(st, 1, perPage, orderBy).Ok?
    ensures var n := GetAllMedicines(st, 1, perPage, orderBy).value.totalPages;
            n.Pages? && PagesFrom(st.medicines, perPage, 1, n.n) == st.medicines
    ensures forall p :: p >= 1 ==> GetAllMedicines(st, p, perPage, orderBy).Ok?
                                    && GetAllMedicines(st, p, perPage, orderBy).value.items
                                       == PageOf(st.medicines, Skip(p, perPage), perPage).value
  {
    PagesCoverAll(st.medicines, perPage);
    forall p | p >= 1
      ensures Skip(p, perPage) >= 0
    {
      assert (p - 1) * perPage >= 0;
    }
  }
}

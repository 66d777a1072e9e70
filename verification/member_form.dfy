/**
 * The member form of src/components/members/MemberForm.jsx: its state is one
 * text per input, seeded from the member being edited (or the add defaults),
 * changed one named input at a time, and turned into the payload `onSubmit`
 * receives, with the unit and status names looked up by id.
 */
module MemberForm {
  import opened Wrappers
  import opened Seqs
  import opened Strings
  import opened Records
  import opened MembersApi

  /** The inputs of the form, by their `name` attribute. */
  datatype Field =
    | Nik | Nama | UnitId | Project | Lokasi | Kontak | Utilisasi
    | StatusId | Shift | ModeKerja | KontrakBerakhir | Spesialisasi

  /** The form state: the text each input holds. */
  datatype Form = Form(
    nik: string,
    nama: string,
    unitId: string,
    project: string,
    lokasi: string,
    kontak: string,
    utilisasi: string,
    statusId: string,
    shift: string,
    modeKerja: string,
    kontrakBerakhir: string,
    spesialisasi: string)

  /** `form[name]`. */
  function Get(f: Form, name: Field): string
  {
    match name
    case Nik => f.nik
    case Nama => f.nama
    case UnitId => f.unitId
    case Project => f.project
    case Lokasi => f.lokasi
    case Kontak => f.kontak
    case Utilisasi => f.utilisasi
    case StatusId => f.statusId
    case Shift => f.shift
    case ModeKerja => f.modeKerja
    case KontrakBerakhir => f.kontrakBerakhir
    case Spesialisasi => f.spesialisasi
  }

  /** `handleChange`: `{ ...prev, [name]: value }`. The named input takes the value; every other input keeps its text. */
  function HandleChange(f: Form, name: Field, value: string): (r: Form)
    ensures Get(r, name) == value
    ensures forall other: Field :: other != name ==> Get(r, other) == Get(f, other)
  {
    match name
    case Nik => f.(nik := value)
    case Nama => f.(nama := value)
    case UnitId => f.(unitId := value)
    case Project => f.(project := value)
    case Lokasi => f.(lokasi := value)
    case Kontak => f.(kontak := value)
    case Utilisasi => f.(utilisasi := value)
    case StatusId => f.(statusId := value)
    case Shift => f.(shift := value)
    case ModeKerja => f.(modeKerja := value)
    case KontrakBerakhir => f.(kontrakBerakhir := value)
    case Spesialisasi => f.(spesialisasi := value)
  }

  /** Changing an input to the text it already holds changes nothing; a later change of the same input overrides an earlier one. */
  lemma HandleChangeLaws(f: Form, name: Field, v: string, w: string)
    ensures HandleChange(f, name, Get(f, name)) == f
    ensures HandleChange(HandleChange(f, name, v), name, w) == HandleChange(f, name, w)
  {
  }

  /**
   * The initial state for a member being viewed or edited: its fields as the
   * inputs show them, the specialisation list joined with ", " and a missing
   * contract date as "".
   */
  function FormOfMember(m: Member): (f: Form)
    ensures f.spesialisasi == Join(m.spesialisasi, ", ")
  {
    Form(
      nik := m.nik,
      nama := m.nama,
      unitId := IntToString(m.unitId),
      project := m.project,
      lokasi := m.lokasi,
      kontak := m.kontak,
      utilisasi := IntToString(m.utilisasi),
      statusId := IntToString(m.statusId),
      shift := m.shift,
      modeKerja := m.modeKerja,
      kontrakBerakhir := m.kontrakBerakhir.GetOr(""),
      spesialisasi := Join(m.spesialisasi, ", "))
  }

  /** `entries.find((e) => e.id === id)?.nama || ''`: the name of the first entry with the id; "" for `NaN` or no match. */
  function FindName(entries: seq<Entry>, id: Option<int>): (r: string)
    ensures id.None? ==> r == ""
    ensures r != "" ==> exists i :: 0 <= i < |entries| && entries[i].id == id.value && entries[i].nama == r
    decreases |entries|
  {
    if id.None? || entries == [] then ""
    else if entries[0].id == id.value then entries[0].nama
    else FindName(entries[1..], id)
  }

  /** The first entry carrying the id names it; with no such entry the name is "". */
  lemma {:induction false} FindNameFirst(entries: seq<Entry>, id: int, i: nat)
    requires i <= |entries|
    requires forall k :: 0 <= k < i ==> entries[k].id != id
    ensures i < |entries| && entries[i].id == id ==> FindName(entries, Some(id)) == entries[i].nama
    ensures i == |entries| ==> FindName(entries, Some(id)) == ""
    decreases i
  {
    if i > 0 {
      FindNameFirst(entries[1..], id, i - 1);
    }
  }

  /** What `handleSubmit` hands to `onSubmit`: the payload and the looked-up unit and status names. */
  datatype Submission = Submission(payload: Payload, unitNama: string, statusNama: string)

  /** `handleSubmit`: the form's texts converted to the payload. */
  function Submit(f: Form, units: seq<Entry>, statuses: seq<Entry>): (r: Submission)
    ensures r.payload.nik == f.nik && r.payload.nama == f.nama && r.payload.project == f.project
    ensures r.payload.lokasi == f.lokasi && r.payload.kontak == f.kontak
    ensures r.payload.unitId == ParseInt(f.unitId) && r.payload.statusId == ParseInt(f.statusId)
    ensures ParseInt(f.utilisasi).None? ==> r.payload.utilisasi == 0
    ensures ParseInt(f.utilisasi).Some? ==> r.payload.utilisasi == ParseInt(f.utilisasi).value
    ensures f.shift == "" ==> r.payload.shift == "Pagi"
    ensures f.shift != "" ==> r.payload.shift == f.shift
    ensures f.modeKerja == "" ==> r.payload.modeKerja == "Onsite"
    ensures f.modeKerja != "" ==> r.payload.modeKerja == f.modeKerja
    ensures r.statusNama == FindName(statuses, ParseInt(f.statusId)) && r.unitNama == FindName(units, ParseInt(f.unitId))
    ensures r.payload.kontrakBerakhir.None? <==> Lower(r.statusNama) == "organik" || f.kontrakBerakhir == ""
    ensures r.payload.kontrakBerakhir.Some? ==> r.payload.kontrakBerakhir.value == f.kontrakBerakhir
    ensures r.payload.spesialisasi == SpecList(SplitList(f.spesialisasi))
  {
    var statusNama := FindName(statuses, ParseInt(f.statusId));
    var isOrganik := Lower(statusNama) == "organik";
    var payload := Payload(
      nik := f.nik,
      nama := f.nama,
      unitId := ParseInt(f.unitId),
      project := f.project,
      lokasi := f.lokasi,
      kontak := f.kontak,
      utilisasi := ParseInt(f.utilisasi).GetOr(0),
      statusId := ParseInt(f.statusId),
      shift := OrDefault(f.shift, "Pagi"),
      modeKerja := OrDefault(f.modeKerja, "Onsite"),
      kontrakBerakhir := if isOrganik then None else NonBlank(f.kontrakBerakhir),
      spesialisasi := SpecList(SplitList(f.spesialisasi)));
    Submission(payload, FindName(units, ParseInt(f.unitId)), statusNama)
  }

  /** The submitted specialisations are trimmed, non-empty and comma-free, whatever was typed. */
  lemma SubmitSpecialisations(f: Form, units: seq<Entry>, statuses: seq<Entry>)
    ensures var items := Submit(f, units, statuses).payload.spesialisasi.items;
      forall k :: 0 <= k < |items| ==> IsListItem(items[k])
  {
    SplitListItems(f.spesialisasi);
  }

  /**
   * Opening a member and submitting unchanged gives back the member's own
   * values: the ids and utilisation parse back to the same integers, the
   * specialisation list survives the ", " join and the comma split, and the
   * contract date is kept unless the status is Organik.
   */
  lemma EditUnchangedRoundTrip(m: Member, units: seq<Entry>, statuses: seq<Entry>)
    requires forall k :: 0 <= k < |m.spesialisasi| ==> IsListItem(m.spesialisasi[k])
    ensures var r := Submit(FormOfMember(m), units, statuses);
      var p := r.payload;
      && p.nik == m.nik && p.nama == m.nama && p.project == m.project && p.lokasi == m.lokasi && p.kontak == m.kontak
      && p.unitId == Some(m.unitId) && p.statusId == Some(m.statusId) && p.utilisasi == m.utilisasi
      && p.spesialisasi == SpecList(m.spesialisasi)
      && (Lower(r.statusNama) != "organik" && m.kontrakBerakhir != Some("") ==> p.kontrakBerakhir == m.kontrakBerakhir)
  {
    ParseIntOfIntToString(m.unitId);
    ParseIntOfIntToString(m.statusId);
    ParseIntOfIntToString(m.utilisasi);
    SplitListOfJoin(m.spesialisasi);
  }

  /**
   * The form does not clamp the utilisation: a form whose utilisation field
   * holds `String(v)` sends `v` as typed, and the store's `buildPayload` clamps
   * it to [0, 100]; a value above 100 is sent as typed and stored as 100.
   */
  lemma FormLeavesClampToStore(f: Form, units: seq<Entry>, statuses: seq<Entry>, statusNama: string, v: int)
    ensures var sent := Submit(f.(utilisasi := IntToString(v)), units, statuses).payload;
      var stored := BuildPayload(sent, statusNama).utilisasi;
      && sent.utilisasi == v
      && stored == ClampPercent(v)
      && (v > 100 ==> stored == 100 < sent.utilisasi)
  {
    ParseIntOfIntToString(v);
  }
}

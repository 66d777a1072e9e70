/**
 * The decisions of the dashboard page (src/pages/Dashboard.jsx): the sort,
 * summary-card and row-menu toggles, the add-form defaults, and what saving a
 * member or uploading a sheet does to the modal and the toast message.
 */
module Dashboard {
  import opened Wrappers
  import opened Strings
  import opened Records
  import opened MembersApi
  import opened MembersHooks
  import opened MemberForm
  import opened UiComponents

  // ---------------------------------------------------------------------------
  // Updater functions of the previous state

  /** `handleRequestSort(key)`: the clicked key, descending only when that key was already ascending. */
  function NextSortConfig(prev: SortConfig, key: SortKey): (r: SortConfig)
    ensures r.key == Some(key)
    ensures r.direction == Desc <==> prev.key == Some(key) && prev.direction == Asc
  {
    SortConfig(Some(key), if prev.key == Some(key) && prev.direction == Asc then Desc else Asc)
  }

  /** A new key always starts ascending; clicking the same key again flips the direction, so two clicks from ascending return to ascending. */
  lemma SortClicks(prev: SortConfig, key: SortKey)
    ensures prev.key != Some(key) ==> NextSortConfig(prev, key).direction == Asc
    ensures NextSortConfig(NextSortConfig(prev, key), key).direction != NextSortConfig(prev, key).direction
    ensures prev.key == Some(key) && prev.direction == Asc ==>
      NextSortConfig(NextSortConfig(prev, key), key) == prev
  {
  }

  /** `(prev) => prev === id ? off : id`: the updater behind the summary cards and the row menus. */
  function Toggle<T(==)>(prev: T, id: T, off: T): (r: T)
    ensures prev == id ==> r == off
    ensures prev != id ==> r == id
  {
    if prev == id then off else id
  }

  /** Clicking the same card or menu twice, starting from any other one, closes it again. */
  lemma ToggleTwice<T>(prev: T, id: T, off: T)
    requires prev != id && id != off
    ensures Toggle(prev, id, off) == id
    ensures Toggle(Toggle(prev, id, off), id, off) == off
  {
  }

  /** The summary-card click: the active card resets the filter to 'all'. */
  function ToggleSummary(prev: SummaryFilter, id: SummaryFilter): (r: SummaryFilter)
    ensures r == AllMembers <==> prev == id || id == AllMembers
    ensures r != AllMembers ==> r == id
  {
    Toggle(prev, id, AllMembers)
  }

  /** The row-menu click: the open menu closes; any other id opens that one alone. */
  function ToggleMenu(prev: Option<int>, id: int): (r: Option<int>)
    ensures r.None? <==> prev == Some(id)
    ensures r.Some? ==> r.value == id
  {
    Toggle(prev, Some(id), None)
  }

  // ---------------------------------------------------------------------------
  // openAdd

  /** `entries[0]?.id || ''`: the first id as the select shows it; "" for an empty list or an id of 0. */
  function FirstIdText(entries: seq<Entry>): (r: string)
    ensures entries == [] ==> r == ""
  {
    if entries != [] && entries[0].id != 0 then IntToString(entries[0].id) else ""
  }

  /** The form state `openAdd` seeds: first unit and status, utilisation 50, shift Pagi, mode Onsite, the rest blank. */
  function AddDefaults(units: seq<Entry>, statuses: seq<Entry>): (f: Form)
    ensures f.nik == "" && f.nama == "" && f.kontrakBerakhir == "" && f.spesialisasi == ""
  {
    Form(
      nik := "", nama := "",
      unitId := FirstIdText(units),
      project := "", lokasi := "", kontak := "",
      utilisasi := "50",
      statusId := FirstIdText(statuses),
      shift := "Pagi", modeKerja := "Onsite",
      kontrakBerakhir := "", spesialisasi := "")
  }

  /** The parsed first id: `None` (the `NaN` of an empty select) when there is no usable first entry. */
  function FirstId(entries: seq<Entry>): Option<int>
  {
    if entries != [] && entries[0].id != 0 then Some(entries[0].id) else None
  }

  /**
   * Submitting the add form untouched sends the first unit and status with
   * their names, utilisation 50, shift Pagi, mode Onsite, no contract date and
   * no specialisations.
   */
  lemma SubmitAddDefaults(units: seq<Entry>, statuses: seq<Entry>)
    ensures var r := Submit(AddDefaults(units, statuses), units, statuses);
      && r.payload.unitId == FirstId(units) && r.payload.statusId == FirstId(statuses)
      && (FirstId(units).Some? ==> r.unitNama == units[0].nama)
      && (FirstId(statuses).Some? ==> r.statusNama == statuses[0].nama)
      && r.payload.utilisasi == 50 && r.payload.shift == "Pagi" && r.payload.modeKerja == "Onsite"
      && r.payload.kontrakBerakhir.None? && r.payload.spesialisasi == SpecList([])
  {
    FirstIdRoundTrip(units);
    FirstIdRoundTrip(statuses);
    var f := AddDefaults(units, statuses);
    assert f.utilisasi == "50" && f.unitId == FirstIdText(units) && f.statusId == FirstIdText(statuses);
    assert IntToString(50) == "50" by {
      assert NatToString(50) == NatToString(5) + ['0'];
    }
    ParseIntOfIntToString(50);
    SplitListOfJoin([]);
  }

  /** The first id the select shows parses back to `FirstId`, and names the first entry. */
  lemma FirstIdRoundTrip(entries: seq<Entry>)
    ensures ParseInt(FirstIdText(entries)) == FirstId(entries)
    ensures FirstId(entries).Some? ==> FindName(entries, FirstId(entries)) == entries[0].nama
  {
    if FirstId(entries).Some? {
      ParseIntOfIntToString(entries[0].id);
      FindNameFirst(entries, entries[0].id, 0);
    } else {
      assert ParseInt("") == None;
    }
  }

  // ---------------------------------------------------------------------------
  // Messages

  /** `err.message || fallback` for a toast of type 'error'. */
  function ErrorMessage(text: string, fallback: string): (r: Message)
    ensures r.kind == "error"
    ensures text != "" ==> r.text == text
    ensures text == "" ==> r.text == fallback
  {
    Message(OrDefault(text, fallback), "error")
  }

  /** The toast after `bulkImport` returned or threw. */
  function BulkMessage(outcome: BulkOutcome): (r: Message)
    ensures r.kind == "error" <==> outcome.BatchFailed?
    ensures r.kind == "success" <==> outcome.Counts? && outcome.errors == [] && outcome.duplicateCount == 0
    ensures r.kind == "warning" <==> outcome.Counts? && (outcome.errors != [] || outcome.duplicateCount > 0)
  {
    match outcome
    case BatchFailed(msg) => ErrorMessage(msg, "Gagal memproses file")
    case Counts(s, d, errs) =>
      if |errs| > 0 then
        Message("Selesai. Berhasil: " + IntToString(s) + ", Duplikat: " + IntToString(d)
                + ". Error: " + Join(errs, "; "), "warning")
      else
        Message("Selesai! Berhasil import " + IntToString(s) + " data. Duplikat dilewati: " + IntToString(d),
                if d > 0 then "warning" else "success")
  }

  /** A sheet import reports success exactly when every row was inserted. */
  lemma ImportSuccessMeansAllInserted(rows: seq<Row>, lk: Lookups, existing: set<string>, insert: InsertResult)
    ensures var o := Finish(Reconcile(rows, lk, existing), insert);
      BulkMessage(o).kind == "success" <==> o.Counts? && o.successCount == |rows|
  {
    FoldConservation(Classify(lk), rows, existing);
  }

  /** Every import outcome shows a toast: red when the batch failed, green only for a clean import, amber otherwise. */
  lemma BulkOutcomeToast(o: BulkOutcome)
    ensures Toast(BulkMessage(o)).Some?
    ensures Toast(BulkMessage(o)) == Some(ErrorToast) <==> o.BatchFailed?
    ensures Toast(BulkMessage(o)) == Some(SuccessToast) <==> o.Counts? && o.errors == [] && o.duplicateCount == 0
  {
    var text := BulkMessage(o).text;
    if o.Counts? {
      assert text[0] == 'S';
    }
  }

  // ---------------------------------------------------------------------------
  // The modal and the toast

  datatype Mode = ViewMode | EditMode | AddMode

  /** What the modal holds: a member opened for view or edit, or the add form's seed. */
  datatype ModalData = Existing(member: Member) | Draft(form: Form)

  /** `modalState`. */
  datatype ModalState = ModalState(open: bool, mode: Mode, data: Option<ModalData>, loading: bool)

  /** `closeModal`'s state. */
  function ClosedModal(): ModalState
  {
    ModalState(false, ViewMode, None, false)
  }

  /** A save that goes to `editMember` needs the edited member's id. */
  predicate CanSave(modal: ModalState)
  {
    modal.mode == AddMode || (modal.data.Some? && modal.data.value.Existing?)
  }

  /**
   * The write `handleSave` issues: `addMember` in add mode, otherwise
   * `editMember` on the opened member. Both check the NIK as typed; what is
   * written is `buildPayload`'s record.
   */
  function SaveOutcome(modal: ModalState, db: seq<Member>, statuses: seq<Entry>, p: Payload, result: InsertResult): (r: WriteOutcome)
    requires CanSave(modal)
    ensures r.NikTaken? <==> NikExists(db, p.nik, SaveExcludes(modal))
    ensures r.WriteFailed? <==> !NikExists(db, p.nik, SaveExcludes(modal)) && result.InsertFailed?
    ensures r.Written? ==> r.fields == BuildPayload(p, ResolveStatusNama(p.statusId, statuses))
  {
    if modal.mode == AddMode then AddMember(db, statuses, p, result)
    else EditMember(db, statuses, modal.data.value.member.id, p, result)
  }

  /** `handleSave`'s write with the guard on the stored (trimmed) NIK, as `AddMemberChecked` and `EditMemberChecked` correct it. */
  function SaveOutcomeChecked(modal: ModalState, db: seq<Member>, statuses: seq<Entry>, p: Payload, result: InsertResult): (r: WriteOutcome)
    requires CanSave(modal)
    ensures r.NikTaken? <==> NikExists(db, Trim(p.nik), SaveExcludes(modal))
    ensures r.Written? ==> r.fields == BuildPayload(p, ResolveStatusNama(p.statusId, statuses))
  {
    if modal.mode == AddMode then AddMemberChecked(db, statuses, p, result)
    else EditMemberChecked(db, statuses, modal.data.value.member.id, p, result)
  }

  /** The modal and message once the write has answered. */
  function AfterSave(modal: ModalState, mode: Mode, w: WriteOutcome): (r: (ModalState, Message))
    ensures r.0.open <==> modal.open && !w.Written?
    ensures !r.0.loading
    ensures r.1.kind == "success" <==> w.Written?
    ensures r.1.kind == "error" <==> !w.Written?
  {
    match w
    case Written(_) =>
      (ClosedModal(), Message(if mode == AddMode then "Personil berhasil ditambahkan!" else "Data berhasil diperbarui!", "success"))
    case NikTaken(msg) => (modal.(loading := false), ErrorMessage(msg, "Terjadi kesalahan"))
    case WriteFailed(msg) => (modal.(loading := false), ErrorMessage(msg, "Terjadi kesalahan"))
  }

  /** Every save ends with a visible toast: green when the member was written, red otherwise. */
  lemma SaveToast(modal: ModalState, mode: Mode, w: WriteOutcome)
    ensures Toast(AfterSave(modal, mode, w).1) == Some(if w.Written? then SuccessToast else ErrorToast)
  {
  }

  /** A failed save keeps the modal's mode and data, so the form can be corrected and sent again. */
  lemma FailedSaveKeepsForm(modal: ModalState, mode: Mode, w: WriteOutcome)
    requires !w.Written?
    ensures AfterSave(modal, mode, w).0 == modal.(loading := false)
    ensures AfterSave(modal, mode, w).1.text != ""
  {
  }

  /** The id `handleSave`'s NIK check leaves out: none when adding, the opened member's when editing. */
  function SaveExcludes(modal: ModalState): Option<int>
    requires CanSave(modal)
  {
    if modal.mode == AddMode then None else Some(modal.data.value.member.id)
  }

  /** A typed NIK that another member holds never closes the modal, whatever the store would answer. */
  lemma TakenNikKeepsModalOpen(modal: ModalState, db: seq<Member>, statuses: seq<Entry>, p: Payload, result: InsertResult)
    requires CanSave(modal) && modal.open
    requires NikExists(db, p.nik, SaveExcludes(modal))
    ensures AfterSave(modal, modal.mode, SaveOutcome(modal, db, statuses, p, result)).0.open
    ensures AfterSave(modal, modal.mode, SaveOutcome(modal, db, statuses, p, result)).1.kind == "error"
  {
  }

  /**
   * The page inherits the padded-NIK gap: adding "A " to a roster holding "A"
   * closes the modal with a success toast, and "A" is written a second time.
   */
  lemma PaddedNikClosesModal()
    ensures var modal := ModalState(true, AddMode, None, false);
      var db := [TakenMember()];
      var w := SaveOutcome(modal, db, [], PaddedPayload(), InsertOk);
      && w.Written? && NikExists(db, w.fields.nik, None)
      && !AfterSave(modal, AddMode, w).0.open && AfterSave(modal, AddMode, w).1.kind == "success"
  {
    PaddedNikSlipsThrough();
  }

  /** With the corrected guard, a stored NIK that another member holds keeps the modal open. */
  lemma CheckedTakenNikKeepsModalOpen(modal: ModalState, db: seq<Member>, statuses: seq<Entry>, p: Payload, result: InsertResult)
    requires CanSave(modal) && modal.open
    requires NikExists(db, Trim(p.nik), SaveExcludes(modal))
    ensures AfterSave(modal, modal.mode, SaveOutcomeChecked(modal, db, statuses, p, result)).0.open
  {
  }

  /** What the file picker produced: nothing, a file the sheet reader failed on, or the parsed rows. */
  datatype Upload = NoFile | Unreadable(message: string) | Parsed(rows: seq<Row>)

  /** The page's state: the modal, the toast, and the roster store it drives. */
  class DashboardPage {
    var modal: ModalState
    var message: Message
    const store: MembersStore

    constructor(store: MembersStore)
      ensures this.store == store
      ensures modal == ClosedModal() && message == Message("", "")
    {
      this.store := store;
      modal := ClosedModal();
      message := Message("", "");
    }

    /** `openAdd`: the modal opens in add mode on the defaults. */
    method OpenAdd(units: seq<Entry>, statuses: seq<Entry>)
      modifies this
      ensures modal == ModalState(true, AddMode, Some(Draft(AddDefaults(units, statuses))), false)
      ensures message == old(message)
    {
      modal := ModalState(true, AddMode, Some(Draft(AddDefaults(units, statuses))), false);
    }

    /** `openEdit`: the modal opens in edit mode on the member. */
    method OpenEdit(m: Member)
      modifies this
      ensures modal == ModalState(true, EditMode, Some(Existing(m)), false) && CanSave(modal)
      ensures message == old(message)
    {
      modal := ModalState(true, EditMode, Some(Existing(m)), false);
    }

    /**
     * `handleSave(payload)`: the modal shows loading while the write runs; a
     * written member closes it with a success toast, and a refusal or a store
     * error leaves it open, no longer loading, with the error's text.
     */
    method HandleSave(db: seq<Member>, statuses: seq<Entry>, p: Payload, result: InsertResult)
      modifies this
      requires CanSave(modal)
      ensures (modal, message) ==
        AfterSave(old(modal).(loading := true), old(modal).mode, SaveOutcome(old(modal), db, statuses, p, result))
    {
      var mode := modal.mode;
      var w := SaveOutcome(modal, db, statuses, p, result);
      modal := modal.(loading := true);
      var after := AfterSave(modal, mode, w);
      modal := after.0;
      message := after.1;
    }

    /**
     * `handleBulkUploadChange`: no file does nothing; an unreadable file or an
     * empty sheet only sets an error toast; otherwise the rows go through the
     * store's `bulkImport` and the toast reports its outcome.
     */
    method HandleBulkUploadChange(upload: Upload, units: seq<Entry>, statuses: seq<Entry>, insert: InsertResult)
      modifies this, store
      ensures modal == old(modal) && store.members == old(store.members)
      ensures upload.NoFile? ==> message == old(message)
      ensures !(upload.Parsed? && upload.rows != []) ==> store.isProcessing == old(store.isProcessing)
      ensures upload.Unreadable? ==> message == ErrorMessage(upload.message, "Gagal memproses file")
      ensures upload.Parsed? && upload.rows == [] ==> message == Message("File kosong atau format salah!", "error")
      ensures upload.Parsed? && upload.rows != [] ==>
        && !store.isProcessing
        && message == BulkMessage(Finish(Reconcile(upload.rows, MakeLookups(units, statuses), RosterNiks(store.members)), insert))
    {
      match upload
      case NoFile =>
      case Unreadable(msg) =>
        message := ErrorMessage(msg, "Gagal memproses file");
      case Parsed(rows) =>
        if rows == [] {
          message := Message("File kosong atau format salah!", "error");
        } else {
          var outcome, queued := store.BulkImport(rows, units, statuses, insert);
          message := BulkMessage(outcome);
        }
    }
  }
}

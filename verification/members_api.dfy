/**
 * The data layer of the roster (src/lib/MembersApi.js) without its network calls:
 * the bulk-import reconciler that turns spreadsheet rows into insert records,
 * the lookup map it resolves unit and status names with, the payload builder of
 * the single-record insert and update, the normalisation of joined rows and the
 * flat export row.
 */
module MembersApi {
  import opened Wrappers
  import opened Seqs
  import opened Strings
  import opened Records

  // ---------------------------------------------------------------------------
  // Cells of a parsed spreadsheet row

  /** A parsed spreadsheet row: column label to cell text. */
  type Row = map<string, string>

  /** `String(item[key] || '')`: a missing column and an empty cell both read as "". */
  function Cell(row: Row, key: string): string
  {
    if key in row then row[key] else ""
  }

  /** `text || fallback` on a text. */
  function OrDefault(text: string, fallback: string): (r: string)
    ensures r != "" <== fallback != ""
    ensures text != "" ==> r == text
    ensures text == "" ==> r == fallback
  {
    if text == "" then fallback else text
  }

  /** `text || null` on a text. */
  function NonBlank(text: string): (r: Option<string>)
    ensures r.None? <==> text == ""
    ensures r.Some? ==> r.value == text
  {
    if text == "" then None else Some(text)
  }

  /** `Math.min(Math.max(v, 0), 100)`. */
  function ClampPercent(v: int): (r: int)
    ensures 0 <= r <= 100
    ensures 0 <= v <= 100 ==> r == v
    ensures v < 0 ==> r == 0
    ensures v > 100 ==> r == 100
  {
    if v < 0 then 0 else if v > 100 then 100 else v
  }

  // ---------------------------------------------------------------------------
  // buildLookupMap

  /** `buildLookupMap`: lower-cased name to id, each entry overwriting what an earlier one with the same lower-cased name wrote. */
  function LookupMap(entries: seq<Entry>): map<string, int>
    decreases |entries|
  {
    if entries == [] then map[]
    else LookupMap(entries[..|entries| - 1])[Lower(entries[|entries| - 1].nama) := entries[|entries| - 1].id]
  }

  /** Entry `i` carries the lower-cased name `key`. */
  predicate NamedAt(entries: seq<Entry>, key: string, i: int)
  {
    0 <= i < |entries| && Lower(entries[i].nama) == key
  }

  /** Entry `i` is the last one whose lower-cased name is `key`. */
  predicate LastNamedAt(entries: seq<Entry>, key: string, i: int)
  {
    NamedAt(entries, key, i) && forall j :: i < j < |entries| ==> !NamedAt(entries, key, j)
  }

  /**
   * The lookup map holds exactly the lower-cased names of the entries, and each
   * maps to the id of the LAST entry with that lower-cased name.
   */
  lemma {:induction false} LookupMapLaterWins(entries: seq<Entry>, key: string)
    ensures key in LookupMap(entries) <==> exists i :: NamedAt(entries, key, i)
    ensures key in LookupMap(entries) ==>
      exists i :: LastNamedAt(entries, key, i) && LookupMap(entries)[key] == entries[i].id
    decreases |entries|
  {
    if entries != [] {
      var n := |entries|;
      var pre := entries[..n - 1];
      LookupMapLaterWins(pre, key);
      if Lower(entries[n - 1].nama) == key {
        assert LastNamedAt(entries, key, n - 1);
      } else {
        if i :| NamedAt(pre, key, i) {
          assert NamedAt(entries, key, i);
        }
        if i :| NamedAt(entries, key, i) {
          assert NamedAt(pre, key, i);
        }
        if key in LookupMap(entries) {
          var i :| LastNamedAt(pre, key, i) && LookupMap(pre)[key] == pre[i].id;
          forall j | i < j < n ensures !NamedAt(entries, key, j) {
            if j < n - 1 {
              assert !NamedAt(pre, key, j);
            }
          }
        }
      }
    }
  }

  /** `buildLookupMap(arr)`: the `reduce` that writes each entry into the accumulator in turn. */
  method BuildLookupMap(entries: seq<Entry>) returns (acc: map<string, int>)
    ensures acc == LookupMap(entries)
  {
    acc := map[];
    for i := 0 to |entries|
      invariant acc == LookupMap(entries[..i])
    {
      assert entries[..i + 1][..i] == entries[..i];
      acc := acc[Lower(entries[i].nama) := entries[i].id];
    }
    assert entries[..|entries|] == entries;
  }

  /** `map[name.toLowerCase()]` followed by the `!id` test: a missing name and an id of 0 are both "not found". */
  function Resolve(m: map<string, int>, name: string): (r: Option<int>)
    ensures r.Some? <==> Lower(name) in m && m[Lower(name)] != 0
    ensures r.Some? ==> r.value == m[Lower(name)]
  {
    var key := Lower(name);
    if key in m && m[key] != 0 then Some(m[key]) else None
  }

  // ---------------------------------------------------------------------------
  // What bulkInsertMembers derives from the lookup tables

  function EntryName(e: Entry): string { e.nama }

  /** The lookup-derived values the reconciler works with. */
  datatype Lookups = Lookups(
    unitMap: map<string, int>,
    statusMap: map<string, int>,
    validUnits: string,
    validStatuses: string,
    organikId: Option<int>)

  /** `statusList.find((s) => s.nama.toLowerCase() === 'organik')?.id`. */
  function FirstOrganikId(statuses: seq<Entry>): Option<int>
    decreases |statuses|
  {
    if statuses == [] then None
    else if Lower(statuses[0].nama) == "organik" then Some(statuses[0].id)
    else FirstOrganikId(statuses[1..])
  }

  /** Entry `i` is the first whose lower-cased name is `key`. */
  predicate FirstNamedAt(entries: seq<Entry>, key: string, i: int)
  {
    NamedAt(entries, key, i) && forall j :: 0 <= j < i ==> !NamedAt(entries, key, j)
  }

  /** The Organik id is the id of the first status whose lower-cased name is "organik", and absent when there is none. */
  lemma {:induction false} FirstOrganikIdIsFirst(statuses: seq<Entry>)
    ensures FirstOrganikId(statuses).Some? <==> exists i :: NamedAt(statuses, "organik", i)
    ensures FirstOrganikId(statuses).Some? ==>
      exists i :: FirstNamedAt(statuses, "organik", i) && FirstOrganikId(statuses).value == statuses[i].id
    decreases |statuses|
  {
    if statuses != [] {
      if Lower(statuses[0].nama) == "organik" {
        assert FirstNamedAt(statuses, "organik", 0);
      } else {
        var rest := statuses[1..];
        FirstOrganikIdIsFirst(rest);
        if i :| NamedAt(statuses, "organik", i) {
          assert NamedAt(rest, "organik", i - 1);
        }
        if i :| NamedAt(rest, "organik", i) {
          assert NamedAt(statuses, "organik", i + 1);
        }
        if FirstOrganikId(statuses).Some? {
          var i :| FirstNamedAt(rest, "organik", i) && FirstOrganikId(rest).value == rest[i].id;
          forall j | 0 <= j < i + 1 ensures !NamedAt(statuses, "organik", j) {
            if j > 0 {
              assert !NamedAt(rest, "organik", j - 1);
            }
          }
          assert FirstNamedAt(statuses, "organik", i + 1);
        }
      }
    }
  }

  function MakeLookups(units: seq<Entry>, statuses: seq<Entry>): Lookups
  {
    Lookups(
      LookupMap(units),
      LookupMap(statuses),
      Join(MapSeq(EntryName, units), ", "),
      Join(MapSeq(EntryName, statuses), ", "),
      FirstOrganikId(statuses))
  }

  // ---------------------------------------------------------------------------
  // One row of the bulk import

  datatype RowOutcome = Duplicate | Rejected(message: string) | Accepted(record: MemberFields)

  /** `String(item.NIK || '').trim()`. */
  function RowNik(row: Row): string { Trim(Cell(row, "NIK")) }

  function UnitName(row: Row): string { Trim(Cell(row, "Unit")) }

  function StatusName(row: Row): string { Trim(Cell(row, "Status")) }

  /** Every error message starts by naming the row's NIK. */
  function NikPrefix(nik: string): string
  {
    "NIK " + nik + ": "
  }

  lemma StartsWithAppend(a: string, b: string)
    ensures StartsWith(a + b, a)
  {
    assert (a + b)[..|a|] == a;
  }

  /** The error for a blank Unit or Status column. */
  function MissingColumnMessage(nik: string, column: string): (r: string)
    ensures StartsWith(r, NikPrefix(nik))
  {
    var reason := "Kolom \"" + column + "\" wajib diisi";
    StartsWithAppend(NikPrefix(nik), reason);
    NikPrefix(nik) + reason
  }

  /** The error for a Unit or Status name the lookup does not know; it lists every valid name. */
  function UnknownNameMessage(nik: string, column: string, value: string, valid: string): (r: string)
    ensures StartsWith(r, NikPrefix(nik))
  {
    var reason := column + " \"" + value + "\" tidak ditemukan. Pilihan valid: " + valid;
    StartsWithAppend(NikPrefix(nik), reason);
    NikPrefix(nik) + reason
  }

  /** `item.Spesialisasi ? String(item.Spesialisasi).split(',')... : []`. */
  function ImportedSpecialisations(text: string): seq<string>
  {
    if text == "" then [] else SplitList(text)
  }

  /** The record a row that passed every check is queued as. */
  function BuildRecord(row: Row, nik: string, unitId: int, statusId: int, organikId: Option<int>): (r: MemberFields)
    ensures r.nik == nik && r.unitId == Some(unitId) && r.statusId == Some(statusId)
    ensures 0 <= r.utilisasi <= 100
    ensures r.nama != "" && r.project != "" && r.lokasi != "" && r.kontak != "" && r.shift != "" && r.modeKerja != ""
    ensures Some(statusId) == organikId ==> r.kontrakBerakhir.None?
  {
    MemberFields(
      nik := nik,
      nama := OrDefault(Trim(Cell(row, "Nama")), "Tanpa Nama"),
      unitId := Some(unitId),
      project := OrDefault(Trim(Cell(row, "Project")), "MO General"),
      lokasi := OrDefault(Trim(Cell(row, "Lokasi")), "Jakarta"),
      kontak := OrDefault(Trim(Cell(row, "Kontak")), "-"),
      utilisasi := ClampPercent(ParseInt(Cell(row, "Utilisasi")).GetOr(0)),
      statusId := Some(statusId),
      shift := OrDefault(Cell(row, "Shift"), "Pagi"),
      modeKerja := OrDefault(Cell(row, "Mode"), "Onsite"),
      kontrakBerakhir := if Some(statusId) == organikId then None else NonBlank(Trim(Cell(row, "Akhir_Kontrak"))),
      spesialisasi := ImportedSpecialisations(Cell(row, "Spesialisasi")))
  }

  /** What a record queued by the reconciler always satisfies. */
  predicate WellFormedImport(rec: MemberFields, lk: Lookups)
  {
    && rec.nik != "" && IsTrimmed(rec.nik)
    && rec.nama != "" && rec.project != "" && rec.lokasi != "" && rec.kontak != ""
    && rec.shift != "" && rec.modeKerja != ""
    && 0 <= rec.utilisasi <= 100
    && rec.unitId.Some? && rec.unitId.value != 0 && rec.unitId.value in lk.unitMap.Values
    && rec.statusId.Some? && rec.statusId.value != 0 && rec.statusId.value in lk.statusMap.Values
    && (rec.statusId == lk.organikId ==> rec.kontrakBerakhir.None?)
    && (rec.kontrakBerakhir.Some? ==> rec.kontrakBerakhir.value != "" && IsTrimmed(rec.kontrakBerakhir.value))
    && forall k :: 0 <= k < |rec.spesialisasi| ==> IsListItem(rec.spesialisasi[k])
  }

  /** A text column: the trimmed cell, or `fallback` when that is blank. */
  predicate TextOr(value: string, row: Row, key: string, fallback: string)
  {
    && (Trim(Cell(row, key)) == "" ==> value == fallback)
    && (Trim(Cell(row, key)) != "" ==> value == Trim(Cell(row, key)))
  }

  /**
   * How each column of a queued record comes from its row: the NIK trimmed;
   * Nama, Project, Lokasi and Kontak trimmed with the defaults "Tanpa Nama",
   * "MO General", "Jakarta" and "-"; Shift and Mode as written with the
   * defaults "Pagi" and "Onsite"; Utilisasi parsed (0 when it is no number)
   * and clamped to [0, 100]; the ids the lookups give the row's Unit and Status
   * names; no contract date for the Organik status, the trimmed date (or none
   * when blank) otherwise; the Spesialisasi cell split into trimmed items.
   */
  predicate FilledFrom(rec: MemberFields, row: Row, lk: Lookups)
  {
    && rec.nik == RowNik(row)
    && TextOr(rec.nama, row, "Nama", "Tanpa Nama")
    && TextOr(rec.project, row, "Project", "MO General")
    && TextOr(rec.lokasi, row, "Lokasi", "Jakarta")
    && TextOr(rec.kontak, row, "Kontak", "-")
    && (Cell(row, "Shift") == "" ==> rec.shift == "Pagi")
    && (Cell(row, "Shift") != "" ==> rec.shift == Cell(row, "Shift"))
    && (Cell(row, "Mode") == "" ==> rec.modeKerja == "Onsite")
    && (Cell(row, "Mode") != "" ==> rec.modeKerja == Cell(row, "Mode"))
    && (ParseInt(Cell(row, "Utilisasi")).None? ==> rec.utilisasi == 0)
    && (ParseInt(Cell(row, "Utilisasi")).Some? ==> rec.utilisasi == ClampPercent(ParseInt(Cell(row, "Utilisasi")).value))
    && Lower(UnitName(row)) in lk.unitMap && rec.unitId == Some(lk.unitMap[Lower(UnitName(row))])
    && Lower(StatusName(row)) in lk.statusMap && rec.statusId == Some(lk.statusMap[Lower(StatusName(row))])
    && (rec.statusId == lk.organikId ==> rec.kontrakBerakhir.None?)
    && (rec.statusId != lk.organikId ==> rec.kontrakBerakhir == NonBlank(Trim(Cell(row, "Akhir_Kontrak"))))
    && rec.spesialisasi == SplitList(Cell(row, "Spesialisasi"))
  }

  /** The record of a row that passed every check is well formed, and each column is filled from the row as `FilledFrom` says. */
  lemma BuildRecordWellFormed(row: Row, lk: Lookups)
    requires RowNik(row) != ""
    requires UnitName(row) != "" && Resolve(lk.unitMap, UnitName(row)).Some?
    requires StatusName(row) != "" && Resolve(lk.statusMap, StatusName(row)).Some?
    ensures var rec := BuildRecord(row, RowNik(row), Resolve(lk.unitMap, UnitName(row)).value,
                                   Resolve(lk.statusMap, StatusName(row)).value, lk.organikId);
      WellFormedImport(rec, lk) && FilledFrom(rec, row, lk)
  {
    ImportedSpecialisationsIsSplitList(Cell(row, "Spesialisasi"));
    TrimResult(Cell(row, "NIK"));
    TrimResult(Cell(row, "Akhir_Kontrak"));
    if Cell(row, "Spesialisasi") != "" {
      SplitListItems(Cell(row, "Spesialisasi"));
    }
    assert Lower(UnitName(row)) in lk.unitMap;
    assert Lower(StatusName(row)) in lk.statusMap;
  }

  /** The checks after the duplicate test: Unit, then Status; a row passing both becomes `BuildRecord`'s record. */
  function CheckRow(row: Row, lk: Lookups): (o: RowOutcome)
    ensures !o.Duplicate?
    ensures o.Accepted? ==> o.record.nik == RowNik(row)
    ensures o.Rejected? ==> StartsWith(o.message, NikPrefix(RowNik(row)))
    ensures UnitName(row) == "" ==> o == Rejected(MissingColumnMessage(RowNik(row), "Unit"))
    ensures UnitName(row) != "" && Resolve(lk.unitMap, UnitName(row)).None? ==>
      o == Rejected(UnknownNameMessage(RowNik(row), "Unit", UnitName(row), lk.validUnits))
    ensures UnitName(row) != "" && Resolve(lk.unitMap, UnitName(row)).Some? && StatusName(row) == "" ==>
      o == Rejected(MissingColumnMessage(RowNik(row), "Status"))
    ensures UnitName(row) != "" && Resolve(lk.unitMap, UnitName(row)).Some? &&
            StatusName(row) != "" && Resolve(lk.statusMap, StatusName(row)).None? ==>
      o == Rejected(UnknownNameMessage(RowNik(row), "Status", StatusName(row), lk.validStatuses))
  {
    var nik := RowNik(row);
    var unitNama := UnitName(row);
    if unitNama == "" then Rejected(MissingColumnMessage(nik, "Unit"))
    else match Resolve(lk.unitMap, unitNama)
      case None => Rejected(UnknownNameMessage(nik, "Unit", unitNama, lk.validUnits))
      case Some(unitId) =>
        var statusNama := StatusName(row);
        if statusNama == "" then Rejected(MissingColumnMessage(nik, "Status"))
        else match Resolve(lk.statusMap, statusNama)
          case None => Rejected(UnknownNameMessage(nik, "Status", statusNama, lk.validStatuses))
          case Some(statusId) => Accepted(BuildRecord(row, nik, unitId, statusId, lk.organikId))
  }

  /**
   * One iteration of the reconciler's loop, as a value: a row whose trimmed NIK
   * is blank or already known is a duplicate; otherwise a blank or unknown Unit,
   * then a blank or unknown Status, rejects it with a message; otherwise it is
   * accepted.
   */
  function ClassifyRow(row: Row, lk: Lookups, known: set<string>): (o: RowOutcome)
    ensures o.Duplicate? <==> RowNik(row) == "" || RowNik(row) in known
  {
    if RowNik(row) == "" || RowNik(row) in known then Duplicate else CheckRow(row, lk)
  }

  /**
   * A row is accepted exactly when its NIK is new and non-blank and its Unit and
   * Status are non-blank names the lookups resolve; the record then carries the
   * resolved ids and is well formed.
   */
  lemma ClassifyRowAccepted(row: Row, lk: Lookups, known: set<string>)
    ensures var o := ClassifyRow(row, lk, known);
      && (o.Accepted? <==>
           && RowNik(row) != "" && RowNik(row) !in known
           && UnitName(row) != "" && Resolve(lk.unitMap, UnitName(row)).Some?
           && StatusName(row) != "" && Resolve(lk.statusMap, StatusName(row)).Some?)
      && (o.Accepted? ==> WellFormedImport(o.record, lk) && FilledFrom(o.record, row, lk))
  {
    if ClassifyRow(row, lk, known).Accepted? {
      BuildRecordWellFormed(row, lk);
    }
  }

  // ---------------------------------------------------------------------------
  // The whole batch

  /** The loop's running state: queued records, duplicate count, error list and the set of known NIKs. */
  datatype Tally = Tally(queued: seq<MemberFields>, duplicates: nat, errors: seq<string>, known: set<string>)

  /** How the loop sorts one row, given the NIKs known so far. */
  type Classifier = (Row, set<string>) -> RowOutcome

  /** The reconciler's own classifier. */
  function Classify(lk: Lookups): Classifier
  {
    (row, known) => ClassifyRow(row, lk, known)
  }

  /**
   * The two facts about a classifier the loop's bookkeeping rests on: blank and
   * known NIKs are duplicates, and an accepted record carries the row's NIK.
   */
  ghost predicate KeysOnNik(c: Classifier)
  {
    forall row, known ::
      && (c(row, known).Duplicate? <==> RowNik(row) == "" || RowNik(row) in known)
      && (c(row, known).Accepted? ==> c(row, known).record.nik == RowNik(row))
  }

  lemma ClassifyKeysOnNik(lk: Lookups)
    ensures KeysOnNik(Classify(lk))
  {
    forall row, known
      ensures Classify(lk)(row, known).Accepted? ==> Classify(lk)(row, known).record.nik == RowNik(row)
    {
      if RowNik(row) != "" && RowNik(row) !in known {
        assert Classify(lk)(row, known) == CheckRow(row, lk);
      }
    }
  }

  /** Every rejection names the row's NIK first: `NIK <nik>: ...`. */
  lemma ClassifyRowRejected(row: Row, lk: Lookups, known: set<string>)
    ensures var o := ClassifyRow(row, lk, known);
      o.Rejected? ==> StartsWith(o.message, NikPrefix(RowNik(row)))
  {
    if RowNik(row) != "" && RowNik(row) !in known {
      assert ClassifyRow(row, lk, known) == CheckRow(row, lk);
    }
  }

  /** The loop body's effect on the running state. */
  function Step(c: Classifier, t: Tally, row: Row): Tally
  {
    match c(row, t.known)
    case Duplicate => t.(duplicates := t.duplicates + 1)
    case Rejected(msg) => t.(errors := t.errors + [msg])
    case Accepted(rec) => t.(queued := t.queued + [rec], known := t.known + {rec.nik})
  }

  /** The state after the loop has walked `rows` in order, starting from the caller's set of known NIKs. */
  function Fold(c: Classifier, rows: seq<Row>, existing: set<string>): Tally
    decreases |rows|
  {
    if rows == [] then Tally([], 0, [], existing)
    else Step(c, Fold(c, rows[..|rows| - 1], existing), rows[|rows| - 1])
  }

  /** The reconciler's state after the whole batch. */
  function Reconcile(rows: seq<Row>, lk: Lookups, existing: set<string>): Tally
  {
    Fold(Classify(lk), rows, existing)
  }

  /** The NIKs of a list of records. */
  function NiksOf(records: seq<MemberFields>): set<string>
  {
    set i | 0 <= i < |records| :: records[i].nik
  }

  /** No two records share a NIK. */
  predicate DistinctNiks(records: seq<MemberFields>)
  {
    forall i, j :: 0 <= i < j < |records| ==> records[i].nik != records[j].nik
  }

  /** Every row lands in exactly one bucket: success + duplicates + errors = rows. */
  lemma {:induction false} FoldConservation(c: Classifier, rows: seq<Row>, existing: set<string>)
    ensures var t := Fold(c, rows, existing);
      |t.queued| + t.duplicates + |t.errors| == |rows|
    decreases |rows|
  {
    if rows != [] {
      FoldConservation(c, rows[..|rows| - 1], existing);
    }
  }

  /**
   * The known set is the caller's set plus the NIKs of the queued records, none
   * of which was known beforehand, and no two queued records share a NIK.
   */
  lemma {:induction false} FoldUniqueNiks(c: Classifier, rows: seq<Row>, existing: set<string>)
    requires KeysOnNik(c)
    ensures var t := Fold(c, rows, existing);
      && t.known == existing + NiksOf(t.queued)
      && (forall i :: 0 <= i < |t.queued| ==> t.queued[i].nik !in existing)
      && DistinctNiks(t.queued)
    decreases |rows|
  {
    if rows != [] {
      var row := rows[|rows| - 1];
      var pre := Fold(c, rows[..|rows| - 1], existing);
      FoldUniqueNiks(c, rows[..|rows| - 1], existing);
      var o := c(row, pre.known);
      if o.Accepted? {
        assert o.record.nik !in pre.known;
        var q := pre.queued + [o.record];
        assert NiksOf(q) == NiksOf(pre.queued) + {o.record.nik} by {
          assert forall i :: 0 <= i < |pre.queued| ==> q[i] == pre.queued[i];
          assert q[|q| - 1] == o.record;
        }
        assert forall i :: 0 <= i < |pre.queued| ==> pre.queued[i].nik in pre.known;
      }
    }
  }

  /** Every record of a list satisfies `WellFormedImport`. */
  ghost predicate AllWellFormed(records: seq<MemberFields>, lk: Lookups)
  {
    forall i :: 0 <= i < |records| ==> WellFormedImport(records[i], lk)
  }

  lemma AppendWellFormed(records: seq<MemberFields>, rec: MemberFields, lk: Lookups)
    requires AllWellFormed(records, lk) && WellFormedImport(rec, lk)
    ensures AllWellFormed(records + [rec], lk)
  {
    forall i | 0 <= i < |records| + 1 ensures WellFormedImport((records + [rec])[i], lk) {
      if i < |records| {
        assert (records + [rec])[i] == records[i];
      }
    }
  }

  /** A classifier whose accepted records all satisfy `WellFormedImport`. */
  ghost predicate AcceptsWellFormed(c: Classifier, lk: Lookups)
  {
    forall row, known :: c(row, known).Accepted? ==> WellFormedImport(c(row, known).record, lk)
  }

  lemma ClassifyAcceptsWellFormed(lk: Lookups)
    ensures AcceptsWellFormed(Classify(lk), lk)
  {
    forall row, known | Classify(lk)(row, known).Accepted?
      ensures WellFormedImport(Classify(lk)(row, known).record, lk)
    {
      ClassifyRowAccepted(row, lk, known);
    }
  }

  /**
   * Every queued record is well formed (a known unit and status, utilisation
   * within [0, 100], defaults filled in) and is filled, column by column, from
   * one of the batch's rows.
   */
  lemma {:induction false} ReconcileWellFormed(rows: seq<Row>, lk: Lookups, existing: set<string>)
    ensures var t := Reconcile(rows, lk, existing);
      && AllWellFormed(t.queued, lk)
      && forall k :: 0 <= k < |t.queued| ==> FromSomeRow(t.queued[k], rows, lk)
  {
    assert Reconcile(rows, lk, existing) == Fold(Classify(lk), rows, existing);
    ClassifyAcceptsWellFormed(lk);
    FoldWellFormed(Classify(lk), rows, lk, existing);
    ReconcileFilled(rows, lk, existing);
  }

  /** Some row of `rows` fills `rec`. */
  ghost predicate FromSomeRow(rec: MemberFields, rows: seq<Row>, lk: Lookups)
  {
    exists i :: 0 <= i < |rows| && FilledFrom(rec, rows[i], lk)
  }

  /** A relation between a record and the row it was accepted for. */
  type RowRelation = (MemberFields, Row) -> bool

  /** A classifier whose accepted records are each related to the row they were accepted for. */
  ghost predicate AcceptsRelated(c: Classifier, rel: RowRelation)
  {
    forall row, known :: c(row, known).Accepted? ==> rel(c(row, known).record, row)
  }

  ghost predicate RelatedToSomeRow(rec: MemberFields, rows: seq<Row>, rel: RowRelation)
  {
    exists i :: 0 <= i < |rows| && rel(rec, rows[i])
  }

  /** Each record the loop queues is related to one of the rows it walked. */
  lemma {:induction false} FoldRelated(c: Classifier, rows: seq<Row>, existing: set<string>, rel: RowRelation)
    requires AcceptsRelated(c, rel)
    ensures forall k :: 0 <= k < |Fold(c, rows, existing).queued| ==> RelatedToSomeRow(Fold(c, rows, existing).queued[k], rows, rel)
    decreases |rows|
  {
    if rows != [] {
      var m := |rows| - 1;
      var pre := Fold(c, rows[..m], existing);
      FoldRelated(c, rows[..m], existing, rel);
      var o := c(rows[m], pre.known);
      var q := Fold(c, rows, existing).queued;
      assert q == if o.Accepted? then pre.queued + [o.record] else pre.queued;
      forall k | 0 <= k < |q| ensures RelatedToSomeRow(q[k], rows, rel) {
        if k < |pre.queued| {
          assert RelatedToSomeRow(pre.queued[k], rows[..m], rel);
          var i :| 0 <= i < |rows[..m]| && rel(pre.queued[k], rows[..m][i]);
          assert rows[..m][i] == rows[i] && q[k] == pre.queued[k];
        } else {
          assert q[k] == o.record && rel(q[k], rows[m]);
        }
      }
    }
  }

  /** The queued records of the reconciler are each filled from a row of the batch. */
  lemma ReconcileFilled(rows: seq<Row>, lk: Lookups, existing: set<string>)
    ensures forall k :: 0 <= k < |Reconcile(rows, lk, existing).queued| ==> FromSomeRow(Reconcile(rows, lk, existing).queued[k], rows, lk)
  {
    var rel: RowRelation := (rec, row) => FilledFrom(rec, row, lk);
    var c := Classify(lk);
    forall row, known | c(row, known).Accepted? ensures rel(c(row, known).record, row) {
      ClassifyRowAccepted(row, lk, known);
    }
    FoldRelated(c, rows, existing, rel);
    var q := Reconcile(rows, lk, existing).queued;
    forall k | 0 <= k < |q| ensures FromSomeRow(q[k], rows, lk) {
      assert RelatedToSomeRow(q[k], rows, rel);
      var i :| 0 <= i < |rows| && rel(q[k], rows[i]);
      assert FilledFrom(q[k], rows[i], lk);
    }
  }

  lemma {:induction false} FoldWellFormed(c: Classifier, rows: seq<Row>, lk: Lookups, existing: set<string>)
    requires AcceptsWellFormed(c, lk)
    ensures AllWellFormed(Fold(c, rows, existing).queued, lk)
    decreases |rows|
  {
    if rows != [] {
      var pre := Fold(c, rows[..|rows| - 1], existing);
      FoldWellFormed(c, rows[..|rows| - 1], lk, existing);
      var o := c(rows[|rows| - 1], pre.known);
      var t := Fold(c, rows, existing);
      assert t == Step(c, pre, rows[|rows| - 1]);
      if o.Accepted? {
        assert WellFormedImport(o.record, lk);
        assert t.queued == pre.queued + [o.record];
        AppendWellFormed(pre.queued, o.record, lk);
      } else {
        assert t.queued == pre.queued;
      }
    }
  }

  /**
   * The batch is processed in row order: the state after a prefix of the rows
   * has the queued records and errors of the whole batch as prefixes, fewer
   * duplicates and fewer known NIKs.
   */
  lemma {:induction false} FoldPrefix(c: Classifier, rows: seq<Row>, existing: set<string>, n: nat)
    requires n <= |rows|
    ensures var p := Fold(c, rows[..n], existing);
            var t := Fold(c, rows, existing);
      && p.queued <= t.queued && p.errors <= t.errors
      && p.duplicates <= t.duplicates && p.known <= t.known
    decreases |rows| - n
  {
    if n == |rows| {
      assert rows[..n] == rows;
    } else {
      var m := |rows| - 1;
      assert rows[..m][..n] == rows[..n];
      FoldPrefix(c, rows[..m], existing, n);
    }
  }

  /** The state after the first `i + 1` rows is one loop step after the state after the first `i`. */
  lemma FoldStep(c: Classifier, rows: seq<Row>, existing: set<string>, i: nat)
    requires i < |rows|
    ensures Fold(c, rows[..i + 1], existing) == Step(c, Fold(c, rows[..i], existing), rows[i])
  {
    assert rows[..i + 1][..i] == rows[..i];
  }

  /** Walking one more row is one more loop step. */
  lemma FoldSnoc(c: Classifier, rows: seq<Row>, row: Row, existing: set<string>)
    ensures Fold(c, rows + [row], existing) == Step(c, Fold(c, rows, existing), row)
  {
    assert (rows + [row])[..|rows|] == rows;
  }

  /**
   * A NIK that an earlier row did not get rejected with is a duplicate when it
   * appears again later in the same batch.
   */
  lemma RepeatedNikIsDuplicate(c: Classifier, rows: seq<Row>, existing: set<string>, i: nat, j: nat)
    requires KeysOnNik(c)
    requires i < j < |rows|
    requires RowNik(rows[i]) == RowNik(rows[j])
    requires !c(rows[i], Fold(c, rows[..i], existing).known).Rejected?
    ensures c(rows[j], Fold(c, rows[..j], existing).known).Duplicate?
  {
    var nik := RowNik(rows[i]);
    var ki := Fold(c, rows[..i], existing).known;
    var ki1 := Fold(c, rows[..i + 1], existing).known;
    var kj := Fold(c, rows[..j], existing).known;
    FoldStep(c, rows, existing, i);
    assert nik == "" || nik in ki1;
    assert rows[..j][..i + 1] == rows[..i + 1];
    FoldPrefix(c, rows[..j], existing, i + 1);
    assert ki1 <= kj;
  }

  /** A row rejected for its Unit or Status leaves the known set as it was, so a later row with that NIK can still succeed. */
  lemma RejectedNikStaysFree(c: Classifier, rows: seq<Row>, existing: set<string>, i: nat)
    requires i < |rows|
    requires c(rows[i], Fold(c, rows[..i], existing).known).Rejected?
    ensures Fold(c, rows[..i + 1], existing).known == Fold(c, rows[..i], existing).known
  {
    FoldStep(c, rows, existing, i);
  }

  /** The same row twice in one batch: an accepted row is inserted once and counted once as a duplicate. */
  lemma SameRowTwice(c: Classifier, row: Row, existing: set<string>)
    requires KeysOnNik(c)
    requires c(row, existing).Accepted?
    ensures var t := Fold(c, [row, row], existing);
      |t.queued| == 1 && t.duplicates == 1 && t.errors == []
  {
    FoldSnoc(c, [], row, existing);
    FoldSnoc(c, [row], row, existing);
    assert [] + [row] == [row];
    var t1 := Fold(c, [row], existing);
    assert t1.known == existing + {RowNik(row)};
    assert c(row, t1.known).Duplicate?;
  }

  /**
   * Three rows for any classifier keyed on NIK: A accepted, B with A's NIK, C
   * rejected once A's NIK is known. One queued, one duplicate, and C's error alone.
   */
  lemma AcceptDuplicateReject(cl: Classifier, a: Row, b: Row, c: Row, existing: set<string>, msg: string)
    requires KeysOnNik(cl)
    requires cl(a, existing).Accepted?
    requires RowNik(b) == RowNik(a)
    requires cl(c, existing + {RowNik(a)}) == Rejected(msg)
    ensures var t := Fold(cl, [a, b, c], existing);
      |t.queued| == 1 && t.duplicates == 1 && t.errors == [msg]
  {
    FoldSnoc(cl, [], a, existing);
    FoldSnoc(cl, [a], b, existing);
    FoldSnoc(cl, [a, b], c, existing);
    assert [] + [a] == [a];
    assert [a] + [b] == [a, b];
    assert [a, b] + [c] == [a, b, c];
    var t1 := Fold(cl, [a], existing);
    assert t1.known == existing + {RowNik(a)} && |t1.queued| == 1 && t1.errors == [];
    assert cl(b, t1.known).Duplicate?;
    var t2 := Fold(cl, [a, b], existing);
    assert t2 == t1.(duplicates := 1);
  }

  /**
   * Three rows: A valid and new, B with A's NIK, C naming an unknown unit.
   * One success, one duplicate, and C's error alone.
   */
  lemma ValidDuplicateUnknownUnit(a: Row, b: Row, c: Row, lk: Lookups, existing: set<string>)
    requires ClassifyRow(a, lk, existing).Accepted?
    requires RowNik(b) == RowNik(a)
    requires RowNik(c) != "" && RowNik(c) !in existing && RowNik(c) != RowNik(a)
    requires UnitName(c) != "" && Resolve(lk.unitMap, UnitName(c)).None?
    ensures var t := Reconcile([a, b, c], lk, existing);
      && |t.queued| == 1 && t.duplicates == 1
      && t.errors == [UnknownNameMessage(RowNik(c), "Unit", UnitName(c), lk.validUnits)]
  {
    var msg := UnknownNameMessage(RowNik(c), "Unit", UnitName(c), lk.validUnits);
    ClassifyKeysOnNik(lk);
    UnknownUnitRejected(c, lk, existing + {RowNik(a)});
    AcceptDuplicateReject(Classify(lk), a, b, c, existing, msg);
  }

  /** A new, non-blank NIK with a Unit name the lookups do not know is rejected with the unknown-Unit message. */
  lemma UnknownUnitRejected(row: Row, lk: Lookups, known: set<string>)
    requires RowNik(row) != "" && RowNik(row) !in known
    requires UnitName(row) != "" && Resolve(lk.unitMap, UnitName(row)).None?
    ensures ClassifyRow(row, lk, known) == Rejected(UnknownNameMessage(RowNik(row), "Unit", UnitName(row), lk.validUnits))
  {
  }

  // ---------------------------------------------------------------------------
  // bulkInsertMembers

  /** The batched insert's result, an outcome of the store the model does not see. */
  datatype InsertResult = InsertOk | InsertFailed(message: string)

  /** What `bulkInsertMembers` returns, or the error it throws when the batched insert fails. */
  datatype BulkOutcome =
    | Counts(successCount: nat, duplicateCount: nat, errors: seq<string>)
    | BatchFailed(message: string)

  /** The outcome once the loop is done: the batch is sent only when something was queued. */
  function Finish(t: Tally, insert: InsertResult): (r: BulkOutcome)
    ensures r.BatchFailed? <==> |t.queued| > 0 && insert.InsertFailed?
    ensures r.BatchFailed? ==> r.message == insert.message
    ensures r.Counts? ==> r.successCount == |t.queued| && r.duplicateCount == t.duplicates && r.errors == t.errors
  {
    if |t.queued| > 0 && insert.InsertFailed? then BatchFailed(insert.message)
    else Counts(|t.queued|, t.duplicates, t.errors)
  }

  /**
   * `bulkInsertMembers(rows, existingNIKs)` once the lookup tables are fetched.
   * `existingNiks` is the caller's set; the set as the loop leaves it is
   * returned as `niks`, and `toInsert` is the batch sent to the store.
   */
  method BulkInsertMembers(rows: seq<Row>, units: seq<Entry>, statuses: seq<Entry>,
                           existingNiks: set<string>, insert: InsertResult)
    returns (outcome: BulkOutcome, toInsert: seq<MemberFields>, niks: set<string>)
    ensures var t := Reconcile(rows, MakeLookups(units, statuses), existingNiks);
      toInsert == t.queued && niks == t.known && outcome == Finish(t, insert)
    ensures outcome.Counts? ==> outcome.successCount + outcome.duplicateCount + |outcome.errors| == |rows|
    ensures outcome.BatchFailed? <==> toInsert != [] && insert.InsertFailed?
    ensures DistinctNiks(toInsert) && niks == existingNiks + NiksOf(toInsert)
    ensures forall i :: 0 <= i < |toInsert| ==> toInsert[i].nik !in existingNiks
  {
    var unitMap := BuildLookupMap(units);
    var statusMap := BuildLookupMap(statuses);
    var validUnits := Join(MapSeq(EntryName, units), ", ");
    var validStatuses := Join(MapSeq(EntryName, statuses), ", ");
    var organikId := FirstOrganikId(statuses);
    ghost var lk := MakeLookups(units, statuses);

    toInsert := [];
    var duplicateCount: nat := 0;
    var errors: seq<string> := [];
    niks := existingNiks;

    for i := 0 to |rows|
      invariant Fold(Classify(lk), rows[..i], existingNiks) == Tally(toInsert, duplicateCount, errors, niks)
    {
      FoldStep(Classify(lk), rows, existingNiks, i);
      var item := rows[i];
      var nik := Trim(Cell(item, "NIK"));

      if nik == "" || nik in niks {
        duplicateCount := duplicateCount + 1;
        continue;
      }

      var unitNama := Trim(Cell(item, "Unit"));
      if unitNama == "" {
        errors := errors + [MissingColumnMessage(nik, "Unit")];
        continue;
      }
      var unitId := Resolve(unitMap, unitNama);
      if unitId.None? {
        errors := errors + [UnknownNameMessage(nik, "Unit", unitNama, validUnits)];
        continue;
      }

      var statusNama := Trim(Cell(item, "Status"));
      if statusNama == "" {
        errors := errors + [MissingColumnMessage(nik, "Status")];
        continue;
      }
      var statusId := Resolve(statusMap, statusNama);
      if statusId.None? {
        errors := errors + [UnknownNameMessage(nik, "Status", statusNama, validStatuses)];
        continue;
      }

      toInsert := toInsert + [BuildRecord(item, nik, unitId.value, statusId.value, organikId)];
      niks := niks + {nik};
    }
    assert rows[..|rows|] == rows;

    if |toInsert| > 0 && insert.InsertFailed? {
      outcome := BatchFailed(insert.message);
    } else {
      outcome := Counts(|toInsert|, duplicateCount, errors);
    }
    FoldConservation(Classify(lk), rows, existingNiks);
    ClassifyKeysOnNik(lk);
    FoldUniqueNiks(Classify(lk), rows, existingNiks);
  }

  // ---------------------------------------------------------------------------
  // checkNikExists

  /**
   * `checkNikExists(nik, excludeId)` against the members table: some member has
   * exactly this NIK and, unless `excludeId` is absent or 0, another id.
   */
  predicate NikExists(db: seq<Member>, nik: string, excludeId: Option<int>)
  {
    exists i :: 0 <= i < |db| && db[i].nik == nik && (excludeId.None? || excludeId == Some(0) || db[i].id != excludeId.value)
  }

  // ---------------------------------------------------------------------------
  // resolveStatusNama and buildPayload

  /** The statuses with id `id`. */
  function WithId(statuses: seq<Entry>, id: int): seq<Entry>
  {
    Filter(HasId(id), statuses)
  }

  function HasId(id: int): Entry -> bool
  {
    (e: Entry) => e.id == id
  }

  /**
   * `resolveStatusNama(statusId)`: "" for a missing or zero id; otherwise the
   * name of the one status row with that id, and "" when the single-row query
   * finds none or several.
   */
  function ResolveStatusNama(statusId: Option<int>, statuses: seq<Entry>): (r: string)
    ensures statusId.None? || statusId == Some(0) ==> r == ""
    ensures r != "" ==> exists i :: 0 <= i < |statuses| && statuses[i].id == statusId.value && statuses[i].nama == r
    ensures statusId.Some? && statusId.value != 0 && |WithId(statuses, statusId.value)| == 1 ==>
      r == WithId(statuses, statusId.value)[0].nama
    ensures statusId.Some? && statusId.value != 0 && |WithId(statuses, statusId.value)| != 1 ==> r == ""
  {
    if statusId.None? || statusId == Some(0) then ""
    else
      var hits := WithId(statuses, statusId.value);
      if |hits| == 1 then
        FilterElement(HasId(statusId.value), statuses, 0);
        hits[0].nama
      else ""
  }

  /** How the payload carries the specialisations: an array, a comma-separated text, or anything else. */
  datatype SpecInput = SpecList(items: seq<string>) | SpecText(text: string) | SpecOther

  /**
   * The form's payload as `insertMember` / `updateMember` receive it. A `None`
   * id is the `NaN` of a blank selection.
   */
  datatype Payload = Payload(
    nik: string,
    nama: string,
    unitId: Option<int>,
    project: string,
    lokasi: string,
    kontak: string,
    utilisasi: int,
    statusId: Option<int>,
    shift: string,
    modeKerja: string,
    kontrakBerakhir: Option<string>,
    spesialisasi: SpecInput)

  /** `buildPayload(payload, statusNama)`: the columns written to `members` by a single insert or update. */
  function BuildPayload(p: Payload, statusNama: string): (r: MemberFields)
    ensures 0 <= r.utilisasi <= 100
    ensures 0 <= p.utilisasi <= 100 ==> r.utilisasi == p.utilisasi
    ensures r.unitId == p.unitId && r.statusId == p.statusId
    ensures r.shift != "" && r.modeKerja != ""
    ensures r.kontrakBerakhir.None? <==>
      Lower(statusNama) == "organik" || p.kontrakBerakhir.None? || p.kontrakBerakhir == Some("")
    ensures r.kontrakBerakhir.Some? ==> r.kontrakBerakhir == p.kontrakBerakhir
    ensures p.spesialisasi.SpecList? ==> r.spesialisasi == p.spesialisasi.items
    ensures p.spesialisasi.SpecOther? ==> r.spesialisasi == []
  {
    var isOrganik := Lower(statusNama) == "organik";
    MemberFields(
      nik := Trim(p.nik),
      nama := Trim(p.nama),
      unitId := p.unitId,
      project := Trim(p.project),
      lokasi := Trim(p.lokasi),
      kontak := Trim(p.kontak),
      utilisasi := ClampPercent(p.utilisasi),
      statusId := p.statusId,
      shift := OrDefault(p.shift, "Pagi"),
      modeKerja := OrDefault(p.modeKerja, "Onsite"),
      kontrakBerakhir := if isOrganik then None else (match p.kontrakBerakhir case None => None case Some(d) => NonBlank(d)),
      spesialisasi :=
        match p.spesialisasi
        case SpecList(items) => items
        case SpecText(text) => SplitList(text)
        case SpecOther => [])
  }

  /**
   * The text columns `buildPayload` writes are the payload's, trimmed; Shift and
   * Mode default to "Pagi" and "Onsite" when empty; a comma-separated text
   * becomes the list of its trimmed, non-blank items.
   */
  lemma BuildPayloadTrimmed(p: Payload, statusNama: string)
    ensures var r := BuildPayload(p, statusNama);
      && r.nik == Trim(p.nik) && r.nama == Trim(p.nama) && r.project == Trim(p.project)
      && r.lokasi == Trim(p.lokasi) && r.kontak == Trim(p.kontak)
      && IsTrimmed(r.nik) && IsTrimmed(r.nama) && IsTrimmed(r.project) && IsTrimmed(r.lokasi) && IsTrimmed(r.kontak)
      && (p.shift == "" ==> r.shift == "Pagi") && (p.shift != "" ==> r.shift == p.shift)
      && (p.modeKerja == "" ==> r.modeKerja == "Onsite") && (p.modeKerja != "" ==> r.modeKerja == p.modeKerja)
      && (p.spesialisasi.SpecText? ==> r.spesialisasi == SplitList(p.spesialisasi.text))
      && (p.spesialisasi.SpecText? ==> forall k :: 0 <= k < |r.spesialisasi| ==> IsListItem(r.spesialisasi[k]))
  {
    TrimResult(p.nik);
    TrimResult(p.nama);
    TrimResult(p.project);
    TrimResult(p.lokasi);
    TrimResult(p.kontak);
    if p.spesialisasi.SpecText? {
      SplitListItems(p.spesialisasi.text);
    }
  }

  // ---------------------------------------------------------------------------
  // normalizeRow

  /** A `members` row as the joined select returns it; `unit` and `status` are the joined lookup rows. */
  datatype DbRow = DbRow(
    id: int,
    nik: string,
    nama: string,
    project: string,
    lokasi: string,
    kontak: string,
    utilisasi: int,
    shift: string,
    modeKerja: string,
    kontrakBerakhir: Option<string>,
    spesialisasi: seq<string>,
    bebanKerja: Option<string>,
    unitId: int,
    statusId: int,
    unit: Option<Entry>,
    status: Option<Entry>)

  /**
   * `a || b` on ids: 0 is falsy. The roster's selects fetch the joined
   * `unit:unit_id` and `status:status_pegawai_id` but not the plain id
   * columns, so in the code the second operand is always `undefined`; the
   * model keeps it as a parameter so the fallback is stated as written.
   */
  function IdOr(joined: Option<Entry>, column: int): (r: int)
    ensures joined.Some? && joined.value.id != 0 ==> r == joined.value.id
    ensures joined.None? || joined.value.id == 0 ==> r == column
  {
    if joined.Some? && joined.value.id != 0 then joined.value.id else column
  }

  /** `row.unit?.nama || '-'`. */
  function NameOr(joined: Option<Entry>): (r: string)
    ensures r != ""
    ensures joined.None? || joined.value.nama == "" ==> r == "-"
    ensures joined.Some? && joined.value.nama != "" ==> r == joined.value.nama
  {
    if joined.Some? && joined.value.nama != "" then joined.value.nama else "-"
  }

  /**
   * `normalizeRow(row)`: a missing row stays missing; otherwise the joined unit
   * and status become flat ids and names, with "-" for a missing name.
   */
  function NormalizeRow(row: Option<DbRow>): (r: Option<Member>)
    ensures r.Some? <==> row.Some?
    ensures r.Some? ==> r.value.unitNama != "" && r.value.statusNama != ""
    ensures r.Some? ==> r.value.nik == row.value.nik && r.value.id == row.value.id
                        && r.value.spesialisasi == row.value.spesialisasi
                        && r.value.kontrakBerakhir == row.value.kontrakBerakhir
    ensures r.Some? ==> && r.value.nama == row.value.nama && r.value.project == row.value.project
                        && r.value.lokasi == row.value.lokasi && r.value.kontak == row.value.kontak
                        && r.value.utilisasi == row.value.utilisasi && r.value.shift == row.value.shift
                        && r.value.modeKerja == row.value.modeKerja && r.value.bebanKerja == row.value.bebanKerja
    ensures r.Some? && row.value.unit.Some? && row.value.unit.value.nama != "" ==> r.value.unitNama == row.value.unit.value.nama
    ensures r.Some? && (row.value.unit.None? || row.value.unit.value.nama == "") ==> r.value.unitNama == "-"
    ensures r.Some? && row.value.status.Some? && row.value.status.value.nama != "" ==> r.value.statusNama == row.value.status.value.nama
    ensures r.Some? && (row.value.status.None? || row.value.status.value.nama == "") ==> r.value.statusNama == "-"
    ensures r.Some? && row.value.unit.Some? && row.value.unit.value.id != 0 ==> r.value.unitId == row.value.unit.value.id
    ensures r.Some? && (row.value.unit.None? || row.value.unit.value.id == 0) ==> r.value.unitId == row.value.unitId
    ensures r.Some? && row.value.status.Some? && row.value.status.value.id != 0 ==> r.value.statusId == row.value.status.value.id
    ensures r.Some? && (row.value.status.None? || row.value.status.value.id == 0) ==> r.value.statusId == row.value.statusId
  {
    match row
    case None => None
    case Some(d) =>
      Some(Member(
        id := d.id,
        nik := d.nik,
        nama := d.nama,
        unitId := IdOr(d.unit, d.unitId),
        unitNama := NameOr(d.unit),
        project := d.project,
        lokasi := d.lokasi,
        kontak := d.kontak,
        utilisasi := d.utilisasi,
        statusId := IdOr(d.status, d.statusId),
        statusNama := NameOr(d.status),
        shift := d.shift,
        modeKerja := d.modeKerja,
        kontrakBerakhir := d.kontrakBerakhir,
        spesialisasi := d.spesialisasi,
        bebanKerja := d.bebanKerja))
  }

  // ---------------------------------------------------------------------------
  // fetchMembersForExport

  /** The export's column labels, in order. */
  const ExportHeaders: seq<string> :=
    ["NIK", "Nama", "Unit", "Project", "Lokasi", "Kontak", "Utilisasi", "Status",
     "Shift", "Mode", "Akhir_Kontrak", "Spesialisasi", "Beban_Kerja"]

  /** The flat export row of one member: names instead of ids, "" for a missing contract date, specialisations joined with ", ". */
  function ExportRecord(m: Member): (r: ExportRow)
    ensures |r| == |ExportHeaders|
    ensures forall k :: 0 <= k < |r| ==> r[k].0 == ExportHeaders[k]
  {
    [("NIK", Text(m.nik)),
     ("Nama", Text(m.nama)),
     ("Unit", Text(m.unitNama)),
     ("Project", Text(m.project)),
     ("Lokasi", Text(m.lokasi)),
     ("Kontak", Text(m.kontak)),
     ("Utilisasi", Number(m.utilisasi)),
     ("Status", Text(m.statusNama)),
     ("Shift", Text(m.shift)),
     ("Mode", Text(m.modeKerja)),
     ("Akhir_Kontrak", Text(m.kontrakBerakhir.GetOr(""))),
     ("Spesialisasi", Text(Join(m.spesialisasi, ", "))),
     ("Beban_Kerja", match m.bebanKerja case None => Null case Some(b) => Text(b))]
  }

  /** How a spreadsheet reader hands a cell back as text: blank for `null`, decimal digits for a number. */
  function CellText(v: CellValue): string
  {
    match v
    case Null => ""
    case Text(t) => t
    case Number(n) => IntToString(n)
  }

  /** The spreadsheet row an export row reads back as, keyed by column label (the first cell wins for a repeated label). */
  function SheetRow(er: ExportRow): Row
    decreases |er|
  {
    if er == [] then map[] else SheetRow(er[1..])[er[0].0 := CellText(er[0].1)]
  }

  /** What the importer fills in for a member the export wrote out. */
  function Reimported(m: Member, unitId: int, statusId: int, lk: Lookups): MemberFields
  {
    MemberFields(m.nik, m.nama, Some(unitId), m.project, m.lokasi, m.kontak, m.utilisasi, Some(statusId),
                 m.shift, m.modeKerja, if Some(statusId) == lk.organikId then None else m.kontrakBerakhir,
                 m.spesialisasi)
  }

  /** A member whose exported row the importer reads back unchanged. */
  predicate Reimportable(m: Member, lk: Lookups)
  {
    && m.nik != "" && IsTrimmed(m.nik)
    && m.nama != "" && IsTrimmed(m.nama) && m.project != "" && IsTrimmed(m.project)
    && m.lokasi != "" && IsTrimmed(m.lokasi) && m.kontak != "" && IsTrimmed(m.kontak)
    && m.shift != "" && m.modeKerja != ""
    && 0 <= m.utilisasi <= 100
    && m.unitNama != "" && IsTrimmed(m.unitNama) && Resolve(lk.unitMap, m.unitNama).Some?
    && m.statusNama != "" && IsTrimmed(m.statusNama) && Resolve(lk.statusMap, m.statusNama).Some?
    && (m.kontrakBerakhir.Some? ==> m.kontrakBerakhir.value != "" && IsTrimmed(m.kontrakBerakhir.value))
    && forall k :: 0 <= k < |m.spesialisasi| ==> IsListItem(m.spesialisasi[k])
  }

  /** A cell whose label no earlier cell repeats reads back as its own text. */
  lemma {:induction false} SheetRowCell(er: ExportRow, i: nat)
    requires i < |er|
    requires forall j :: 0 <= j < i ==> er[j].0 != er[i].0
    ensures Cell(SheetRow(er), er[i].0) == CellText(er[i].1)
    decreases i
  {
    if i > 0 {
      SheetRowCell(er[1..], i - 1);
    }
  }

  /** The export's labels are pairwise distinct. */
  lemma ExportHeadersDistinct()
    ensures forall i, j :: 0 <= i < j < |ExportHeaders| ==> ExportHeaders[i] != ExportHeaders[j]
  {
  }

  /** The cells of an exported member, read back by label. */
  lemma SheetRowOfExport(m: Member)
    ensures var row := SheetRow(ExportRecord(m));
      && Cell(row, "NIK") == m.nik && Cell(row, "Nama") == m.nama
      && Cell(row, "Unit") == m.unitNama && Cell(row, "Project") == m.project
      && Cell(row, "Lokasi") == m.lokasi && Cell(row, "Kontak") == m.kontak
      && Cell(row, "Utilisasi") == IntToString(m.utilisasi) && Cell(row, "Status") == m.statusNama
      && Cell(row, "Shift") == m.shift && Cell(row, "Mode") == m.modeKerja
      && Cell(row, "Akhir_Kontrak") == m.kontrakBerakhir.GetOr("")
      && Cell(row, "Spesialisasi") == Join(m.spesialisasi, ", ")
  {
    var er := ExportRecord(m);
    ExportHeadersDistinct();
    var row := SheetRow(er);
    forall i | 0 <= i < 12 ensures Cell(row, er[i].0) == CellText(er[i].1) {
      SheetRowCell(er, i);
    }
    assert Cell(row, "NIK") == CellText(er[0].1);
    assert Cell(row, "Nama") == CellText(er[1].1);
    assert Cell(row, "Unit") == CellText(er[2].1);
    assert Cell(row, "Project") == CellText(er[3].1);
    assert Cell(row, "Lokasi") == CellText(er[4].1);
    assert Cell(row, "Kontak") == CellText(er[5].1);
    assert Cell(row, "Utilisasi") == CellText(er[6].1);
    assert Cell(row, "Status") == CellText(er[7].1);
    assert Cell(row, "Shift") == CellText(er[8].1);
    assert Cell(row, "Mode") == CellText(er[9].1);
    assert Cell(row, "Akhir_Kontrak") == CellText(er[10].1);
    assert Cell(row, "Spesialisasi") == CellText(er[11].1);
  }

  /** `ImportedSpecialisations` is `SplitList`: the blank-cell test only short-cuts a split that yields nothing. */
  lemma ImportedSpecialisationsIsSplitList(text: string)
    ensures ImportedSpecialisations(text) == SplitList(text)
  {
    if text == "" {
      assert Split("", ',') == [""];
      assert MapSeq(Trim, [""]) == [""];
      FilterSingle(NonEmpty, "");
    }
  }

  /**
   * Export then import: the row `fetchMembersForExport` writes for a member,
   * read back by `bulkInsertMembers` with a NIK not yet known, is accepted as
   * the member's own columns with the unit and status ids resolved from its
   * names; an Organik member's contract date is dropped.
   */
  lemma ExportThenImport(m: Member, lk: Lookups, known: set<string>)
    requires Reimportable(m, lk) && m.nik !in known
    ensures ClassifyRow(SheetRow(ExportRecord(m)), lk, known) ==
      Accepted(Reimported(m, Resolve(lk.unitMap, m.unitNama).value, Resolve(lk.statusMap, m.statusNama).value, lk))
  {
    var row := SheetRow(ExportRecord(m));
    SheetRowOfExport(m);
    TrimFixedPoint(m.nik);
    TrimFixedPoint(m.nama);
    TrimFixedPoint(m.project);
    TrimFixedPoint(m.lokasi);
    TrimFixedPoint(m.kontak);
    TrimFixedPoint(m.unitNama);
    TrimFixedPoint(m.statusNama);
    TrimFixedPoint(m.kontrakBerakhir.GetOr(""));
    ParseIntOfIntToString(m.utilisasi);
    ImportedSpecialisationsIsSplitList(Join(m.spesialisasi, ", "));
    SplitListOfJoin(m.spesialisasi);
    assert ClassifyRow(row, lk, known) == CheckRow(row, lk);
  }
}

/**
 * The value types the dashboard passes around: lookup entries, roster members
 * as the views see them, the column set written to the `members` table, sort
 * settings and status messages.
 */
module Records {
  import opened Wrappers

  /** A row of a lookup table (`units`, `status_pegawai`): identifier and display name. */
  datatype Entry = Entry(id: int, nama: string)

  /** A roster member after `normalizeRow`: the columns of `members` plus the joined unit and status names. */
  datatype Member = Member(
    id: int,
    nik: string,
    nama: string,
    unitId: int,
    unitNama: string,
    project: string,
    lokasi: string,
    kontak: string,
    utilisasi: int,
    statusId: int,
    statusNama: string,
    shift: string,
    modeKerja: string,
    kontrakBerakhir: Option<string>,
    spesialisasi: seq<string>,
    bebanKerja: Option<string>)

  /**
   * The columns an insert or update writes to `members`. A `None` id stands for
   * the `NaN` that `parseInt` yields on a blank form selection.
   */
  datatype MemberFields = MemberFields(
    nik: string,
    nama: string,
    unitId: Option<int>,
    project: string,
    lokasi: string,
    kontak: string,
    utilisasi: int,
    statusId: Option<int>,
    shift: string,
    modeKerja: string,
    kontrakBerakhir: Option<string>,
    spesialisasi: seq<string>)

  /** A value in an exported row: `null`, a text or a number. */
  datatype CellValue = Null | Text(text: string) | Number(n: int)

  /** A flat row for export: column labels with their values, in column order. */
  type ExportRow = seq<(string, CellValue)>

  datatype Direction = Asc | Desc

  /** The sortable columns of the member table: `unit_nama`, `project`, `lokasi`, `kontrak_berakhir`, `utilisasi`, `beban_kerja`. */
  datatype SortKey = UnitNama | Project | Lokasi | KontrakBerakhir | Utilisasi | BebanKerja

  /** `sortConfig`: the key (`null` when unsorted) and the direction. */
  datatype SortConfig = SortConfig(key: Option<SortKey>, direction: Direction)

  /** The toast message `{ text, type }`; an empty text hides the toast. */
  datatype Message = Message(text: string, kind: string)
}

/**
 * The roster table of src/components/members/MemberList.jsx: its column
 * headers, which of them sort the table, and the contract badge of each row.
 */
module MemberList {
  import opened Wrappers
  import opened Records
  import opened Config
  import opened MembersHooks
  import opened Dashboard
  import opened UiComponents

  // ---------------------------------------------------------------------------
  // Columns

  datatype ColumnKey =
    | UnitNamaColumn | ProjectColumn | LokasiColumn | KontrakBerakhirColumn
    | UtilisasiColumn | BebanKerjaColumn | StatusNamaColumn | SpesialisasiColumn

  datatype Column = Column(key: ColumnKey, title: string, sortable: bool)

  /** The header cells after 'Nama & NIK', in order. */
  function Columns(): seq<Column>
  {
    [ Column(UnitNamaColumn, "Unit", true),
      Column(ProjectColumn, "MO Project", true),
      Column(LokasiColumn, "Lokasi", true),
      Column(KontrakBerakhirColumn, "Akhir Kontrak", true),
      Column(UtilisasiColumn, "Utilisasi", true),
      Column(BebanKerjaColumn, "Beban", true),
      Column(StatusNamaColumn, "Status & Shift", false),
      Column(SpesialisasiColumn, "Spesialisasi", false) ]
  }

  /** The sort key a column's key names, when the table can sort on it. */
  function SortKeyOf(c: ColumnKey): Option<SortKey>
  {
    match c
    case UnitNamaColumn => Some(UnitNama)
    case ProjectColumn => Some(Project)
    case LokasiColumn => Some(Lokasi)
    case KontrakBerakhirColumn => Some(KontrakBerakhir)
    case UtilisasiColumn => Some(Utilisasi)
    case BebanKerjaColumn => Some(BebanKerja)
    case StatusNamaColumn => None
    case SpesialisasiColumn => None
  }

  /** A column marked sortable names a sort key. */
  predicate WellFormed(col: Column)
  {
    col.sortable ==> SortKeyOf(col.key).Some?
  }

  /** Every header is well formed, the sortable ones name distinct keys, and the status and specialisation columns never sort. */
  lemma ColumnsTable()
    ensures |Columns()| == 8
    ensures forall i :: 0 <= i < |Columns()| ==> WellFormed(Columns()[i])
    ensures forall i, j :: 0 <= i < j < |Columns()| && Columns()[i].sortable && Columns()[j].sortable ==>
      SortKeyOf(Columns()[i].key) != SortKeyOf(Columns()[j].key)
    ensures forall i :: 0 <= i < |Columns()| && Columns()[i].key in {StatusNamaColumn, SpesialisasiColumn} ==>
      !Columns()[i].sortable
    ensures forall k: SortKey :: exists i :: 0 <= i < |Columns()| && Columns()[i].sortable && SortKeyOf(Columns()[i].key) == Some(k)
  {
    forall k: SortKey
      ensures exists i :: 0 <= i < |Columns()| && Columns()[i].sortable && SortKeyOf(Columns()[i].key) == Some(k)
    {
      match k
      case UnitNama => assert Columns()[0].sortable && SortKeyOf(Columns()[0].key) == Some(k);
      case Project => assert Columns()[1].sortable && SortKeyOf(Columns()[1].key) == Some(k);
      case Lokasi => assert Columns()[2].sortable && SortKeyOf(Columns()[2].key) == Some(k);
      case KontrakBerakhir => assert Columns()[3].sortable && SortKeyOf(Columns()[3].key) == Some(k);
      case Utilisasi => assert Columns()[4].sortable && SortKeyOf(Columns()[4].key) == Some(k);
      case BebanKerja => assert Columns()[5].sortable && SortKeyOf(Columns()[5].key) == Some(k);
    }
  }

  /** A header click: a sortable column requests its key, any other header does nothing. */
  function HeaderClick(col: Column, prev: SortConfig): (r: SortConfig)
    requires WellFormed(col)
    ensures !col.sortable ==> r == prev
    ensures col.sortable ==> r.key == SortKeyOf(col.key)
  {
    if col.sortable then NextSortConfig(prev, SortKeyOf(col.key).value) else prev
  }

  /** The icon a header shows: only sortable columns carry a `SortIcon`. */
  function HeaderIcon(col: Column, cfg: SortConfig): (r: Option<SortIconShape>)
    requires WellFormed(col)
    ensures r.Some? <==> col.sortable
  {
    if col.sortable then Some(SortIcon(SortKeyOf(col.key).value, cfg)) else None
  }

  /**
   * After a click on a sortable header, that header shows the new direction
   * and every other sortable header shows the neutral icon.
   */
  lemma HeaderClickIcons(i: nat, j: nat, prev: SortConfig)
    requires i < |Columns()| && j < |Columns()| && Columns()[i].sortable
    ensures WellFormed(Columns()[i]) && WellFormed(Columns()[j])
    ensures var cfg := HeaderClick(Columns()[i], prev);
      && (HeaderIcon(Columns()[i], cfg) == Some(Up) <==> cfg.direction == Asc)
      && (HeaderIcon(Columns()[i], cfg) == Some(Down) <==> cfg.direction == Desc)
      && (j != i && Columns()[j].sortable ==> HeaderIcon(Columns()[j], cfg) == Some(Neutral))
  {
    ColumnsTable();
    if j < i {
      assert SortKeyOf(Columns()[j].key) != SortKeyOf(Columns()[i].key) || !Columns()[j].sortable;
    }
  }

  // ---------------------------------------------------------------------------
  // KontrakBadge

  /** `Math.ceil(a / b)` for a positive divisor. */
  function CeilDiv(a: int, b: int): (r: int)
    requires b > 0
    ensures b * (r - 1) < a <= b * r
  {
    var q := (-a) / b;
    assert b * q <= -a < b * q + b;
    -q
  }

  /** The row's contract cell: 'Organik', or the date with the red 'Kadaluarsa' mark or the orange day countdown. */
  datatype KontrakBadgeView = OrganikBadge | DatedBadge(expired: bool, countdown: Option<int>)

  /**
   * `KontrakBadge`: 'Organik' without a date; otherwise `sisa` is the ceiling of
   * the days left, expired when negative, with the countdown for 0 to 60 days.
   * An unreadable date gives `NaN` days: neither expired nor counted down.
   */
  function KontrakBadge(m: Member, parse: DateParser, now: int): (r: KontrakBadgeView)
    ensures r.OrganikBadge? <==> m.kontrakBerakhir.None? || m.kontrakBerakhir == Some("")
  {
    if m.kontrakBerakhir.None? || m.kontrakBerakhir.value == "" then OrganikBadge
    else
      match MsLeft(m, parse, now)
      case None => DatedBadge(false, None)
      case Some(ms) =>
        var sisa := CeilDiv(ms, DayMs);
        DatedBadge(sisa < 0, if 0 <= sisa <= 60 then Some(sisa) else None)
  }

  /**
   * In milliseconds left: expired when at least a full day past the date, the
   * countdown from less than a day past up to 60 days ahead, never both, and
   * the countdown is the number of started days left.
   */
  lemma KontrakBadgeWindows(m: Member, parse: DateParser, now: int)
    ensures var b := KontrakBadge(m, parse, now);
      var left := MsLeft(m, parse, now);
      && (b.DatedBadge? && b.expired <==> left.Some? && left.value <= -DayMs)
      && (b.DatedBadge? && b.countdown.Some? <==> left.Some? && -DayMs < left.value <= 60 * DayMs)
      && (b.DatedBadge? ==> !(b.expired && b.countdown.Some?))
      && (b.DatedBadge? && b.countdown.Some? ==>
            DayMs * (b.countdown.value - 1) < left.value <= DayMs * b.countdown.value)
  {
    var left := MsLeft(m, parse, now);
    if left.Some? && KontrakBadge(m, parse, now).DatedBadge? {
      var sisa := CeilDiv(left.value, DayMs);
      assert sisa < 0 <==> left.value <= -DayMs;
      assert sisa <= 60 <==> left.value <= 60 * DayMs;
    }
  }

  /** Every member a notification is raised for shows the countdown in the table. */
  lemma DueShowsCountdown(m: Member, parse: DateParser, now: int)
    requires DueForNotice(m, parse, now)
    ensures KontrakBadge(m, parse, now).DatedBadge? && KontrakBadge(m, parse, now).countdown.Some?
  {
    KontrakBadgeWindows(m, parse, now);
  }

  /**
   * The row badge and the status badge agree on expiry except during the first
   * day after the date, when the status badge is already red and the row
   * badge still counts down 0 days.
   */
  lemma BadgesOnExpiry(m: Member, sisaHari: Option<int>, parse: DateParser, now: int)
    ensures var row := KontrakBadge(m, parse, now);
      var status := StatusKontrakBadge(m.kontrakBerakhir, sisaHari, parse, now);
      && (row.OrganikBadge? <==> status.OrganikStatus?)
      && (row.DatedBadge? && row.expired ==> status.expired)
      && (row.DatedBadge? && status.expired && !row.expired ==>
            -DayMs < MsLeft(m, parse, now).value < 0 && row.countdown == Some(0))
  {
    KontrakBadgeWindows(m, parse, now);
    StatusBadgeExpiry(m, sisaHari, parse, now);
  }
}

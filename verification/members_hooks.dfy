/**
 * The roster hooks of src/Hooks/useMembers.js: the filtered and sorted table
 * view, the summary-card counts, the contract-expiry notifications, the
 * duplicate-NIK guards of the single-record writes, and the `bulkImport`
 * wrapper that seeds the reconciler with the roster's NIKs.
 *
 * Time: a contract date text becomes epoch milliseconds through `parse`
 * (`None` is an Invalid Date), and `now` is the clock reading, also in
 * milliseconds. `(date - now) / 86400000` compared with a day count `k` is the
 * exact comparison of `date - now` with `k * DayMs`.
 */
module MembersHooks {
  import opened Wrappers
  import opened Seqs
  import opened Strings
  import opened Records
  import opened Config
  import opened MemberSort
  import opened MembersApi

  /** Date text to epoch milliseconds; `None` for a text `new Date` cannot read. */
  type DateParser = string -> Option<int>

  // ---------------------------------------------------------------------------
  // Days left on a contract

  /**
   * `new Date(m.kontrak_berakhir) - now` in milliseconds: `None` when the
   * member has no contract date (`!m.kontrak_berakhir`) or the date is invalid.
   */
  function MsLeft(m: Member, parse: DateParser, now: int): (r: Option<int>)
    ensures r.None? <==> m.kontrakBerakhir.None? || m.kontrakBerakhir == Some("") || parse(m.kontrakBerakhir.value).None?
    ensures r.Some? ==> r.value == parse(m.kontrakBerakhir.value).value - now
  {
    match m.kontrakBerakhir
    case None => None
    case Some(d) =>
      if d == "" then None
      else match parse(d)
        case None => None
        case Some(t) => Some(t - now)
  }

  /** The `expiring` summary filter and the `kontrakSegera` count: `diff >= 0 && diff < 60` days. */
  predicate ExpiringSoon(m: Member, parse: DateParser, now: int)
  {
    var left := MsLeft(m, parse, now);
    left.Some? && 0 <= left.value < 60 * DayMs
  }

  /** The notification window: `diff >= 0 && diff <= 60` days. */
  predicate DueForNotice(m: Member, parse: DateParser, now: int)
  {
    var left := MsLeft(m, parse, now);
    left.Some? && 0 <= left.value <= 60 * DayMs
  }

  /** A member without a contract date is never expiring nor due. */
  lemma NoDateNoExpiry(m: Member, parse: DateParser, now: int)
    requires m.kontrakBerakhir.None? || m.kontrakBerakhir == Some("")
    ensures !ExpiringSoon(m, parse, now) && !DueForNotice(m, parse, now)
  {
  }

  /** Everything expiring is due for a notice; exactly 60 days left is due but not expiring. */
  lemma ExpiringIsDue(m: Member, parse: DateParser, now: int)
    ensures ExpiringSoon(m, parse, now) ==> DueForNotice(m, parse, now)
    ensures MsLeft(m, parse, now) == Some(60 * DayMs) ==> DueForNotice(m, parse, now) && !ExpiringSoon(m, parse, now)
  {
  }

  // ---------------------------------------------------------------------------
  // useFilteredMembers: the filters

  /** `activeSummaryFilter`: one summary card, or none (`'all'`). */
  datatype SummaryFilter = AllMembers | OrganikOnly | CriticalOnly | ExpiringOnly

  /** The view settings the table passes to `useFilteredMembers`. */
  datatype ViewConfig = ViewConfig(searchTerm: string, filterUnit: string, summary: SummaryFilter, sort: SortConfig)

  /** The search of one member for an already lower-cased term `sl`. */
  predicate MatchesSearch(m: Member, sl: string)
  {
    || Contains(Lower(m.nama), sl)
    || Contains(Lower(m.nik), sl)
    || Contains(Lower(m.project), sl)
    || Contains(Lower(m.unitNama), sl)
    || exists k :: 0 <= k < |m.spesialisasi| && Contains(Lower(m.spesialisasi[k]), sl)
  }

  /** A member passes the search stage: an empty term lets everyone through. */
  predicate SearchOk(m: Member, term: string)
  {
    term == "" || MatchesSearch(m, Lower(term))
  }

  /** A member passes the unit stage: `''` and `'All'` let everyone through, any other value must equal `unit_nama`. */
  predicate UnitOk(m: Member, filterUnit: string)
  {
    filterUnit == "" || filterUnit == "All" || m.unitNama == filterUnit
  }

  /** A member passes the summary stage. `'Organik'` is matched case-sensitively here. */
  predicate SummaryOk(m: Member, summary: SummaryFilter, parse: DateParser, now: int)
  {
    match summary
    case AllMembers => true
    case OrganikOnly => m.statusNama == "Organik"
    case CriticalOnly => m.utilisasi > 90
    case ExpiringOnly => ExpiringSoon(m, parse, now)
  }

  function SearchHit(sl: string): Member -> bool
  {
    (m: Member) => MatchesSearch(m, sl)
  }

  function InUnit(filterUnit: string): Member -> bool
  {
    (m: Member) => m.unitNama == filterUnit
  }

  function SummaryHit(summary: SummaryFilter, parse: DateParser, now: int): Member -> bool
  {
    (m: Member) => SummaryOk(m, summary, parse, now)
  }

  /** The search stage: `result.filter(...)` only when the term is non-empty. */
  function SearchStage(ms: seq<Member>, term: string): seq<Member>
  {
    if term == "" then ms else Filter(SearchHit(Lower(term)), ms)
  }

  /** The unit stage. */
  function UnitStage(ms: seq<Member>, filterUnit: string): seq<Member>
  {
    if filterUnit == "" || filterUnit == "All" then ms else Filter(InUnit(filterUnit), ms)
  }

  /** The summary stage; `'all'` filters nothing. */
  function SummaryStage(ms: seq<Member>, summary: SummaryFilter, parse: DateParser, now: int): seq<Member>
  {
    if summary == AllMembers then ms else Filter(SummaryHit(summary, parse, now), ms)
  }

  /** The three filter stages in the order the hook applies them. */
  function Filtered(members: seq<Member>, cfg: ViewConfig, parse: DateParser, now: int): seq<Member>
  {
    SummaryStage(UnitStage(SearchStage(members, cfg.searchTerm), cfg.filterUnit), cfg.summary, parse, now)
  }

  /** The view: the filtered list, stably sorted by the configured column when a key is set. */
  function FilteredView(members: seq<Member>, cfg: ViewConfig, parse: DateParser, now: int): (view: seq<Member>)
    ensures multiset(view) == multiset(Filtered(members, cfg, parse, now))
    ensures cfg.sort.key.None? ==> view == Filtered(members, cfg, parse, now)
  {
    var r := Filtered(members, cfg, parse, now);
    match cfg.sort.key
    case None => r
    case Some(key) =>
      SortSpecPermutation(r, BeforeOn(key, cfg.sort.direction));
      SortSpec(r, BeforeOn(key, cfg.sort.direction))
  }

  /** All three stages at once. */
  function Passes(cfg: ViewConfig, parse: DateParser, now: int): Member -> bool
  {
    (m: Member) => SearchOk(m, cfg.searchTerm) && UnitOk(m, cfg.filterUnit) && SummaryOk(m, cfg.summary, parse, now)
  }

  /** A stage that filters nothing returns its input. */
  lemma StageAsFilter(ms: seq<Member>, cfg: ViewConfig, parse: DateParser, now: int)
    ensures SearchStage(ms, cfg.searchTerm) == Filter((m: Member) => SearchOk(m, cfg.searchTerm), ms)
    ensures UnitStage(ms, cfg.filterUnit) == Filter((m: Member) => UnitOk(m, cfg.filterUnit), ms)
    ensures SummaryStage(ms, cfg.summary, parse, now) == Filter((m: Member) => SummaryOk(m, cfg.summary, parse, now), ms)
  {
    if cfg.searchTerm == "" {
      FilterKeepsAll((m: Member) => SearchOk(m, cfg.searchTerm), ms);
    } else {
      FilterFilter((m: Member) => true, SearchHit(Lower(cfg.searchTerm)), (m: Member) => SearchOk(m, cfg.searchTerm), ms);
      FilterKeepsAll((m: Member) => true, ms);
    }
    if cfg.filterUnit == "" || cfg.filterUnit == "All" {
      FilterKeepsAll((m: Member) => UnitOk(m, cfg.filterUnit), ms);
    } else {
      FilterFilter((m: Member) => true, InUnit(cfg.filterUnit), (m: Member) => UnitOk(m, cfg.filterUnit), ms);
      FilterKeepsAll((m: Member) => true, ms);
    }
    if cfg.summary == AllMembers {
      FilterKeepsAll((m: Member) => SummaryOk(m, cfg.summary, parse, now), ms);
    } else {
      FilterFilter((m: Member) => true, SummaryHit(cfg.summary, parse, now), (m: Member) => SummaryOk(m, cfg.summary, parse, now), ms);
      FilterKeepsAll((m: Member) => true, ms);
    }
  }

  /**
   * The filtered list is exactly the roster's members that pass all three
   * stages, in roster order: a sub-sequence of the input, never a reordering.
   */
  lemma {:induction false} FilteredIsFilter(members: seq<Member>, cfg: ViewConfig, parse: DateParser, now: int)
    ensures Filtered(members, cfg, parse, now) == Filter(Passes(cfg, parse, now), members)
  {
    var s1 := SearchStage(members, cfg.searchTerm);
    var s2 := UnitStage(s1, cfg.filterUnit);
    StageAsFilter(members, cfg, parse, now);
    StageAsFilter(s1, cfg, parse, now);
    StageAsFilter(s2, cfg, parse, now);
    var p1 := (m: Member) => SearchOk(m, cfg.searchTerm);
    var p2 := (m: Member) => UnitOk(m, cfg.filterUnit);
    var p3 := (m: Member) => SummaryOk(m, cfg.summary, parse, now);
    var p12 := (m: Member) => SearchOk(m, cfg.searchTerm) && UnitOk(m, cfg.filterUnit);
    FilterFilter(p1, p2, p12, members);
    FilterFilter(p12, p3, Passes(cfg, parse, now), members);
  }

  /** A member is in the filtered list exactly when it is in the roster and passes search, unit and summary. */
  lemma FilteredMembership(members: seq<Member>, cfg: ViewConfig, parse: DateParser, now: int, m: Member)
    ensures m in Filtered(members, cfg, parse, now) <==>
      m in members && SearchOk(m, cfg.searchTerm) && UnitOk(m, cfg.filterUnit) && SummaryOk(m, cfg.summary, parse, now)
  {
    FilteredIsFilter(members, cfg, parse, now);
    FilterMembership(Passes(cfg, parse, now), members, m);
  }

  /** With no search, no unit, no summary and no sort key the view is the roster itself, in order. */
  lemma DefaultViewIsRoster(members: seq<Member>, parse: DateParser, now: int, dir: Direction)
    ensures FilteredView(members, ViewConfig("", "All", AllMembers, SortConfig(None, dir)), parse, now) == members
  {
  }

  /**
   * With a sort key the view holds the same members as the filtered list, no
   * member goes strictly before one to its left, and members with equal column
   * values (`v`) keep their filtered order.
   */
  lemma SortedView(members: seq<Member>, cfg: ViewConfig, parse: DateParser, now: int, v: SortValue)
    requires cfg.sort.key.Some?
    ensures var r := Filtered(members, cfg, parse, now);
      var view := FilteredView(members, cfg, parse, now);
      var key := cfg.sort.key.value;
      && multiset(view) == multiset(r)
      && Sorted(view, BeforeOn(key, cfg.sort.direction))
      && Filter(HasValue(ValueOn(key), v), view) == Filter(HasValue(ValueOn(key), v), r)
  {
    var key := cfg.sort.key.value;
    var before := BeforeOn(key, cfg.sort.direction);
    var r := Filtered(members, cfg, parse, now);
    SortSpecPermutation(r, before);
    BeforeOnIsStrictWeakOrder(key, cfg.sort.direction);
    SortSpecSorted(r, before);
    BeforeOnSeparates(key, cfg.sort.direction);
    SortSpecStable(r, before, ValueOn(key), v);
  }

  /** Every member of the view comes from the roster and passes the filters. */
  lemma ViewMembership(members: seq<Member>, cfg: ViewConfig, parse: DateParser, now: int, m: Member)
    ensures m in FilteredView(members, cfg, parse, now) <==>
      m in members && SearchOk(m, cfg.searchTerm) && UnitOk(m, cfg.filterUnit) && SummaryOk(m, cfg.summary, parse, now)
  {
    FilteredMembership(members, cfg, parse, now, m);
    var r := Filtered(members, cfg, parse, now);
    if cfg.sort.key.Some? {
      SortSpecPermutation(r, BeforeOn(cfg.sort.key.value, cfg.sort.direction));
      assert m in FilteredView(members, cfg, parse, now) <==> m in multiset(r);
    }
  }

  /**
   * `useFilteredMembers`: copies the roster, narrows `result` stage by stage,
   * then sorts it in place when a key is set. The roster itself is a value and
   * is left as it was.
   */
  method FilterAndSort(members: seq<Member>, cfg: ViewConfig, parse: DateParser, now: int) returns (result: seq<Member>)
    ensures result == FilteredView(members, cfg, parse, now)
  {
    result := members;
    if cfg.searchTerm != "" {
      var sl := Lower(cfg.searchTerm);
      result := Filter(SearchHit(sl), result);
    }
    if cfg.filterUnit != "" && cfg.filterUnit != "All" {
      result := Filter(InUnit(cfg.filterUnit), result);
    }
    if cfg.summary != AllMembers {
      result := Filter(SummaryHit(cfg.summary, parse, now), result);
    }
    if cfg.sort.key.Some? {
      var arr := new Member[|result|](i requires 0 <= i < |result| => result[i]);
      assert arr[..] == result;
      SortInPlace(arr, BeforeOn(cfg.sort.key.value, cfg.sort.direction));
      result := arr[..];
    }
  }

  // ---------------------------------------------------------------------------
  // useDashboardStats

  datatype Stats = Stats(total: nat, organik: nat, kontrakSegera: nat, criticalCount: nat)

  /** The summary-card counts. */
  function DashboardStats(members: seq<Member>, parse: DateParser, now: int): (s: Stats)
    ensures s.total == |members|
    ensures s.organik <= s.total && s.kontrakSegera <= s.total && s.criticalCount <= s.total
  {
    Stats(
      |members|,
      Count(SummaryHit(OrganikOnly, parse, now), members),
      Count(SummaryHit(ExpiringOnly, parse, now), members),
      Count(SummaryHit(CriticalOnly, parse, now), members))
  }

  /** Each card's count is the length of the table the card's filter shows over the whole roster. */
  lemma StatsMatchCards(members: seq<Member>, parse: DateParser, now: int, dir: Direction)
    ensures var s := DashboardStats(members, parse, now);
      && s.organik == |FilteredView(members, ViewConfig("", "All", OrganikOnly, SortConfig(None, dir)), parse, now)|
      && s.kontrakSegera == |FilteredView(members, ViewConfig("", "All", ExpiringOnly, SortConfig(None, dir)), parse, now)|
      && s.criticalCount == |FilteredView(members, ViewConfig("", "All", CriticalOnly, SortConfig(None, dir)), parse, now)|
  {
  }

  /** `kontrakSegera` counts exactly the members with a contract date 0 to 60 days (exclusive) ahead. */
  lemma KontrakSegeraCounts(members: seq<Member>, parse: DateParser, now: int, m: Member)
    ensures m in Filter(SummaryHit(ExpiringOnly, parse, now), members) <==> m in members && ExpiringSoon(m, parse, now)
  {
    FilterMembership(SummaryHit(ExpiringOnly, parse, now), members, m);
  }

  // ---------------------------------------------------------------------------
  // useContractNotifications

  datatype NoticeKind = Urgent | Warning

  /** A notification: the member's id and name and its urgency. The date text of `pesan` is not modelled. */
  datatype Notification = Notification(id: int, nama: string, tipe: NoticeKind)

  function DueHit(parse: DateParser, now: int): Member -> bool
  {
    (m: Member) => DueForNotice(m, parse, now)
  }

  /** One notification: urgent when fewer than 30 days are left. */
  function Notify(m: Member, parse: DateParser, now: int): (n: Notification)
    ensures n.id == m.id && n.nama == m.nama
    ensures n.tipe == Urgent <==> MsLeft(m, parse, now).Some? && MsLeft(m, parse, now).value < 30 * DayMs
  {
    var left := MsLeft(m, parse, now);
    Notification(m.id, m.nama, if left.Some? && left.value < 30 * DayMs then Urgent else Warning)
  }

  /** `useContractNotifications`: the due members, in roster order, as notifications. */
  function ContractNotifications(members: seq<Member>, parse: DateParser, now: int): (r: seq<Notification>)
    ensures |r| == Count(DueHit(parse, now), members)
  {
    MapSeq((m: Member) => Notify(m, parse, now), Filter(DueHit(parse, now), members))
  }

  /**
   * The `i`-th roster member, when due, has its notification at the position
   * given by the number of due members before it, carrying its id and name; it
   * is urgent exactly when fewer than 30 days are left.
   */
  lemma NotificationOfMember(members: seq<Member>, parse: DateParser, now: int, i: nat)
    requires i < |members| && DueForNotice(members[i], parse, now)
    ensures var r := ContractNotifications(members, parse, now);
      var k := Count(DueHit(parse, now), members[..i]);
      && k < |r|
      && r[k].id == members[i].id && r[k].nama == members[i].nama
      && (r[k].tipe == Urgent <==> MsLeft(members[i], parse, now).value < 30 * DayMs)
  {
    FilterIndex(DueHit(parse, now), members, i);
  }

  /** Every notification belongs to a due roster member. */
  lemma NotificationsAreDue(members: seq<Member>, parse: DateParser, now: int, k: nat)
    requires k < |ContractNotifications(members, parse, now)|
    ensures exists i :: 0 <= i < |members| && DueForNotice(members[i], parse, now)
                        && ContractNotifications(members, parse, now)[k] == Notify(members[i], parse, now)
  {
    var due := Filter(DueHit(parse, now), members);
    FilterElement(DueHit(parse, now), members, k);
    var i :| 0 <= i < |members| && members[i] == due[k];
    assert DueHit(parse, now)(due[k]);
  }

  /** The expiring count never exceeds the number of notifications. */
  lemma KontrakSegeraAtMostNotifications(members: seq<Member>, parse: DateParser, now: int)
    ensures DashboardStats(members, parse, now).kontrakSegera <= |ContractNotifications(members, parse, now)|
  {
    forall i | 0 <= i < |members| && SummaryHit(ExpiringOnly, parse, now)(members[i])
      ensures DueHit(parse, now)(members[i])
    {
      ExpiringIsDue(members[i], parse, now);
    }
    CountMonotone(SummaryHit(ExpiringOnly, parse, now), DueHit(parse, now), members);
  }

  // ---------------------------------------------------------------------------
  // addMember / editMember

  /** A single write: refused for a taken NIK, failed in the store, or written with these columns. */
  datatype WriteOutcome = NikTaken(message: string) | WriteFailed(message: string) | Written(fields: MemberFields)

  /** The store's answer to the insert or update, an outcome the model does not see. */
  function Store(fields: MemberFields, result: InsertResult): WriteOutcome
  {
    match result
    case InsertOk => Written(fields)
    case InsertFailed(msg) => WriteFailed(msg)
  }

  /**
   * `addMember(payload)` as written: `checkNikExists(payload.nik)` on the NIK as
   * typed, then `insertMember`, which writes `buildPayload`'s trimmed NIK.
   */
  function AddMember(db: seq<Member>, statuses: seq<Entry>, p: Payload, result: InsertResult): (r: WriteOutcome)
    ensures r.NikTaken? <==> NikExists(db, p.nik, None)
    ensures r.NikTaken? ==> r.message == "NIK \"" + p.nik + "\" sudah terdaftar!"
  {
    if NikExists(db, p.nik, None) then NikTaken("NIK \"" + p.nik + "\" sudah terdaftar!")
    else Store(BuildPayload(p, ResolveStatusNama(p.statusId, statuses)), result)
  }

  /** `editMember(id, payload)` as written: the check excludes the member's own id, on the NIK as typed. */
  function EditMember(db: seq<Member>, statuses: seq<Entry>, id: int, p: Payload, result: InsertResult): (r: WriteOutcome)
    ensures r.NikTaken? <==> NikExists(db, p.nik, Some(id))
    ensures r.NikTaken? ==> r.message == "NIK \"" + p.nik + "\" sudah digunakan member lain!"
  {
    if NikExists(db, p.nik, Some(id)) then NikTaken("NIK \"" + p.nik + "\" sudah digunakan member lain!")
    else Store(BuildPayload(p, ResolveStatusNama(p.statusId, statuses)), result)
  }

  /** A member whose NIK is "A" and a payload typing "A " for a new member. */
  function TakenMember(): Member
  {
    Member(1, "A", "Ani", 1, "Unit", "P", "L", "-", 50, 1, "Organik", "Pagi", "Onsite", None, [], None)
  }

  function PaddedPayload(): Payload
  {
    Payload("A ", "Budi", Some(1), "P", "L", "-", 50, Some(1), "Pagi", "Onsite", None, SpecOther)
  }

  /**
   * The guard compares the untrimmed NIK while the store receives the trimmed
   * one: "A " passes the check against a roster holding "A", and "A" is
   * written a second time.
   */
  lemma PaddedNikSlipsThrough()
    ensures var db := [TakenMember()];
      var r := AddMember(db, [], PaddedPayload(), InsertOk);
      r.Written? && r.fields.nik == "A" && NikExists(db, r.fields.nik, None)
  {
    var db := [TakenMember()];
    assert !NikExists(db, PaddedPayload().nik, None) by {
      assert db[0].nik != "A ";
    }
    assert Trim("A ") == "A" by {
      assert "A "[|"A "| - 1] == ' ';
      assert "A "[..1] == "A";
    }
    assert NikExists(db, "A", None) by {
      assert db[0].nik == "A";
    }
  }

  /** `addMember` with the guard on the NIK `buildPayload` stores. */
  function AddMemberChecked(db: seq<Member>, statuses: seq<Entry>, p: Payload, result: InsertResult): (r: WriteOutcome)
    ensures r.NikTaken? <==> NikExists(db, Trim(p.nik), None)
  {
    if NikExists(db, Trim(p.nik), None) then NikTaken("NIK \"" + p.nik + "\" sudah terdaftar!")
    else Store(BuildPayload(p, ResolveStatusNama(p.statusId, statuses)), result)
  }

  /** `editMember` with the guard on the NIK `buildPayload` stores. */
  function EditMemberChecked(db: seq<Member>, statuses: seq<Entry>, id: int, p: Payload, result: InsertResult): (r: WriteOutcome)
    ensures r.NikTaken? <==> NikExists(db, Trim(p.nik), Some(id))
  {
    if NikExists(db, Trim(p.nik), Some(id)) then NikTaken("NIK \"" + p.nik + "\" sudah digunakan member lain!")
    else Store(BuildPayload(p, ResolveStatusNama(p.statusId, statuses)), result)
  }

  /** With the corrected guard, a written NIK belongs to no roster member (other than the edited one). */
  lemma CheckedWritesKeepNiksUnique(db: seq<Member>, statuses: seq<Entry>, id: int, p: Payload, result: InsertResult)
    ensures var r := AddMemberChecked(db, statuses, p, result);
      r.Written? ==> forall i :: 0 <= i < |db| ==> db[i].nik != r.fields.nik
    ensures var r := EditMemberChecked(db, statuses, id, p, result);
      r.Written? ==> forall i :: 0 <= i < |db| && (id == 0 || db[i].id != id) ==> db[i].nik != r.fields.nik
  {
    var f := BuildPayload(p, ResolveStatusNama(p.statusId, statuses));
    assert f.nik == Trim(p.nik);
  }

  /** A taken NIK is refused before anything is written, whatever the store would answer. */
  lemma TakenNikWritesNothing(db: seq<Member>, statuses: seq<Entry>, id: int, p: Payload, result: InsertResult)
    requires NikExists(db, p.nik, Some(id))
    ensures EditMember(db, statuses, id, p, result).NikTaken?
    ensures NikExists(db, p.nik, None) && AddMember(db, statuses, p, result).NikTaken?
  {
    var i :| 0 <= i < |db| && db[i].nik == p.nik && (id == 0 || db[i].id != id);
    assert NikExists(db, p.nik, None);
  }

  // ---------------------------------------------------------------------------
  // bulkImport

  /** `new Set(members.map((m) => m.nik))`. */
  function RosterNiks(members: seq<Member>): (r: set<string>)
    ensures forall i :: 0 <= i < |members| ==> members[i].nik in r
    ensures forall n :: n in r ==> exists i :: 0 <= i < |members| && members[i].nik == n
  {
    set i | 0 <= i < |members| :: members[i].nik
  }

  /** The roster state `bulkImport` works on: the loaded members and the processing flag. */
  class MembersStore {
    var members: seq<Member>
    var isProcessing: bool

    constructor(members: seq<Member>)
      ensures this.members == members && !isProcessing
    {
      this.members := members;
      isProcessing := false;
    }

    /**
     * `bulkImport(rows)`: raises the flag, reconciles the rows against the
     * roster's NIKs, and lowers the flag again whether the batch insert
     * succeeded or threw. The roster is refreshed by the realtime reload, which
     * is not modelled, so it is unchanged here.
     */
    method BulkImport(rows: seq<Row>, units: seq<Entry>, statuses: seq<Entry>, insert: InsertResult)
      returns (outcome: BulkOutcome, toInsert: seq<MemberFields>)
      modifies this
      ensures members == old(members) && !isProcessing
      ensures outcome == Finish(Reconcile(rows, MakeLookups(units, statuses), RosterNiks(members)), insert)
      ensures toInsert == Reconcile(rows, MakeLookups(units, statuses), RosterNiks(members)).queued
      ensures forall i, j :: 0 <= i < |toInsert| && 0 <= j < |members| ==> toInsert[i].nik != members[j].nik
    {
      isProcessing := true;
      var existing := RosterNiks(members);
      var niks;
      outcome, toInsert, niks := BulkInsertMembers(rows, units, statuses, existing, insert);
      isProcessing := false;
    }
  }
}

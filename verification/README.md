# Roster dashboard: a verified model

This project models the data logic of an SSO roster dashboard, a React
application over a Supabase `members` table. The modelled parts are:

- the spreadsheet bulk import that reconciles rows against the NIKs (employee
  codes) already on the roster, and resolves Unit and Status names to ids;
- the payload builders for single inserts and updates, the join
  normaliser and the flat export rows;
- the derived views of the roster: the filtered and sorted table, the
  summary-card counts and the contract-expiry notifications;
- the duplicate-NIK guards of the single-record writes;
- the CSV export writer;
- the member form;
- the dashboard's toggles and save and upload outcomes;
- the member table's headers and contract badge;
- the small UI decisions (toast, sort icon, status badge, avatar initials,
  utilisation colour);
- the role derivation.

Modules, one per source file plus shared helpers:

- Wrappers, Seqs, Strings (wrappers.dfy, seqs.dfy, strings.dfy): `Option`; `filter`/`map`; JavaScript `trim`, ASCII case mapping, `split`/`join`, `includes`, `parseInt`, `String(n)`
- Records, Config (records.dfy, config.dfy): the shared records; `BEBAN_KERJA_WEIGHTS` and the day length
- MembersApi (members_api.dfy): `bulkInsertMembers`, `buildLookupMap`, `buildPayload`, `normalizeRow`, the export mapping
- MemberSort (member_sort.dfy): the comparator of the table sort and the stable sort it gets
- MembersHooks (members_hooks.dfy): `useFilteredMembers`, `useDashboardStats`, `useContractNotifications`, `addMember`/`editMember`/`bulkImport`
- ExportHooks (export_hooks.dfy): the CSV content of `exportToCSV`
- MemberForm (member_form.dfy): the form state, `handleChange`, `handleSubmit`
- Dashboard (dashboard.dfy): the sort, summary and menu toggles, `openAdd`, `handleSave`, `handleBulkUploadChange`
- MemberList (member_list.dfy): the column table and `KontrakBadge`
- UiComponents (ui_components.dfy): `Toast`, `SortIcon`, `StatusKontrakBadge`, `Avatar`, `UtilBar`
- AuthApi (auth_api.dfy): `getUserRole`

How the model represents things the program does not make explicit:

- **Time.** A contract date text becomes epoch milliseconds through a
  parameter `parse: string -> Option<int>`, where `None` is an Invalid Date.
  The clock reading is a parameter `now`. A day-count comparison
  `(date - now) / 86400000 < k` is stated as `date - now < k * 86400000`,
  which is exact.
- **Numbers from text.** `parseInt` yields `Option<int>`, with `None` for
  `NaN`. JavaScript's falsy tests are written out: `!id` rejects an id of 0,
  and `x || fallback` replaces "".
- **The Supabase store.** Every call to the store is an input. The lookup
  tables are sequences of `Entry`. A batched or single write answers
  `InsertOk` or `InsertFailed(message)`. The roster is the `members` sequence
  the hook holds.
- **Mutable state.** The source mutates state in three places. The
  reconciliation loop is the method `MembersApi.BulkInsertMembers`, with loop
  invariants tying its counters, error list and NIK set to a functional fold.
  The in-place `result.sort` is an insertion sort on an `array`
  (`MemberSort.SortInPlace`). The hook's processing flag and the page's modal
  and toast state are fields of the classes `MembersHooks.MembersStore` and
  `Dashboard.DashboardPage`.

Where the prose description of the system and the code differ, the model
follows the code. The search also matches `unit_nama`
(src/Hooks/useMembers.js:109). The 'Organik' test is exact-case in the
views and the stats, but lower-cased in the import, in `buildPayload` and in
the form.

## Model

| member | source | states |
|---|---|---|
| `MembersApi.OrDefault` | src/lib/MembersApi.js:151-159 | `text \|\| fallback`: a non-empty text is kept, an empty one gives the fallback; a non-empty fallback makes the result non-empty |
| `MembersApi.NonBlank` | src/lib/MembersApi.js:147 | `text \|\| null`: absent exactly for "", otherwise the text itself |
| `MembersApi.ClampPercent` | src/lib/MembersApi.js:156 | the result lies in [0, 100], equals the input inside that range, and is 0 below it and 100 above it |
| `MembersApi.LookupMapLaterWins` | src/lib/MembersApi.js:253-256 | the lookup map's keys are exactly the lower-cased names, and each maps to the id of the LAST entry with that lower-cased name |
| `MembersApi.BuildLookupMap` | src/lib/MembersApi.js:253-256 | the `reduce` loop yields the lookup map whose later-wins property is proved |
| `MembersApi.Resolve` | src/lib/MembersApi.js:127-128 | a name resolves exactly when its lower-case form is a key whose id is not 0 (JavaScript `!unit_id`) |
| `MembersApi.FirstOrganikIdIsFirst` | src/lib/MembersApi.js:104-106 | the Organik id is the id of the first status whose lower-cased name is 'organik', and absent when there is none |
| `MembersApi.MissingColumnMessage` | src/lib/MembersApi.js:124 | the 'wajib diisi' error names the row's NIK first |
| `MembersApi.UnknownNameMessage` | src/lib/MembersApi.js:129 | the 'tidak ditemukan' error names the row's NIK first |
| `MembersApi.BuildRecord` | src/lib/MembersApi.js:145-165 | the queued record carries the checked NIK and the resolved unit and status ids; utilisasi lies in [0, 100]; nama, project, lokasi, kontak, shift and mode are never empty; the Organik id gets no contract date |
| `MembersApi.BuildRecordWellFormed` | src/lib/MembersApi.js:145-165 | the record is well formed and each column comes from the row (`FilledFrom`): Nama, Project, Lokasi and Kontak trimmed, or "Tanpa Nama", "MO General", "Jakarta" and "-" when blank; Shift and Mode as written, or "Pagi" and "Onsite" when empty; utilisasi 0 for no number, otherwise the number clamped to [0, 100]; ids resolved from the names; no contract date for the Organik id, otherwise the trimmed date or null when blank; the Spesialisasi cell split on commas into trimmed non-empty items |
| `MembersApi.CheckRow` | src/lib/MembersApi.js:121-165 | after the duplicate test: a blank Unit gives `Kolom "Unit" wajib diisi`; an unknown Unit gives `Unit "<name>" tidak ditemukan` with the valid units; then a blank Status and an unknown Status give the same two errors for Status with the valid statuses; every error starts with `NIK <nik>:`; an accepted record carries the row's NIK |
| `MembersApi.ClassifyRow` | src/lib/MembersApi.js:113-119 | a row is a duplicate exactly when its trimmed NIK is blank or already known |
| `MembersApi.ClassifyRowAccepted` | src/lib/MembersApi.js:121-165 | a row is accepted exactly when its NIK is new and non-blank and its Unit and Status are non-blank names that resolve; the record is then well formed and filled from the row as `BuildRecordWellFormed` states |
| `MembersApi.ClassifyKeysOnNik` | src/lib/MembersApi.js:113-119 | the duplicate test depends on the known set only through the row's NIK, and an accepted record's NIK is the row's NIK |
| `MembersApi.ClassifyRowRejected` | src/lib/MembersApi.js:121-142 | every rejection message starts with the row's NIK |
| `MembersApi.FoldConservation` | src/lib/MembersApi.js:112-175 | every row lands in exactly one bucket: queued + duplicates + errors = rows |
| `MembersApi.FoldUniqueNiks` | src/lib/MembersApi.js:116-167 | the final known set is the caller's set plus the queued NIKs; no queued NIK was known beforehand; no two queued records share a NIK |
| `MembersApi.ReconcileWellFormed` | src/lib/MembersApi.js:112-168 | every queued record is well formed and is filled, column by column, from one of the batch's rows (`FilledFrom`, as for `BuildRecordWellFormed`) |
| `MembersApi.FoldRelated` | src/lib/MembersApi.js:112-168 | for any classifier, each record the loop queues is related to one of the rows it walked, whatever relation the classifier keeps between an accepted record and its row |
| `MembersApi.ReconcileFilled` | src/lib/MembersApi.js:112-168 | each record the reconciler queues is filled from some row of the batch |
| `MembersApi.FoldPrefix` | src/lib/MembersApi.js:112-168 | the state after a prefix of the rows has the batch's queued records and errors as prefixes, and no more duplicates or known NIKs |
| `MembersApi.RepeatedNikIsDuplicate` | src/lib/MembersApi.js:116-167 | a NIK whose earlier row was not rejected is a duplicate when it appears again later in the batch |
| `MembersApi.RejectedNikStaysFree` | src/lib/MembersApi.js:121-142 | a row rejected for Unit or Status leaves the known set unchanged, so a later row with that NIK can still succeed |
| `MembersApi.SameRowTwice` | src/lib/MembersApi.js:112-168 | an accepted row given twice is queued once and counted once as a duplicate |
| `MembersApi.AcceptDuplicateReject` | src/lib/MembersApi.js:112-168 | rows A (accepted), B (A's NIK) and C (rejected) give one queued record, one duplicate and C's error alone |
| `MembersApi.ValidDuplicateUnknownUnit` | src/lib/MembersApi.js:112-168 | a valid row, its repeat and a row naming an unknown unit give one success, one duplicate and the unknown-Unit error |
| `MembersApi.UnknownUnitRejected` | src/lib/MembersApi.js:127-130 | a new NIK with an unresolvable Unit name is rejected with the message listing the valid units |
| `MembersApi.Finish` | src/lib/MembersApi.js:167-175 | the batch fails, with the store's message, exactly when something was queued and the store refused it; otherwise the counts are the queued records, the duplicates and the errors of the loop |
| `MembersApi.BulkInsertMembers` | src/lib/MembersApi.js:85-176 | the loop computes the fold. Counts add up to the number of rows. The batch fails exactly when something was queued and the store refused it. Queued NIKs are distinct and new. The returned set is the old set plus the queued NIKs |
| `MembersApi.ResolveStatusNama` | src/lib/MembersApi.js:242-250 | a missing or 0 id gives ""; when exactly one status has the id, its name; when none or several have it (`.single()` yields no data), ""; a non-empty name is always the name of a status with that id |
| `MembersApi.BuildPayload` | src/lib/MembersApi.js:216-239 | utilisasi is clamped into [0, 100]; ids pass through; shift and mode are never empty; the contract date is null exactly for an 'organik' status name (any case) or a blank date; an array of specialisations passes through unchanged |
| `MembersApi.BuildPayloadTrimmed` | src/lib/MembersApi.js:221-236 | nik, nama, project, lokasi and kontak are the payload's own texts trimmed; shift and mode are the payload's, or "Pagi" and "Onsite" when empty; a comma-separated text becomes the list of its trimmed, non-empty, comma-free items |
| `MembersApi.IdOr` | src/lib/MembersApi.js:205-206 | `row.unit?.id \|\| row.unit_id`: the joined id unless it is missing or 0, then the row's own column |
| `MembersApi.NameOr` | src/lib/MembersApi.js:207-208 | `row.unit?.nama \|\| '-'`: the joined name when present and non-empty, otherwise '-' |
| `MembersApi.NormalizeRow` | src/lib/MembersApi.js:201-212 | a missing row stays missing; otherwise the unit and status names are the joined ones, or '-' when missing or empty; the unit and status ids are the joined ones unless missing or 0, then the row's own columns; id, NIK, nama, project, lokasi, kontak, utilisasi, shift, mode, contract date, specialisations and workload pass through |
| `MembersApi.ExportRecord` | src/lib/MembersApi.js:181-195 | one cell per export column, labelled in the export's column order |
| `MembersApi.ExportHeadersDistinct` | src/lib/MembersApi.js:182-194 | the export's column labels are pairwise distinct |
| `MembersApi.SheetRowCell` | src/lib/MembersApi.js:181-195 | a cell whose label no earlier cell repeats reads back as its own text |
| `MembersApi.SheetRowOfExport` | src/lib/MembersApi.js:181-195 | an exported member read back by label gives its own columns, "" for a missing contract and the specialisations joined with ', ' |
| `MembersApi.ImportedSpecialisationsIsSplitList` | src/lib/MembersApi.js:161-163 | the import's specialisation split equals the split-trim-drop-empties list |
| `MembersApi.ExportThenImport` | src/lib/MembersApi.js:112-196 | a member's exported row, imported again, is accepted as the member's own columns with ids resolved from its names |
| `Strings.TrimResult` | src/lib/MembersApi.js:113 | `trim` yields a text with no white space at either end, and it is the slice of the input that starts after the leading white space |
| `Strings.TrimFixedPoint` | src/lib/MembersApi.js:113 | `trim` leaves a text unchanged exactly when it has no white space at either end |
| `Strings.TrimIdempotent` | src/lib/MembersApi.js:113 | trimming twice is trimming once |
| `Strings.Lower` | src/lib/MembersApi.js:127 | `toLowerCase` keeps the length and lower-cases each character |
| `Strings.LowerIsLower` | src/lib/MembersApi.js:127 | a lower-cased text has no upper-case letter and lower-casing it again changes nothing |
| `Strings.Upper` | src/components/ui/index.jsx:127 | `toUpperCase` keeps the length and upper-cases each character |
| `Strings.ContainsIff` | src/Hooks/useMembers.js:106-110 | `includes` holds exactly when the term occurs at some position of the text |
| `Strings.Split` | src/lib/MembersApi.js:162 | `split` yields at least one piece and no piece holds the separator |
| `Strings.SplitJoin` | src/lib/MembersApi.js:162 | joining the pieces of a split with the separator gives the text back |
| `Strings.JoinSplit` | src/lib/MembersApi.js:162 | splitting the join of separator-free pieces gives the pieces back |
| `Strings.ParseInt` | src/lib/MembersApi.js:156 | `parseInt` without a radix is a number exactly when, after leading white space and one sign, a digit follows (a hexadecimal digit after `0x`/`0X`); the number is that magnitude, negated after a minus sign |
| `Strings.Magnitude` | src/lib/MembersApi.js:156 | the unsigned number is present exactly when a decimal digit starts the text, or a hexadecimal digit follows a `0x`/`0X` prefix |
| `Strings.ParseIntHex` | src/lib/MembersApi.js:156 | `parseInt("0x1A")` is 26 |
| `Strings.ParseIntNegativeHex` | src/lib/MembersApi.js:156 | `parseInt(" -0X1a")` is -26: white space, then the sign, then the prefix |
| `Strings.ParseIntBareHexPrefix` | src/lib/MembersApi.js:156 | `parseInt("0x")` is `NaN` |
| `Strings.SplitListOfJoin` | src/lib/MembersApi.js:161-163 | a list of trimmed, non-empty, comma-free items survives `join(', ')` followed by the comma split |
| `Strings.SplitListItems` | src/lib/MembersApi.js:161-163 | every item the comma split yields is trimmed, non-empty and comma-free |
| `Strings.SplitListNormalises` | src/lib/MembersApi.js:161-163 | splitting the join of a split gives the split again |
| `Strings.ParseIntOfIntToString` | src/components/members/MemberForm.jsx:57-62 | `parseInt(String(n))` is `n` for every integer, with numbers as unbounded integers (double range under Left out) |
| `MemberSort.Weight` | src/config/supabase.jsx:33-38 | a workload listed in `BEBAN_KERJA_WEIGHTS` weighs its listed weight (Critical 4), an unlisted or missing one weighs 0, so every weight lies in [0, 4] |
| `MemberSort.SortValueKind` | src/Hooks/useMembers.js:132-137 | one column compares values of one kind: numbers for utilisasi and beban_kerja, texts otherwise |
| `MemberSort.StrLessIrreflexive` | src/Hooks/useMembers.js:138-139 | no text is below itself |
| `MemberSort.StrLessTransitive` | src/Hooks/useMembers.js:138-139 | `<` on texts is transitive |
| `MemberSort.StrLessTotal` | src/Hooks/useMembers.js:138-139 | two different texts are ordered one way or the other |
| `MemberSort.ValueLessOrder` | src/Hooks/useMembers.js:138-139 | `<` on column values is a strict total order |
| `MemberSort.Compare` | src/Hooks/useMembers.js:131-141 | the comparator answers -1, 0 or 1; equal values give 0; when `a`'s value is smaller it answers -1 for ascending and 1 for descending |
| `MemberSort.BeforeOrder` | src/Hooks/useMembers.js:131-141 | the comparator puts `a` first exactly when its value is smaller (ascending) or larger (descending); members tie exactly on equal values; the relation is a strict weak order |
| `MemberSort.BeforeOnIsStrictWeakOrder` | src/Hooks/useMembers.js:131-141 | the comparator relation is irreflexive and transitive, and its ties are transitive |
| `MemberSort.BeforeOnSeparates` | src/Hooks/useMembers.js:131-141 | the comparator never separates members with equal column values |
| `MemberSort.InsertRight` | src/Hooks/useMembers.js:131 | inserting one element adds exactly one element |
| `MemberSort.SortSpec` | src/Hooks/useMembers.js:131 | the sort keeps the length |
| `MemberSort.InsertRightAt` | src/Hooks/useMembers.js:131 | the inserted element lands right after the last element it does not go before |
| `MemberSort.InsertRightShape` | src/Hooks/useMembers.js:131 | the insertion splits its input at one position and puts the element there |
| `MemberSort.InsertRightPermutation` | src/Hooks/useMembers.js:131 | inserting adds exactly that element to the multiset |
| `MemberSort.SortSpecPermutation` | src/Hooks/useMembers.js:131 | the sorted result is a permutation of its input |
| `MemberSort.InsertRightSorted` | src/Hooks/useMembers.js:131 | inserting into a sorted sequence keeps it sorted |
| `MemberSort.SortSpecSorted` | src/Hooks/useMembers.js:131 | in the result no element goes strictly before one to its left |
| `MemberSort.InsertRightStable` | src/Hooks/useMembers.js:131 | inserting keeps each group of equal values in its original order |
| `MemberSort.SortSpecStable` | src/Hooks/useMembers.js:131 | the sort is stable: members with equal values keep their relative order, ascending or descending |
| `MemberSort.SortInPlace` | src/Hooks/useMembers.js:130-142 | the in-place insertion sort leaves the array equal to the stable sort of its old contents |
| `MemberSort.ShiftIn` | src/Hooks/useMembers.js:131 | one pass moves `a[i]` into the sorted prefix and leaves the rest of the array alone |
| `MembersHooks.NoDateNoExpiry` | src/Hooks/useMembers.js:124 | a member without a contract date is never expiring and never due |
| `MembersHooks.MsLeft` | src/Hooks/useMembers.js:123-124 | no difference exactly when the member has no contract date, an empty one, or one that is not a date; otherwise the date minus now |
| `MembersHooks.ExpiringIsDue` | src/Hooks/useMembers.js:126 | every expiring member (0 ≤ days < 60) is due a notice (0 ≤ days ≤ 60); exactly 60 days is due but not expiring |
| `MembersHooks.StageAsFilter` | src/Hooks/useMembers.js:103-128 | each stage that filters nothing returns its input unchanged |
| `MembersHooks.FilteredIsFilter` | src/Hooks/useMembers.js:101-128 | the filtered list is the roster's members that pass all three stages, in roster order |
| `MembersHooks.FilteredMembership` | src/Hooks/useMembers.js:103-128 | a member is shown exactly when it is on the roster and passes search (term a substring of nama, nik, project, unit_nama or a specialisation, case-insensitive), unit and summary |
| `MembersHooks.DefaultViewIsRoster` | src/Hooks/useMembers.js:101-144 | no search, unit 'All', summary 'all' and no sort key show the roster itself, in order |
| `MembersHooks.FilteredView` | src/Hooks/useMembers.js:101-144 | the view holds the same members, as a multiset, as the filtered list, and is that list itself when no sort key is set |
| `MembersHooks.SortedView` | src/Hooks/useMembers.js:130-142 | the sorted view is a permutation of the filtered list, ordered by the column in the requested direction, with equal values in filtered order |
| `MembersHooks.ViewMembership` | src/Hooks/useMembers.js:101-144 | every member of the view is on the roster and passes the filters |
| `MembersHooks.FilterAndSort` | src/Hooks/useMembers.js:99-146 | copying, filtering and sorting in place yields the specified view, and the roster is untouched |
| `MembersHooks.DashboardStats` | src/Hooks/useMembers.js:149-160 | total is the roster size and each count is at most the total |
| `MembersHooks.StatsMatchCards` | src/Hooks/useMembers.js:150-158 | organik, kontrakSegera and criticalCount are the sizes of the 'organik', 'expiring' and 'critical' views of the whole roster |
| `MembersHooks.KontrakSegeraCounts` | src/Hooks/useMembers.js:153-157 | kontrakSegera counts exactly the members with a contract date 0 to 60 days (exclusive) ahead |
| `MembersHooks.ContractNotifications` | src/Hooks/useMembers.js:163-178 | one notification per due member |
| `MembersHooks.Notify` | src/Hooks/useMembers.js:172-177 | a notification carries the member's id and name and is urgent exactly when the member has a date less than 30 days ahead |
| `MembersHooks.NotificationOfMember` | src/Hooks/useMembers.js:166-177 | each due member's notification sits at its roster-order position and carries its id and name; it is urgent exactly when fewer than 30 days are left |
| `MembersHooks.NotificationsAreDue` | src/Hooks/useMembers.js:166-171 | every notification belongs to a roster member with 0 ≤ days ≤ 60 |
| `MembersHooks.KontrakSegeraAtMostNotifications` | src/Hooks/useMembers.js:153-171 | the expiring count never exceeds the number of notifications |
| `MembersHooks.AddMember` | src/Hooks/useMembers.js:62-68 | as written: refused with `NIK "<nik>" sudah terdaftar!` exactly when the untrimmed NIK is on the roster |
| `MembersHooks.EditMember` | src/Hooks/useMembers.js:70-76 | as written: refused with `NIK "<nik>" sudah digunakan member lain!` exactly when another member has the untrimmed NIK |
| `MembersHooks.PaddedNikSlipsThrough` | src/Hooks/useMembers.js:63-65 | a NIK typed with a trailing space passes the guard and a duplicate of an existing NIK is written |
| `MembersHooks.AddMemberChecked` | src/Hooks/useMembers.js:62-68 | corrected: refused exactly when the trimmed NIK, the one stored, is on the roster |
| `MembersHooks.EditMemberChecked` | src/Hooks/useMembers.js:70-76 | corrected: refused exactly when another member has the trimmed NIK |
| `MembersHooks.CheckedWritesKeepNiksUnique` | src/Hooks/useMembers.js:62-76 | with the corrected guard a written NIK belongs to no other roster member |
| `MembersHooks.TakenNikWritesNothing` | src/Hooks/useMembers.js:62-76 | a taken NIK is refused before any write, whatever the store would answer |
| `MembersHooks.RosterNiks` | src/Hooks/useMembers.js:86 | the seeded set holds exactly the roster's NIKs |
| `MembersHooks.MembersStore.constructor` | src/Hooks/useMembers.js:83-93 | a store holds its roster, not processing |
| `MembersHooks.MembersStore.BulkImport` | src/Hooks/useMembers.js:83-93 | the rows are reconciled against the roster's NIKs; no queued NIK is on the roster; the processing flag ends false; the roster is unchanged |
| `ExportHooks.Escape` | src/Hooks/useExport.js:25 | escaping never shortens the text |
| `ExportHooks.Quote` | src/Hooks/useExport.js:25 | a written cell starts and ends with a double quote |
| `ExportHooks.NullCellIsEmptyQuoted` | src/Hooks/useExport.js:25 | a missing key or a null value is written `""` |
| `ExportHooks.ReadQuoted` | src/Hooks/useExport.js:25 | what follows a read quoted text is strictly shorter than the input, so the reader always consumes the closing quote |
| `ExportHooks.ReadQuotedDoubled` | src/Hooks/useExport.js:25 | a doubled quote reads back as one quote |
| `ExportHooks.ReadQuotedPlain` | src/Hooks/useExport.js:25 | any other character reads back as itself |
| `ExportHooks.ReadQuotedEscape` | src/Hooks/useExport.js:25 | un-doubling the escaped text up to the closing quote gives back the text, whatever follows unless it is a quote |
| `ExportHooks.ReadQuotedEscapeStep` | src/Hooks/useExport.js:25 | the inductive step of the un-escape round trip |
| `ExportHooks.QuoteRoundTrip` | src/Hooks/useExport.js:25 | stripping the outer quotes and un-doubling gives back the cell text |
| `ExportHooks.Keys` | src/Hooks/useExport.js:22 | the headers are the first row's labels, in order |
| `ExportHooks.CsvContent` | src/Hooks/useExport.js:20-26 | no content exactly for an empty row list; otherwise the header line joined with the data lines by LF |
| `ExportHooks.CsvFile` | src/Hooks/useExport.js:29 | the file text is U+FEFF followed by the content |
| `ExportHooks.CsvContentShape` | src/Hooks/useExport.js:22-26 | the unquoted header line comes first, then LF, then the data lines |
| `ExportHooks.ReadCells` | src/Hooks/useExport.js:25-26 | what follows the cells of a line is strictly shorter than the input |
| `ExportHooks.ReadCellsLast` | src/Hooks/useExport.js:25-26 | the last quoted cell of a line reads back |
| `ExportHooks.ReadCellsCons` | src/Hooks/useExport.js:25-26 | a cell followed by ',' reads back in front of the remaining cells |
| `ExportHooks.ReadCellsOfJoin` | src/Hooks/useExport.js:25-26 | quoted cells joined by ',' read back as the cells |
| `ExportHooks.ReadLinesCons` | src/Hooks/useExport.js:26 | a line followed by LF reads back in front of the remaining lines |
| `ExportHooks.ReadLinesOfJoin` | src/Hooks/useExport.js:26 | lines of quoted cells joined by LF read back as the lines' cells |
| `ExportHooks.DataLine` | src/Hooks/useExport.js:25-26 | a data line under a non-empty header list reads back as the row's texts under those headers |
| `ExportHooks.RowTexts` | src/Hooks/useExport.js:25 | one text per header |
| `ExportHooks.DataLineIsQuotedLine` | src/Hooks/useExport.js:25-26 | a data line is the quoted line of the row's texts under the headers |
| `ExportHooks.DataLinesAreQuoted` | src/Hooks/useExport.js:25-26 | the data lines are the quoted lines of every row's texts |
| `ExportHooks.CsvRoundTrip` | src/Hooks/useExport.js:20-26 | after the header line, the content reads back as every row's text under every header of the first row, in order, whatever the cells hold (commas, quotes, line feeds) |
| `ExportHooks.MemberExportHeaders` | src/Hooks/useExport.js:22 | for the member export the headers are the fixed export labels |
| `MemberForm.HandleChange` | src/components/members/MemberForm.jsx:35-38 | the named input takes the value and every other input keeps its text |
| `MemberForm.HandleChangeLaws` | src/components/members/MemberForm.jsx:35-38 | writing an input's own text changes nothing; a later change of an input overrides an earlier one |
| `MemberForm.FormOfMember` | src/components/members/MemberForm.jsx:23-28 | an opened member's specialisations show as their ', ' join |
| `MemberForm.FindName` | src/components/members/MemberForm.jsx:48-52 | an unparseable id gives ""; a non-empty name belongs to an entry with that id |
| `MemberForm.FindNameFirst` | src/components/members/MemberForm.jsx:48-52 | the first entry with the id gives the name; with no such entry the name is "" |
| `MemberForm.Submit` | src/components/members/MemberForm.jsx:45-79 | nik, nama, project, lokasi and kontak go as typed; the ids are the parsed selections; utilisasi is the parsed number, 0 for no number, unclamped; shift and mode are as chosen, or "Pagi" and "Onsite" when empty; the unit and status names are looked up from the ids; the contract date is null exactly when the status name is 'organik' in any case or the date is blank, and otherwise the typed date; the specialisations go as the comma-split list |
| `MemberForm.SubmitSpecialisations` | src/components/members/MemberForm.jsx:66-72 | the submitted specialisations are trimmed, non-empty and comma-free |
| `MemberForm.EditUnchangedRoundTrip` | src/components/members/MemberForm.jsx:23-79 | opening a member and submitting unchanged returns its texts, its ids and utilisasi as the same integers, and its specialisation list; its contract date is kept unless Organik |
| `MemberForm.FormLeavesClampToStore` | src/components/members/MemberForm.jsx:61 | for every integer v typed as `String(v)`, the form sends v unclamped and `buildPayload` stores v clamped to [0, 100]; above 100 it stores 100, less than what was sent (for integers; double range under Left out) |
| `Dashboard.NextSortConfig` | src/pages/Dashboard.jsx:52-57 | the clicked key is taken; descending exactly when that key was already ascending |
| `Dashboard.SortClicks` | src/pages/Dashboard.jsx:52-57 | a new key starts ascending; a second click on the same key flips the direction; two clicks from ascending return to ascending |
| `Dashboard.Toggle` | src/pages/Dashboard.jsx:157 | the active id switches off; any other id is selected |
| `Dashboard.ToggleTwice` | src/pages/Dashboard.jsx:157 | clicking the same card or menu twice from another one switches it off again |
| `Dashboard.ToggleSummary` | src/pages/Dashboard.jsx:157 | the filter becomes 'all' exactly when the active card or the 'all' card is clicked; otherwise it is the clicked card |
| `Dashboard.ToggleMenu` | src/pages/Dashboard.jsx:172 | the menu closes exactly when its open id is clicked; otherwise exactly the clicked id is open |
| `Dashboard.FirstIdText` | src/pages/Dashboard.jsx:74-75 | an empty lookup gives "" |
| `Dashboard.FirstIdRoundTrip` | src/pages/Dashboard.jsx:74-75 | the first id as the select shows it parses back to the first usable id, and that id names the first entry |
| `Dashboard.AddDefaults` | src/pages/Dashboard.jsx:69-82 | the add form starts with a blank NIK, name, contract date and specialisations |
| `Dashboard.SubmitAddDefaults` | src/pages/Dashboard.jsx:69-82 | submitting the untouched add form sends the first unit and status with their names (none when the lookups are empty or the id is 0), utilisasi 50, Pagi, Onsite, no contract date and no specialisations |
| `Dashboard.ErrorMessage` | src/pages/Dashboard.jsx:96 | `err.message \|\| fallback`: an error toast whose text is the error's message, or the fallback when the message is empty |
| `Dashboard.BulkMessage` | src/pages/Dashboard.jsx:118-129 | error exactly for a failed batch; success exactly for no errors and no duplicates; warning exactly for errors or duplicates |
| `Dashboard.ImportSuccessMeansAllInserted` | src/pages/Dashboard.jsx:118-127 | an import reports success exactly when every row of the sheet was inserted |
| `Dashboard.BulkOutcomeToast` | src/pages/Dashboard.jsx:118-129 | every import outcome shows a toast: red exactly for a failed batch, green exactly for a clean import |
| `Dashboard.AfterSave` | src/pages/Dashboard.jsx:84-98 | an open modal stays open exactly when the write failed; loading is off; the toast is success exactly for a written member and an error otherwise |
| `Dashboard.SaveToast` | src/pages/Dashboard.jsx:89-96 | every save ends with a visible toast, green for a written member and red otherwise |
| `Dashboard.FailedSaveKeepsForm` | src/pages/Dashboard.jsx:95-97 | a failed save keeps the modal's mode and data with loading off, and shows a non-empty message |
| `Dashboard.SaveOutcome` | src/pages/Dashboard.jsx:86-93 | as written: refused exactly when the typed NIK belongs to another member (all members when adding, all but the opened one when editing); a store failure otherwise; a written member is `buildPayload`'s record |
| `Dashboard.PaddedNikClosesModal` | src/pages/Dashboard.jsx:84-98 | adding "A " to a roster holding "A" writes "A" a second time and closes the modal with a success toast |
| `Dashboard.SaveOutcomeChecked` | src/pages/Dashboard.jsx:86-93 | corrected: refused exactly when the trimmed NIK, the one stored, belongs to another member |
| `Dashboard.CheckedTakenNikKeepsModalOpen` | src/pages/Dashboard.jsx:84-98 | with the corrected guard, a stored NIK that another member holds keeps the modal open |
| `Dashboard.TakenNikKeepsModalOpen` | src/pages/Dashboard.jsx:84-98 | a typed NIK that another member holds (the guard as written) keeps the modal open with an error toast, whatever the store would answer |
| `Dashboard.DashboardPage.constructor` | src/pages/Dashboard.jsx:28-29 | the page starts with the modal closed and no message |
| `Dashboard.DashboardPage.OpenAdd` | src/pages/Dashboard.jsx:69-82 | the modal opens in add mode on the defaults, not loading |
| `Dashboard.DashboardPage.OpenEdit` | src/pages/Dashboard.jsx:64-67 | the modal opens in edit mode on the member, ready to save |
| `Dashboard.DashboardPage.HandleSave` | src/pages/Dashboard.jsx:84-98 | the add or edit write is issued by mode with the guard as written, and the modal and toast become `AfterSave`'s |
| `Dashboard.DashboardPage.HandleBulkUploadChange` | src/pages/Dashboard.jsx:111-133 | no file changes nothing; an unreadable file or an empty sheet only sets an error toast and leaves the processing flag as it was; otherwise the store imports the rows, the flag ends false and the toast reports the outcome; the modal and roster are unchanged |
| `MemberList.ColumnsTable` | src/components/members/MemberList.jsx:12-21 | every sortable header names a distinct sort key; the status and specialisation headers never sort; every sort key has a header |
| `MemberList.HeaderClick` | src/components/members/MemberList.jsx:31-33 | a non-sortable header leaves the sort as it was; a sortable one sorts on its key |
| `MemberList.HeaderIcon` | src/components/members/MemberList.jsx:36 | exactly the sortable headers carry a sort icon |
| `MemberList.HeaderClickIcons` | src/components/members/MemberList.jsx:30-39 | after a click on a sortable header it shows the new direction and every other sortable header is neutral |
| `MemberList.CeilDiv` | src/components/members/MemberList.jsx:158 | `Math.ceil(a / b)` for b > 0: the least r with a ≤ b·r |
| `MemberList.KontrakBadge` | src/components/members/MemberList.jsx:150-171 | 'Organik' exactly when there is no contract date |
| `MemberList.KontrakBadgeWindows` | src/components/members/MemberList.jsx:158-168 | expired exactly a full day or more past the date; the countdown from less than a day past to 60 days ahead; never both; the countdown is the ceiling of the days left |
| `MemberList.DueShowsCountdown` | src/components/members/MemberList.jsx:158-166 | every member with a notification shows the countdown |
| `MemberList.BadgesOnExpiry` | src/components/members/MemberList.jsx:158-168 | the row badge and the status badge agree on 'Organik'; a red row badge implies a red status badge; they differ only during the first day past the date, when the row shows 0 days |
| `UiComponents.Toast` | src/components/ui/index.jsx:12-22 | nothing for empty text; red for 'error', amber for 'warning', green for any other type |
| `UiComponents.SortIcon` | src/components/ui/index.jsx:40-48 | neutral when the column is not the sort key; otherwise up exactly for ascending |
| `UiComponents.OneSortIcon` | src/components/ui/index.jsx:40-48 | of two columns at least one is neutral |
| `UiComponents.StatusKontrakBadge` | src/components/ui/index.jsx:58-90 | 'Organik' exactly without a date; expired exactly when the date is before now; the day hint exactly when `sisa_hari_kontrak` is non-null and at most 60 |
| `UiComponents.StatusBadgeExpiry` | src/components/ui/index.jsx:72 | for a member, expired exactly when the days-left difference is negative |
| `UiComponents.FirstLetters` | src/components/ui/index.jsx:124-125 | no more letters than words |
| `UiComponents.FirstLettersOfWords` | src/components/ui/index.jsx:124-125 | non-empty words give one letter each, their first, in order |
| `UiComponents.Initials` | src/components/ui/index.jsx:122-127 | at most two characters |
| `UiComponents.InitialsOfBlankNames` | src/components/ui/index.jsx:122 | a missing or empty name shows '?'; a single space shows nothing |
| `UiComponents.InitialsOfWords` | src/components/ui/index.jsx:122-127 | a name of space-separated non-empty words shows the upper-cased first letters of its first two words |
| `UiComponents.UtilBand` | src/components/ui/index.jsx:150-156 | red exactly above 90, orange exactly for 75 < v ≤ 90, blue exactly up to 75 |
| `UiComponents.UtilBandMonotone` | src/components/ui/index.jsx:150-156 | a higher utilisation never shows a milder colour |
| `UiComponents.RedBarIsCritical` | src/components/ui/index.jsx:151 | the red bar marks exactly the members the 'critical' card selects |
| `AuthApi.GetUserRole` | src/lib/AuthApi.js:38-41 | 'Admin' exactly for the metadata role 'admin-dashboard', otherwise 'Viewer' |
| `AuthApi.MissingRoleIsViewer` | src/lib/AuthApi.js:39 | no user, no metadata or no role gives 'Viewer' |
| `AuthApi.RoleIsCaseSensitive` | src/lib/AuthApi.js:40 | 'Admin-Dashboard' gives 'Viewer'; only the exact spelling gives 'Admin' |

## Left out

- Supabase I/O is not modelled. This covers `fetchAllMembers`, `insertMember`, `updateMember`, `deleteMember`, the lookup fetches and their error throws (src/lib/MembersApi.js:87-93), and the session functions of src/lib/AuthApi.js. Lookups and store answers are inputs. `checkNikExists` is the predicate `NikExists` over the roster.
- `removeMember` and `handleDelete` are left out. They are a `confirm` dialog and a delete call, with no logic of their own.
- The realtime subscription, reloads and `loading`/`error` flags of src/Hooks/useMembers.js:26-59 are left out. They are event-loop plumbing. The roster is refreshed by the reload, so `BulkImport` leaves it unchanged.
- The XLSX library, `parseExcelFile`, `exportToExcel`, `downloadTemplate`, `triggerDownload`, Blob and FileReader are left out. Parsed sheets are given as sequences of string-keyed rows, and a reader failure is the `Unreadable` upload.
- The following are not modelled: date parsing, `toLocaleDateString` and the notification's `pesan` text. Dates go through the `parse` parameter.
- MembersHooks.ContractNotifications, MembersHooks.ExpiringSoon (the 'expiring' filter of MembersHooks.SummaryOk) and MembersHooks.DashboardStats: each takes one `now` for the whole roster. The notifications hook reads the clock once too, but the view filter and the stats call `new Date()` per member; the model reads it once per call.
- MembersApi.Cell: spreadsheet cells are text. The sheet reader hands numeric cells over as numbers, and `String(item[key] || '')` turns a numeric 0 into "" where the model reads the text "0" (a NIK of 0 is then a blank NIK in the code). `item.Shift || 'Pagi'` and `item.Mode || 'Onsite'` keep a numeric cell as a number. Only text cells are modelled.
- UiComponents.Initials takes the first code point of each word. JavaScript's `n[0]` takes the first UTF-16 code unit, so a word starting outside the Basic Multilingual Plane gives half a surrogate pair in the code.
- MemberSort.StrLess compares Unicode code points. JavaScript compares UTF-16 code units, so the order can differ for characters outside the Basic Multilingual Plane.
- MemberSort.ValueLess puts numbers before texts. This makes the order total, and no column mixes the two (`SortValueKind`), so this case is never reached.
- Strings.Lower and Strings.Upper map ASCII letters only. JavaScript's full Unicode case mapping, including length-changing mappings such as 'ß', is not modelled.
- The `showStatus` five-second reset and the file-input reset are timer and DOM effects. They are left out.
- `buildLookupMap` builds a plain object, so a name such as `__proto__` behaves differently from an ordinary key. The model uses a true map.
- Styling, layout and markup are left out. This includes src/components/dashboard/*, Login.jsx and the JSX. Dashboard.jsx passes `onBulkUploadChange` while the header reads `onBulkUploadClick` (src/components/dashboard/DashboardHeader.jsx:37). That is a wiring gap in the UI, and `HandleBulkUploadChange` models the handler itself.
- Strings.ParseIntOfIntToString, MemberForm.FormLeavesClampToStore, MembersApi.BuildPayload: numbers are unbounded integers in the model. JavaScript numbers are doubles: integers beyond 2^53 are rounded, and `String(n)` switches to exponent notation from 1e21, so `parseInt(String(1e21))` is 1. For such a utilisation the code stores 1 where the model stores `ClampPercent(v)` = 100. The form's `max="100"` input keeps these values out in the browser; double rounding and exponent notation are not modelled.
- MembersApi.IdOr and MembersApi.NormalizeRow keep the `|| row.unit_id` and `|| row.status_pegawai_id` fallbacks as written, but every select in src/lib/MembersApi.js fetches only the joined `unit`/`status` objects, so in the code those columns are `undefined` and the fallback never supplies an id.
- The CSV uses LF line ends. RFC 4180 prescribes CRLF, and the header line is not quoted. The model follows the code on both points.

## Findings

| source | as written | input that shows it | evidently intended | confidence | as-written member | corrected member |
|---|---|---|---|---|---|---|
| src/Hooks/useMembers.js:63-64 | `addMember` and `editMember` check `payload.nik` as typed, while `buildPayload` stores `payload.nik.trim()` (src/lib/MembersApi.js:221) | roster holds NIK "A"; the form submits NIK "A " | the duplicate check should test the NIK that is stored, so a stored NIK is never duplicated | not executed; high on the code as read | `MembersHooks.PaddedNikSlipsThrough` | `MembersHooks.CheckedWritesKeepNiksUnique` |

/**
 * The decisions inside the shared components of src/components/ui/index.jsx:
 * whether and how a toast shows, which sort icon a column header carries, the
 * contract-status badge, the avatar initials and the utilisation bar's colour.
 */
module UiComponents {
  import opened Wrappers
  import opened Strings
  import opened Records
  import opened MembersHooks

  // ---------------------------------------------------------------------------
  // Toast

  datatype ToastStyle = ErrorToast | WarningToast | SuccessToast

  /** `Toast`: nothing for an empty text; red for 'error', amber for 'warning', green for any other type. */
  function Toast(message: Message): (r: Option<ToastStyle>)
    ensures r.None? <==> message.text == ""
    ensures r == Some(ErrorToast) <==> message.text != "" && message.kind == "error"
    ensures r == Some(WarningToast) <==> message.text != "" && message.kind == "warning"
    ensures r == Some(SuccessToast) <==> message.text != "" && message.kind != "error" && message.kind != "warning"
  {
    if message.text == "" then None
    else if message.kind == "error" then Some(ErrorToast)
    else if message.kind == "warning" then Some(WarningToast)
    else Some(SuccessToast)
  }

  // ---------------------------------------------------------------------------
  // SortIcon

  datatype SortIconShape = Neutral | Up | Down

  /** `SortIcon`: neutral unless the table is sorted on this column, then up for ascending and down for descending. */
  function SortIcon(column: SortKey, cfg: SortConfig): (r: SortIconShape)
    ensures r == Neutral <==> cfg.key != Some(column)
    ensures r == Up <==> cfg.key == Some(column) && cfg.direction == Asc
    ensures r == Down <==> cfg.key == Some(column) && cfg.direction == Desc
  {
    if cfg.key != Some(column) then Neutral
    else match cfg.direction
      case Asc => Up
      case Desc => Down
  }

  /** At most one column shows a direction: the one the table is sorted on. */
  lemma OneSortIcon(a: SortKey, b: SortKey, cfg: SortConfig)
    requires a != b
    ensures SortIcon(a, cfg) == Neutral || SortIcon(b, cfg) == Neutral
  {
  }

  // ---------------------------------------------------------------------------
  // StatusKontrakBadge

  /** The status badge: 'Organik', or the date, red when past, with the `(Nh)` hint. */
  datatype StatusBadge = OrganikStatus | DatedStatus(expired: bool, dayHint: Option<int>)

  /**
   * `StatusKontrakBadge`: 'Organik' without a contract date; otherwise expired
   * when the date lies before now (an unreadable date never does), and the day
   * hint shows when `sisa_hari_kontrak` is present and at most 60.
   */
  function StatusKontrakBadge(kontrak: Option<string>, sisaHari: Option<int>, parse: DateParser, now: int): (r: StatusBadge)
    ensures r.OrganikStatus? <==> kontrak.None? || kontrak == Some("")
    ensures r.DatedStatus? ==> (r.expired <==> parse(kontrak.value).Some? && parse(kontrak.value).value < now)
    ensures r.DatedStatus? ==> (r.dayHint.Some? <==> sisaHari.Some? && sisaHari.value <= 60)
    ensures r.DatedStatus? && r.dayHint.Some? ==> r.dayHint == sisaHari
  {
    match kontrak
    case None => OrganikStatus
    case Some(d) =>
      if d == "" then OrganikStatus
      else
        var expired := match parse(d) case None => false case Some(t) => t < now;
        DatedStatus(expired, if sisaHari.Some? && sisaHari.value <= 60 then sisaHari else None)
  }

  /** For a roster member the status badge is expired exactly when the days-left difference is negative. */
  lemma StatusBadgeExpiry(m: Member, sisaHari: Option<int>, parse: DateParser, now: int)
    ensures var b := StatusKontrakBadge(m.kontrakBerakhir, sisaHari, parse, now);
      b.DatedStatus? && b.expired <==> MsLeft(m, parse, now).Some? && MsLeft(m, parse, now).value < 0
  {
  }

  // ---------------------------------------------------------------------------
  // Avatar

  /** `words.map((n) => n[0]).join('')`: the first character of each word; an empty word contributes nothing. */
  function FirstLetters(words: seq<string>): (r: string)
    ensures |r| <= |words|
    decreases |words|
  {
    if words == [] then ""
    else (if words[0] == "" then "" else [words[0][0]]) + FirstLetters(words[1..])
  }

  /** Non-empty words give one letter each, in order. */
  lemma {:induction false} FirstLettersOfWords(words: seq<string>)
    requires forall k :: 0 <= k < |words| ==> words[k] != ""
    ensures |FirstLetters(words)| == |words|
    ensures forall k :: 0 <= k < |words| ==> FirstLetters(words)[k] == words[k][0]
    decreases |words|
  {
    if words != [] {
      FirstLettersOfWords(words[1..]);
    }
  }

  /** `(nama || '?').split(' ').map((n) => n[0]).join('').slice(0, 2).toUpperCase()`. */
  function Initials(nama: Option<string>): (r: string)
    ensures |r| <= 2
  {
    var s := if nama.None? || nama.value == "" then "?" else nama.value;
    var letters := FirstLetters(Split(s, ' '));
    Upper(if |letters| <= 2 then letters else letters[..2])
  }

  /** A missing or empty name shows '?'; a name of a single space shows nothing. */
  lemma InitialsOfBlankNames()
    ensures Initials(None) == "?" && Initials(Some("")) == "?"
    ensures Initials(Some(" ")) == ""
  {
    SplitNoSeparator("?", ' ');
    assert Split(" ", ' ') == ["", ""] by {
      SplitAtSeparator("", ' ', "");
      assert "" + [' '] + "" == " ";
    }
    assert FirstLetters(["", ""]) == "" by {
      assert ["", ""][1..] == [""];
      assert [""][1..] == [];
    }
  }

  /**
   * A name made of non-empty words separated by single spaces shows the
   * upper-cased first letters of its first two words.
   */
  lemma InitialsOfWords(words: seq<string>)
    requires |words| >= 1
    requires forall k :: 0 <= k < |words| ==> words[k] != "" && ' ' !in words[k]
    ensures var r := Initials(Some(Join(words, " ")));
      && |r| == (if |words| < 2 then |words| else 2)
      && forall k :: 0 <= k < |r| ==> r[k] == UpperChar(words[k][0])
  {
    JoinSplit(words, ' ');
    assert Join(words, " ") != "" by {
      assert Join(words, " ") == words[0] || Join(words, " ") == words[0] + " " + Join(words[1..], " ");
      assert |words[0]| > 0;
    }
    FirstLettersOfWords(words);
  }

  // ---------------------------------------------------------------------------
  // UtilBar

  datatype Band = BlueBand | OrangeBand | RedBand

  /** `UtilBar`'s colour: red above 90, orange above 75 up to 90, blue otherwise. */
  function UtilBand(value: int): (r: Band)
    ensures r == RedBand <==> value > 90
    ensures r == OrangeBand <==> 75 < value <= 90
    ensures r == BlueBand <==> value <= 75
  {
    if value > 90 then RedBand else if value > 75 then OrangeBand else BlueBand
  }

  function BandRank(b: Band): nat
  {
    match b
    case BlueBand => 0
    case OrangeBand => 1
    case RedBand => 2
  }

  /** A higher utilisation never shows a milder colour. */
  lemma UtilBandMonotone(u: int, v: int)
    requires u <= v
    ensures BandRank(UtilBand(u)) <= BandRank(UtilBand(v))
  {
  }

  /** The red bar marks exactly the members the 'critical' summary card selects. */
  lemma RedBarIsCritical(m: Member, parse: DateParser, now: int)
    ensures UtilBand(m.utilisasi) == RedBand <==> SummaryOk(m, CriticalOnly, parse, now)
  {
  }
}

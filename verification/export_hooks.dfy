/**
 * The CSV text `exportToCSV` builds (src/Hooks/useExport.js:18-31): a header
 * line of the first row's keys, then one line per row whose cells are each
 * wrapped in double quotes with embedded quotes doubled, as in section 2 of
 * RFC 4180 (rules 5 to 7), cells joined by ',' and lines by a bare LF.
 *
 * A reader for the quoted lines is defined beside the writer, and the two are
 * proved to be inverse: reading the data lines back yields exactly the cell
 * texts that were written, in row and column order.
 */
module ExportHooks {
  import opened Wrappers
  import opened Seqs
  import opened Strings
  import opened Records
  import opened MembersApi

  // ---------------------------------------------------------------------------
  // One cell

  /** `.replace(/"/g, '""')`: every double quote doubled. */
  function Escape(s: string): (r: string)
    ensures |r| >= |s|
    decreases |s|
  {
    if s == [] then ""
    else (if s[0] == '"' then "\"\"" else [s[0]]) + Escape(s[1..])
  }

  /** The written form of one cell: the escaped text between double quotes. */
  function Quote(s: string): (r: string)
    ensures |r| >= 2 && r[0] == '"' && r[|r| - 1] == '"'
  {
    "\"" + Escape(s) + "\""
  }

  /** `String(r[h] ?? '')` for the key `h` of an exported row: the first cell labelled `h`, or blank when there is none. */
  function FieldText(r: ExportRow, h: string): string
    decreases |r|
  {
    if r == [] then ""
    else if r[0].0 == h then CellText(r[0].1)
    else FieldText(r[1..], h)
  }

  /** A missing key and a `null` value both give the empty quoted cell. */
  lemma NullCellIsEmptyQuoted(r: ExportRow, h: string)
    requires forall k :: 0 <= k < |r| ==> r[k].0 != h || r[k].1 == Null
    ensures Quote(FieldText(r, h)) == "\"\""
    decreases |r|
  {
    if r != [] && r[0].0 != h {
      NullCellIsEmptyQuoted(r[1..], h);
    }
  }

  /** Reads an escaped text up to its closing quote: `""` is one quote, a lone `"` ends the cell. Returns the text and what follows the quote. */
  function ReadQuoted(s: string): (r: Option<(string, string)>)
    ensures r.Some? ==> |r.value.1| < |s|
    decreases |s|
  {
    if s == [] then None
    else if s[0] == '"' then
      if |s| >= 2 && s[1] == '"' then
        match ReadQuoted(s[2..])
        case None => None
        case Some(p) => Some(("\"" + p.0, p.1))
      else Some(("", s[1..]))
    else
      match ReadQuoted(s[1..])
      case None => None
      case Some(p) => Some(([s[0]] + p.0, p.1))
  }

  /** A doubled quote in front reads as one quote of the text. */
  lemma ReadQuotedDoubled(tail: string, text: string, after: string)
    requires ReadQuoted(tail) == Some((text, after))
    ensures ReadQuoted("\"\"" + tail) == Some(("\"" + text, after))
  {
    assert ("\"\"" + tail)[2..] == tail;
  }

  /** Any other character in front is kept. */
  lemma ReadQuotedPlain(c: char, tail: string, text: string, after: string)
    requires c != '"' && ReadQuoted(tail) == Some((text, after))
    ensures ReadQuoted([c] + tail) == Some(([c] + text, after))
  {
    assert ([c] + tail)[1..] == tail;
  }

  /** Stripping the outer quotes and un-doubling the inner ones gives back the cell text, whatever follows the cell but a quote. */
  lemma {:induction false} ReadQuotedEscape(x: string, rest: string)
    requires rest == [] || rest[0] != '"'
    ensures ReadQuoted(Escape(x) + "\"" + rest) == Some((x, rest))
    decreases |x|
  {
    if x == [] {
      assert Escape(x) + "\"" + rest == "\"" + rest;
    } else {
      ReadQuotedEscape(x[1..], rest);
      ReadQuotedEscapeStep(x, rest);
    }
  }

  /** The step of `ReadQuotedEscape`: one more character in front of the text. */
  lemma ReadQuotedEscapeStep(x: string, rest: string)
    requires x != []
    requires ReadQuoted(Escape(x[1..]) + "\"" + rest) == Some((x[1..], rest))
    ensures ReadQuoted(Escape(x) + "\"" + rest) == Some((x, rest))
  {
    var tail := Escape(x[1..]) + "\"" + rest;
    if x[0] == '"' {
      assert Escape(x) + "\"" + rest == "\"\"" + tail;
      ReadQuotedDoubled(tail, x[1..], rest);
      assert "\"" + x[1..] == x;
    } else {
      assert Escape(x) + "\"" + rest == [x[0]] + tail;
      ReadQuotedPlain(x[0], tail, x[1..], rest);
      assert [x[0]] + x[1..] == x;
    }
  }

  /** The quoted cell reads back as its text. */
  lemma QuoteRoundTrip(x: string)
    ensures |Quote(x)| >= 1 && ReadQuoted(Quote(x)[1..]) == Some((x, ""))
  {
    ReadQuotedEscape(x, "");
    assert Quote(x)[1..] == Escape(x) + "\"" + "";
  }

  // ---------------------------------------------------------------------------
  // Lines and the whole text

  /** One data line: the row's value under each header, quoted, joined by ','; it reads back as those values. */
  function DataLine(r: ExportRow, headers: seq<string>): (line: string)
    ensures headers != [] ==> ReadCells(line) == Some((RowTexts(r, headers), ""))
  {
    assert MapSeq((h: string) => Quote(FieldText(r, h)), headers) == MapSeq(Quote, RowTexts(r, headers));
    QuotedLineReadsBack(RowTexts(r, headers));
    Join(MapSeq((h: string) => Quote(FieldText(r, h)), headers), ",")
  }

  /** `Object.keys(rows[0])`: the labels of the first row, in order. */
  function Keys(r: ExportRow): (ks: seq<string>)
    ensures |ks| == |r|
    ensures forall k :: 0 <= k < |r| ==> ks[k] == r[k].0
  {
    MapSeq((c: (string, CellValue)) => c.0, r)
  }

  /**
   * The content of the CSV file before its byte-order mark: `None` for an empty
   * export (the alert path, no file), otherwise the unquoted header line and one
   * quoted line per row, joined by LF.
   */
  function CsvContent(rows: seq<ExportRow>): (r: Option<string>)
    ensures r.None? <==> rows == []
  {
    if rows == [] then None
    else
      var headers := Keys(rows[0]);
      Some(Join([Join(headers, ",")] + MapSeq((row: ExportRow) => DataLine(row, headers), rows), "\n"))
  }

  /** The text handed to the download: U+FEFF, then the content. */
  function CsvFile(rows: seq<ExportRow>): (r: Option<string>)
    ensures r.None? <==> rows == []
    ensures r.Some? ==> |r.value| >= 1 && r.value[0] == '\U{FEFF}' && r.value[1..] == CsvContent(rows).value
  {
    match CsvContent(rows)
    case None => None
    case Some(c) => Some("\U{FEFF}" + c)
  }

  /** The header line comes first, then a line feed, then the data lines. */
  lemma CsvContentShape(rows: seq<ExportRow>)
    requires rows != []
    ensures var headers := Keys(rows[0]);
      CsvContent(rows) == Some(Join(headers, ",") + "\n" + Join(MapSeq((row: ExportRow) => DataLine(row, headers), rows), "\n"))
  {
    var headers := Keys(rows[0]);
    JoinCons(Join(headers, ","), MapSeq((row: ExportRow) => DataLine(row, headers), rows), "\n");
  }

  // ---------------------------------------------------------------------------
  // Reading the data lines back

  /** Reads `"cell","cell",...` up to the end of the text or a line feed; returns the cell texts and the rest, which is empty or starts with the line feed. */
  function ReadCells(s: string): (r: Option<(seq<string>, string)>)
    ensures r.Some? ==> |r.value.1| < |s|
    decreases |s|
  {
    if s == [] || s[0] != '"' then None
    else
      match ReadQuoted(s[1..])
      case None => None
      case Some(p) =>
        var (cell, rest) := p;
        if rest == [] || rest[0] == '\n' then Some(([cell], rest))
        else if rest[0] == ',' then
          match ReadCells(rest[1..])
          case None => None
          case Some(q) => Some(([cell] + q.0, q.1))
        else None
  }

  /** Reads quoted lines separated by line feeds up to the end of the text. */
  function ReadLines(s: string): Option<seq<seq<string>>>
    decreases |s|
  {
    match ReadCells(s)
    case None => None
    case Some(p) =>
      var (cells, rest) := p;
      if rest == [] then Some([cells])
      else
        match ReadLines(rest[1..])
        case None => None
        case Some(more) => Some([cells] + more)
  }

  /** The last cell of a line reads back, with what ended the line left over. */
  lemma ReadCellsLast(first: string, rest: string)
    requires rest == [] || rest[0] == '\n'
    ensures ReadCells(Quote(first) + rest) == Some(([first], rest))
  {
    ReadQuotedEscape(first, rest);
    assert (Quote(first) + rest)[1..] == Escape(first) + "\"" + rest;
  }

  /** A cell followed by ',' and further cells reads back in front of them. */
  lemma ReadCellsCons(first: string, tail: string, more: seq<string>, rest: string)
    requires ReadCells(tail) == Some((more, rest))
    ensures ReadCells(Quote(first) + "," + tail) == Some(([first] + more, rest))
  {
    ReadQuotedEscape(first, "," + tail);
    assert (Quote(first) + "," + tail)[1..] == Escape(first) + "\"" + ("," + tail);
    assert ("," + tail)[1..] == tail;
  }

  /** The quoted cells joined by ',' read back as the cells, followed by whatever ended the line. */
  lemma {:induction false} ReadCellsOfJoin(cells: seq<string>, rest: string)
    requires cells != []
    requires rest == [] || rest[0] == '\n'
    ensures ReadCells(QuotedLine(cells) + rest) == Some((cells, rest))
    decreases |cells|
  {
    var first := cells[0];
    if |cells| == 1 {
      assert QuotedLine(cells) == Quote(first) by {
        assert MapSeq(Quote, cells) == [Quote(first)];
      }
      ReadCellsLast(first, rest);
      assert cells == [first];
    } else {
      var more := cells[1..];
      ReadCellsOfJoin(more, rest);
      assert QuotedLine(cells) == Quote(first) + "," + QuotedLine(more) by {
        MapSeqCons(Quote, first, more);
        assert cells == [first] + more;
        JoinCons(Quote(first), MapSeq(Quote, more), ",");
      }
      ReadCellsCons(first, QuotedLine(more) + rest, more, rest);
      assert Quote(first) + "," + QuotedLine(more) + rest == Quote(first) + "," + (QuotedLine(more) + rest);
      assert [first] + more == cells;
    }
  }

  /** A line followed by LF and further lines reads back in front of them. */
  lemma ReadLinesCons(first: seq<string>, tail: string)
    requires first != []
    requires ReadLines(tail).Some?
    ensures ReadLines(QuotedLine(first) + "\n" + tail) == Some([first] + ReadLines(tail).value)
  {
    ReadCellsOfJoin(first, "\n" + tail);
    assert QuotedLine(first) + "\n" + tail == QuotedLine(first) + ("\n" + tail);
    assert ("\n" + tail)[1..] == tail;
  }

  /** Lines of quoted cells joined by LF read back as the lines' cells. */
  lemma {:induction false} ReadLinesOfJoin(lines: seq<seq<string>>)
    requires lines != []
    requires forall k :: 0 <= k < |lines| ==> lines[k] != []
    ensures ReadLines(Join(MapSeq(QuotedLine, lines), "\n")) == Some(lines)
    decreases |lines|
  {
    var first := lines[0];
    if |lines| == 1 {
      assert MapSeq(QuotedLine, lines) == [QuotedLine(first)];
      ReadLinesOne(first);
      assert lines == [first];
    } else {
      var more := lines[1..];
      ReadLinesOfJoin(more);
      var tail := Join(MapSeq(QuotedLine, more), "\n");
      assert Join(MapSeq(QuotedLine, lines), "\n") == QuotedLine(first) + "\n" + tail by {
        MapSeqCons(QuotedLine, first, more);
        assert lines == [first] + more;
        JoinCons(QuotedLine(first), MapSeq(QuotedLine, more), "\n");
      }
      ReadLinesCons(first, tail);
      assert [first] + more == lines;
    }
  }

  /** A single line of quoted cells reads back as its cells. */
  lemma ReadLinesOne(first: seq<string>)
    requires first != []
    ensures ReadLines(Join([QuotedLine(first)], "\n")) == Some([first])
  {
    assert Join([QuotedLine(first)], "\n") == QuotedLine(first) + "";
    ReadCellsOfJoin(first, "");
  }

  /** A whole line of quoted cells reads back as its cells. */
  lemma QuotedLineReadsBack(cells: seq<string>)
    ensures cells != [] ==> ReadCells(QuotedLine(cells)) == Some((cells, ""))
  {
    if cells != [] {
      ReadCellsOfJoin(cells, "");
      assert QuotedLine(cells) + "" == QuotedLine(cells);
    }
  }

  /** Cell texts quoted and joined by ','. */
  function QuotedLine(cells: seq<string>): string
  {
    Join(MapSeq(Quote, cells), ",")
  }

  /** The cell texts of one row under the given headers. */
  function RowTexts(r: ExportRow, headers: seq<string>): (ts: seq<string>)
    ensures |ts| == |headers|
  {
    MapSeq((h: string) => FieldText(r, h), headers)
  }

  /** A data line is the quoted line of the row's texts. */
  lemma DataLineIsQuotedLine(r: ExportRow, headers: seq<string>)
    ensures DataLine(r, headers) == QuotedLine(RowTexts(r, headers))
  {
    assert MapSeq((h: string) => Quote(FieldText(r, h)), headers) == MapSeq(Quote, RowTexts(r, headers));
  }

  /** The data lines are the quoted lines of the rows' texts, none of them empty of cells when there are headers. */
  lemma DataLinesAreQuoted(rows: seq<ExportRow>, headers: seq<string>)
    ensures MapSeq((row: ExportRow) => DataLine(row, headers), rows)
         == MapSeq(QuotedLine, MapSeq((row: ExportRow) => RowTexts(row, headers), rows))
  {
    var texts := MapSeq((row: ExportRow) => RowTexts(row, headers), rows);
    var data := MapSeq((row: ExportRow) => DataLine(row, headers), rows);
    forall k | 0 <= k < |rows| ensures data[k] == MapSeq(QuotedLine, texts)[k] {
      DataLineIsQuotedLine(rows[k], headers);
    }
  }

  /**
   * The export round trip: after the header line and its LF, the data lines
   * read back as the text of every row under every header of the first row, in
   * order. Cells may hold commas, quotes and line feeds.
   */
  lemma CsvRoundTrip(rows: seq<ExportRow>)
    requires rows != [] && rows[0] != []
    ensures var headers := Keys(rows[0]);
      var header := Join(headers, ",") + "\n";
      var c := CsvContent(rows).value;
      && |header| <= |c| && c[..|header|] == header
      && ReadLines(c[|header|..]) == Some(MapSeq((row: ExportRow) => RowTexts(row, headers), rows))
  {
    var headers := Keys(rows[0]);
    var header := Join(headers, ",") + "\n";
    var texts := MapSeq((row: ExportRow) => RowTexts(row, headers), rows);
    var body := Join(MapSeq((row: ExportRow) => DataLine(row, headers), rows), "\n");
    CsvContentShape(rows);
    DataLinesAreQuoted(rows, headers);
    ReadLinesOfJoin(texts);
    var c := CsvContent(rows).value;
    assert c == header + body;
    assert c[..|header|] == header && c[|header|..] == body;
  }

  /** For the member export every header is a fixed label and every line has one cell per label. */
  lemma MemberExportHeaders(ms: seq<Member>)
    requires ms != []
    ensures Keys(MapSeq(ExportRecord, ms)[0]) == ExportHeaders
  {
    var r := ExportRecord(ms[0]);
    assert Keys(r) == ExportHeaders;
  }
}

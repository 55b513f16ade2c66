/** Every text that scans is printed from a layout, and the layout can be read off. */
module CsvLanguage {
  import opened Text
  import opened Csv
  import opened CsvRoundTrip

  // ------------------------------------------------------------------ from text to layout

  /** A quoted cell that scans has a closing quote, and its content is what was escaped. */
  lemma {:induction false} ReadQuoted(text: string, s: State) returns (t: string, rest: string)
    requires s.mode == InQuotes && Resume(text, s).Ok?
    ensures text == Escape(t) + "\"" + rest && (rest == "" || rest[0] != '"')
    ensures Resume(text, s) == Resume(rest, s.(field := s.field + t, mode := AfterQuote))
    decreases |text|
  {
    hide PushRecord, PushField;
    var c := text[0];
    if c != '"' {
      t, rest := ReadQuoted(text[1..], s.(field := s.field + [c]));
      assert s.field + [c] + t == s.field + ([c] + t);
      assert ([c] + t)[1..] == t && text == [c] + text[1..];
      t := [c] + t;
    } else if |text| > 1 && text[1] == '"' {
      t, rest := ReadQuoted(text[2..], s.(field := s.field + ['"']));
      assert s.field + ['"'] + t == s.field + (['"'] + t);
      assert (['"'] + t)[1..] == t && text == "\"\"" + text[2..];
      t := ['"'] + t;
    } else {
      t, rest := "", text[1..];
      assert s.field + t == s.field && text == "\"" + rest;
    }
  }

  /** A bare cell ends at a separator, at the end, or where nothing was read before a quote. */
  lemma {:induction false} ReadBare(text: string, s: State) returns (t: string, rest: string)
    requires s.mode == Plain && Resume(text, s).Ok?
    ensures text == t + rest && forall i | 0 <= i < |t| :: IsBareChar(t[i])
    ensures AtBoundary(rest) || (rest[0] == '"' && s.field + t == "")
    ensures Resume(text, s) == Resume(rest, s.(field := s.field + t, started := s.started || t != ""))
    decreases |text|
  {
    hide PushRecord, PushField;
    if text == "" || !IsBareChar(text[0]) {
      t, rest := "", text;
      assert s.field + t == s.field;
    } else {
      var c := text[0];
      t, rest := ReadBare(text[1..], s.(field := s.field + [c], started := true));
      assert s.field + [c] + t == s.field + ([c] + t) && text == [c] + text[1..];
      t := [c] + t;
    }
  }

  /** The first cell of a text that scans. */
  lemma ReadPart(text: string, s: State) returns (p: Part, rest: string)
    requires s.mode == Plain && s.field == "" && Resume(text, s).Ok?
    ensures IsPart(p) && text == PrintPart(p) + rest && AtBoundary(rest)
    ensures Resume(text, s) == Resume(rest, AfterPart(p, s))
  {
    hide PushRecord, PushField, Escape;
    if text != "" && text[0] == '"' {
      var t;
      t, rest := ReadQuoted(text[1..], s.(mode := InQuotes, started := true));
      assert "" + t == t;
      p := Quoted(t);
      assert text == "\"" + text[1..];
      assert text == PrintPart(p) + rest;
    } else {
      var t;
      t, rest := ReadBare(text, s);
      assert "" + t == t;
      p := Bare(t);
    }
  }

  // ------------------------------------------------------------------ lines

  /** What a comma demands of the cell before it. */
  lemma ReadComma(rest: string, s: State)
    requires s.mode != InQuotes && rest != "" && rest[0] == ',' && Resume(rest, s).Ok?
    ensures ByteLength(s.field) <= MAX_CELL_BYTES && |s.record| < MAX_COLUMNS
    ensures Resume(rest, s) == Resume(rest[1..], State(Plain, "", s.record + [s.field], true, s.records))
  {
    hide ByteLength, Resume;
    ResumeStep(rest, s);
  }

  /** What the end of a line demands, and which end it is. */
  lemma ReadEnd(text: string, s: State) returns (e: End, rest: string)
    requires s.mode != InQuotes && AtBoundary(text) && (text == "" || text[0] != ',') && Resume(text, s).Ok?
    requires text == "" ==> s.started || s.field != "" || s.record != [] || s.mode == AfterQuote
    ensures ByteLength(s.field) <= MAX_CELL_BYTES && |s.record| < MAX_COLUMNS && |s.records| <= MAX_ROWS
    ensures text == PrintEnd(e) + rest
    ensures e == CR ==> rest == "" || rest[0] != '\n'
    ensures e == EndOfText <==> text == ""
    ensures Resume(text, s) == Resume(rest, Between(s.records + [s.record + [s.field]]))
  {
    hide ByteLength;
    if text == "" {
      e, rest := EndOfText, "";
    } else if text[0] == '\n' {
      e, rest := LF, text[1..];
    } else if |text| > 1 && text[1] == '\n' {
      e, rest := CRLF, text[2..];
    } else {
      e, rest := CR, text[1..];
    }
  }

  lemma RowOfOne(p: Part)
    ensures Texts([p]) == [p.text] && PrintParts([p]) == PrintPart(p)
  {
    hide PrintPart;
  }

  lemma RowOfMore(p: Part, others: seq<Part>, e: End, rest: string, record: Row)
    requires others != []
    ensures var cells := [p] + others;
            && PrintParts(cells) + PrintEnd(e) + rest == PrintPart(p) + "," + (PrintParts(others) + PrintEnd(e) + rest)
            && record + [p.text] + Texts(others) == record + Texts(cells)
            && (ByteLength(p.text) <= MAX_CELL_BYTES && CellsFit(others) ==> CellsFit(cells))
            && PrintParts(cells) != ""
  {
    hide PrintPart, ByteLength, PrintEnd;
    var cells := [p] + others;
    assert cells[1..] == others;
    PartsSplit(cells, e, rest);
    RowGrows(record, cells);
  }

  predicate CellsFit(cells: seq<Part>) {
    forall i | 0 <= i < |cells| :: ByteLength(cells[i].text) <= MAX_CELL_BYTES
  }

  /** The first line of a text that scans. */
  lemma {:induction false} ReadLine(text: string, s: State) returns (cells: seq<Part>, e: End, rest: string)
    requires s.mode == Plain && s.field == "" && Resume(text, s).Ok? && (text != "" || s.started)
    ensures cells != [] && (forall p | p in cells :: IsPart(p)) && CellsFit(cells)
    ensures |s.record| + |cells| <= MAX_COLUMNS && |s.records| <= MAX_ROWS
    ensures text == PrintParts(cells) + PrintEnd(e) + rest
    ensures e == CR ==> rest == "" || rest[0] != '\n'
    ensures e == EndOfText ==> rest == "" && (s.started || PrintParts(cells) != "")
    ensures Resume(text, s) == Resume(rest, Between(s.records + [s.record + Texts(cells)]))
    decreases |text|
  {
    hide ByteLength, Resume, PrintPart, IsPart, PrintParts, PrintEnd;
    var p, tail := ReadPart(text, s);
    if tail != "" && tail[0] == ',' {
      ReadComma(tail, AfterPart(p, s));
      var others;
      assert text == PrintPart(p) + tail && tail == "," + tail[1..];
      others, e, rest := ReadLine(tail[1..], State(Plain, "", s.record + [p.text], true, s.records));
      RowOfMore(p, others, e, rest, s.record);
      cells := [p] + others;
      assert PrintPart(p) + "," + tail[1..] == PrintPart(p) + ("," + tail[1..]);
    } else {
      e, rest := ReadEnd(tail, AfterPart(p, s));
      RowOfOne(p);
      cells := [p];
      assert text == PrintPart(p) + PrintEnd(e) + rest;
    }
  }

  // ------------------------------------------------------------------ documents

  lemma TableOfMore(l: Line, lines: seq<Line>)
    ensures TableOf([l] + lines) == [Texts(l.cells)] + TableOf(lines)
  {
    hide Texts;
  }

  lemma TableGrows(records: Table, l: Line, lines: seq<Line>)
    ensures records + [Texts(l.cells)] + TableOf(lines) == records + TableOf([l] + lines)
    ensures Print([l] + lines) == PrintLine(l) + Print(lines)
  {
    hide TableOf, PrintLine;
    assert ([l] + lines)[1..] == lines;
    TableOfMore(l, lines);
  }

  lemma DocumentGrows(l: Line, lines: seq<Line>)
    requires IsDocument(lines) && l.cells != [] && (forall p | p in l.cells :: IsPart(p))
    requires l.end == CR ==> Print(lines) == "" || Print(lines)[0] != '\n'
    requires l.end == EndOfText ==> lines == [] && PrintParts(l.cells) != ""
    ensures IsDocument([l] + lines)
  {
    hide IsPart, PrintParts, Print;
    assert ([l] + lines)[1..] == lines;
  }

  lemma EmptyPrintsNothing(lines: seq<Line>)
    requires IsDocument(lines) && Print(lines) == ""
    ensures lines == []
  {
    hide IsPart;
  }

  lemma FitsGrows(records: Table, cells: seq<Part>)
    requires Fits(records) && |records| <= MAX_ROWS && CellsFit(cells) && |cells| <= MAX_COLUMNS
    ensures Fits(records + [Texts(cells)])
  {
    hide ByteLength;
    var row := Texts(cells);
    assert RowFits(row);
  }

  /** A text that scans is the printed form of a document that fits, and gives its table. */
  lemma {:induction false} ReadDocument(text: string, records: Table) returns (lines: seq<Line>)
    requires Resume(text, Between(records)).Ok? && Fits(records)
    ensures IsDocument(lines) && Print(lines) == text
    ensures Resume(text, Between(records)) == Ok(records + TableOf(lines)) && Fits(records + TableOf(lines))
    decreases |text|
  {
    hide Resume, IsDocument, Print, Fits, PrintParts, CellsFit, PrintEnd, IsPart;
    if text == "" {
      lines := [];
      NothingScans(records);
      assert records + TableOf(lines) == records;
    } else {
      var cells, e, rest := ReadLine(text, Between(records));
      assert [] + Texts(cells) == Texts(cells);
      FitsGrows(records, cells);
      LineIsNotEmpty(cells, e, rest, text);
      lines := ReadDocument(rest, records + [Texts(cells)]);
      var l := Line(cells, e);
      TableGrows(records, l, lines);
      if e == EndOfText { EmptyPrintsNothing(lines); }
      DocumentGrows(l, lines);
      lines := [l] + lines;
    }
  }

  lemma NothingScans(records: Table)
    ensures Resume("", Between(records)) == Ok(records) && IsDocument([]) && Print([]) == ""
  {
  }

  lemma LineIsNotEmpty(cells: seq<Part>, e: End, rest: string, text: string)
    requires text == PrintParts(cells) + PrintEnd(e) + rest && text != ""
    requires e == EndOfText ==> PrintParts(cells) != ""
    ensures |rest| < |text|
  {
    hide PrintParts;
  }

  // ------------------------------------------------------------------ main results

  /**
   * The scanner accepts exactly the printed documents within the limits, and reads them as their tables: a
   * text scans to a table if and only if it is printed from a document with that table.
   */
  lemma ScanningInvertsPrinting(text: string, t: Table)
    ensures Resume(text, START) == Ok(t) <==>
            Fits(t) && exists lines :: IsDocument(lines) && Print(lines) == text && TableOf(lines) == t
  {
    hide Resume, IsDocument, Print, Fits;
    EmptyFits();
    if Resume(text, START) == Ok(t) {
      var lines := ReadDocument(text, []);
      assert [] + TableOf(lines) == TableOf(lines);
    }
    if Fits(t) && exists lines :: IsDocument(lines) && Print(lines) == text && TableOf(lines) == t {
      var lines :| IsDocument(lines) && Print(lines) == text && TableOf(lines) == t;
      assert [] + TableOf(lines) == t;
      PrintedIsScanned(lines, []);
    }
  }

  lemma EmptyFits()
    ensures Fits([])
  {
  }

  /** Two documents printed alike hold the same table. */
  lemma PrintingIsUnambiguous(a: seq<Line>, b: seq<Line>)
    requires IsDocument(a) && IsDocument(b) && Print(a) == Print(b) && Fits(TableOf(a)) && Fits(TableOf(b))
    ensures TableOf(a) == TableOf(b)
  {
    hide Resume, IsDocument, Print, Fits;
    ScanningInvertsPrinting(Print(a), TableOf(a));
    ScanningInvertsPrinting(Print(b), TableOf(b));
  }

  // ------------------------------------------------------------------ printing every table

  function QuotedCells(row: Row): (r: seq<Part>)
    ensures |r| == |row| && forall i | 0 <= i < |row| :: r[i] == Quoted(row[i])
  {
    seq(|row|, i requires 0 <= i < |row| => Quoted(row[i]))
  }

  /** The printed form with every cell quoted and the given ends. */
  function QuotedLines(t: Table, ends: seq<End>): seq<Line>
    requires |ends| == |t|
  {
    if t == [] then [] else [Line(QuotedCells(t[0]), ends[0])] + QuotedLines(t[1..], ends[1..])
  }

  lemma QuotedStartsWithQuote(row: Row)
    requires row != []
    ensures PrintParts(QuotedCells(row)) != "" && PrintParts(QuotedCells(row))[0] == '"'
  {
    hide Escape;
  }

  lemma {:induction false} QuotedIsDocument(t: Table, ends: seq<End>)
    requires |ends| == |t| && (forall i | 0 <= i < |t| :: t[i] != [])
    requires forall i | 0 <= i < |t| - 1 :: ends[i] != EndOfText
    ensures IsDocument(QuotedLines(t, ends)) && TableOf(QuotedLines(t, ends)) == t
    ensures t != [] ==> Print(QuotedLines(t, ends)) != "" && Print(QuotedLines(t, ends))[0] == '"'
  {
    hide PrintParts;
    if t != [] {
      QuotedIsDocument(t[1..], ends[1..]);
      QuotedStartsWithQuote(t[0]);
      var l := Line(QuotedCells(t[0]), ends[0]);
      var lines := QuotedLines(t[1..], ends[1..]);
      TableGrows([], l, lines);
      assert Texts(l.cells) == t[0];
      DocumentGrows(l, lines);
      assert t == [t[0]] + t[1..];
    }
  }

  /**
   * Round trip: every table of nonempty rows within the limits, printed with its cells quoted and its quotes
   * doubled, with LF, CRLF or CR after each record and the last end optional, scans to the table.
   */
  lemma RoundTrip(t: Table, ends: seq<End>)
    requires Fits(t) && |ends| == |t| && (forall i | 0 <= i < |t| :: t[i] != [])
    requires forall i | 0 <= i < |t| - 1 :: ends[i] != EndOfText
    ensures Resume(Print(QuotedLines(t, ends)), START) == Ok(t)
  {
    hide Resume, IsDocument, Print, Fits, TableOf;
    QuotedIsDocument(t, ends);
    ScanningInvertsPrinting(Print(QuotedLines(t, ends)), t);
  }
}

/** The printed documents of section 2 of RFC 4180, and that they scan to their tables. */
module CsvRoundTrip {
  import opened Text
  import opened Csv

  // ------------------------------------------------------------------ layouts

  datatype Part = Bare(text: string) | Quoted(text: string)

  datatype End = LF | CRLF | CR | EndOfText

  /** A printed record: its cells and what ends it. */
  datatype Line = Line(cells: seq<Part>, end: End)

  predicate IsBareChar(c: char) {
    !IsSeparator(c) && c != '"'
  }

  predicate IsPart(p: Part) {
    p.Bare? ==> forall i | 0 <= i < |p.text| :: IsBareChar(p.text[i])
  }

  function Escape(t: string): string {
    if t == "" then "" else (if t[0] == '"' then "\"\"" else [t[0]]) + Escape(t[1..])
  }

  function PrintPart(p: Part): string {
    if p.Bare? then p.text else "\"" + Escape(p.text) + "\""
  }

  function PrintParts(cells: seq<Part>): string {
    if cells == [] then ""
    else if |cells| == 1 then PrintPart(cells[0])
    else PrintPart(cells[0]) + "," + PrintParts(cells[1..])
  }

  function PrintEnd(e: End): string {
    match e
    case LF => "\n"
    case CRLF => "\r\n"
    case CR => "\r"
    case EndOfText => ""
  }

  function PrintLine(l: Line): string {
    PrintParts(l.cells) + PrintEnd(l.end)
  }

  function Print(lines: seq<Line>): string {
    if lines == [] then "" else PrintLine(lines[0]) + Print(lines[1..])
  }

  function Texts(cells: seq<Part>): (r: Row)
    ensures |r| == |cells| && forall i | 0 <= i < |cells| :: r[i] == cells[i].text
  {
    seq(|cells|, i requires 0 <= i < |cells| => cells[i].text)
  }

  function TableOf(lines: seq<Line>): (r: Table)
    ensures |r| == |lines| && forall i | 0 <= i < |lines| :: r[i] == Texts(lines[i].cells)
  {
    seq(|lines|, i requires 0 <= i < |lines| => Texts(lines[i].cells))
  }

  /**
   * A document: every line has cells, a lone CR is not followed by a text that starts with LF, and only a
   * nonempty last line may go without an end.
   */
  predicate IsDocument(lines: seq<Line>) {
    lines == [] ||
    (&& lines[0].cells != [] && (forall p | p in lines[0].cells :: IsPart(p))
     && (lines[0].end == CR ==> Print(lines[1..]) == "" || Print(lines[1..])[0] != '\n')
     && (lines[0].end == EndOfText ==> lines[1..] == [] && PrintParts(lines[0].cells) != "")
     && IsDocument(lines[1..]))
  }

  predicate RowFits(row: Row) {
    |row| <= MAX_COLUMNS && forall i | 0 <= i < |row| :: ByteLength(row[i]) <= MAX_CELL_BYTES
  }

  predicate Fits(table: Table) {
    |table| <= MAX_ROWS + 1 && forall i | 0 <= i < |table| :: RowFits(table[i])
  }

  // ------------------------------------------------------------------ scanning a cell

  predicate AtBoundary(rest: string) {
    rest == "" || IsSeparator(rest[0])
  }

  lemma {:induction false} ScanEscaped(t: string, rest: string, s: State)
    requires s.mode == InQuotes && (rest == "" || rest[0] != '"')
    ensures Resume(Escape(t) + "\"" + rest, s) == Resume(rest, s.(field := s.field + t, mode := AfterQuote))
  {
    hide PushRecord, PushField;
    var text := Escape(t) + "\"" + rest;
    if t == "" {
      assert text == "\"" + rest;
      assert s.field + t == s.field;
    } else {
      var tail := Escape(t[1..]) + "\"" + rest;
      var next := s.(field := s.field + [t[0]]);
      ScanEscaped(t[1..], rest, next);
      assert next.field + t[1..] == s.field + t;
      if t[0] == '"' {
        assert text == "\"\"" + tail;
        assert text[2..] == tail;
      } else {
        assert text == [t[0]] + tail;
        assert text[1..] == tail;
      }
    }
  }

  lemma {:induction false} ScanBare(t: string, rest: string, s: State)
    requires s.mode == Plain && forall i | 0 <= i < |t| :: IsBareChar(t[i])
    ensures Resume(t + rest, s) == Resume(rest, s.(field := s.field + t, started := s.started || t != ""))
  {
    hide PushRecord, PushField;
    if t == "" {
      assert t + rest == rest && s.field + t == s.field;
    } else {
      var next := s.(field := s.field + [t[0]], started := true);
      assert (t + rest)[0] == t[0] && (t + rest)[1..] == t[1..] + rest;
      ScanBare(t[1..], rest, next);
      assert next.field + t[1..] == s.field + t;
    }
  }

  /** The state after a cell was read into an empty field. */
  function AfterPart(p: Part, s: State): State {
    s.(field := p.text, mode := if p.Quoted? then AfterQuote else Plain,
       started := s.started || PrintPart(p) != "")
  }

  lemma ScanPart(p: Part, rest: string, s: State)
    requires IsPart(p) && s.mode == Plain && s.field == "" && AtBoundary(rest)
    ensures Resume(PrintPart(p) + rest, s) == Resume(rest, AfterPart(p, s))
  {
    hide PushRecord, PushField;
    assert "" + p.text == p.text;
    if p.Bare? {
      ScanBare(p.text, rest, s);
    } else {
      var inside := s.(mode := InQuotes, started := true);
      var text := PrintPart(p) + rest;
      assert text == "\"" + (Escape(p.text) + "\"" + rest);
      assert text[1..] == Escape(p.text) + "\"" + rest;
      ScanEscaped(p.text, rest, inside);
    }
  }

  // ------------------------------------------------------------------ scanning a line

  /** The state between two lines. */
  function Between(records: Table): State {
    State(Plain, "", [], false, records)
  }

  /** What becomes of a cell that is followed by a comma. */
  lemma ScanComma(rest: string, s: State)
    requires s.mode != InQuotes && ByteLength(s.field) <= MAX_CELL_BYTES && |s.record| < MAX_COLUMNS
    ensures Resume("," + rest, s) == Resume(rest, State(Plain, "", s.record + [s.field], true, s.records))
  {
    hide ByteLength, Resume;
    ResumeStep("," + rest, s);
    assert ("," + rest)[1..] == rest;
  }

  /** One step at a comma. */
  lemma ResumeStep(text: string, s: State)
    requires text != "" && text[0] == ',' && s.mode != InQuotes
    ensures Resume(text, s) ==
            var pushed := PushField(s);
            if pushed.Err? then Err(pushed.error) else Resume(text[1..], pushed.value.(started := true))
  {
    hide PushField, PushRecord;
  }

  /** The end of a line, for a record that fits. */
  lemma ScanEnd(e: End, rest: string, s: State)
    requires s.mode != InQuotes && ByteLength(s.field) <= MAX_CELL_BYTES && |s.record| < MAX_COLUMNS
    requires |s.records| <= MAX_ROWS
    requires e == CR ==> rest == "" || rest[0] != '\n'
    requires e == EndOfText ==> rest == "" && (s.started || s.field != "" || s.record != [] || s.mode == AfterQuote)
    ensures Resume(PrintEnd(e) + rest, s) == Resume(rest, Between(s.records + [s.record + [s.field]]))
  {
    hide ByteLength;
    var text := PrintEnd(e) + rest;
    match e {
      case LF => assert text[1..] == rest;
      case CR => assert text[1..] == rest;
      case CRLF => assert text[1] == '\n' && text[2..] == rest;
      case EndOfText => assert text == "";
    }
  }

  lemma RowTail(row: Row)
    requires RowFits(row) && row != []
    ensures ByteLength(row[0]) <= MAX_CELL_BYTES && RowFits(row[1..])
  {
  }

  /** The last cell of a line and what ends it. */
  lemma ScanLastPart(p: Part, e: End, rest: string, s: State)
    requires IsPart(p) && s.mode == Plain && s.field == "" && |s.records| <= MAX_ROWS
    requires ByteLength(p.text) <= MAX_CELL_BYTES && |s.record| < MAX_COLUMNS
    requires e == CR ==> rest == "" || rest[0] != '\n'
    requires e == EndOfText ==> rest == "" && (s.started || PrintPart(p) != "")
    ensures Resume(PrintPart(p) + PrintEnd(e) + rest, s) == Resume(rest, Between(s.records + [s.record + [p.text]]))
  {
    hide ByteLength, Resume, Escape;
    var tail := PrintEnd(e) + rest;
    assert PrintPart(p) + PrintEnd(e) + rest == PrintPart(p) + tail;
    ScanPart(p, tail, s);
    ScanEnd(e, rest, AfterPart(p, s));
  }

  /** A cell and the comma after it. */
  lemma ScanFirstPart(p: Part, tail: string, s: State)
    requires IsPart(p) && s.mode == Plain && s.field == ""
    requires ByteLength(p.text) <= MAX_CELL_BYTES && |s.record| < MAX_COLUMNS
    ensures Resume(PrintPart(p) + "," + tail, s) == Resume(tail, State(Plain, "", s.record + [p.text], true, s.records))
  {
    hide ByteLength, Resume, Escape;
    assert PrintPart(p) + "," + tail == PrintPart(p) + ("," + tail);
    ScanPart(p, "," + tail, s);
    ScanComma(tail, AfterPart(p, s));
  }

  lemma Associates(a: string, b: string, c: string, d: string)
    ensures (a + "," + b) + c + d == a + "," + (b + c + d)
  {
  }

  lemma RowSplits(cells: seq<Part>)
    requires cells != []
    ensures Texts(cells) == [cells[0].text] + Texts(cells[1..])
    ensures Texts(cells)[1..] == Texts(cells[1..])
  {
  }

  lemma PartsSplit(cells: seq<Part>, e: End, rest: string)
    requires |cells| > 1
    ensures PrintParts(cells) + PrintEnd(e) + rest
            == PrintPart(cells[0]) + "," + (PrintParts(cells[1..]) + PrintEnd(e) + rest)
  {
    hide PrintPart, PrintEnd;
    assert PrintParts(cells) == PrintPart(cells[0]) + "," + PrintParts(cells[1..]);
    Associates(PrintPart(cells[0]), PrintParts(cells[1..]), PrintEnd(e), rest);
  }

  lemma OnePart(cells: seq<Part>)
    requires |cells| == 1
    ensures PrintParts(cells) == PrintPart(cells[0]) && Texts(cells) == [cells[0].text]
  {
    hide PrintPart;
  }

  lemma RowGrows(record: Row, cells: seq<Part>)
    requires cells != []
    ensures record + [cells[0].text] + Texts(cells[1..]) == record + Texts(cells)
  {
    hide Texts;
    RowSplits(cells);
  }

  /** A printed line is read as its row. */
  lemma {:induction false} ScanParts(cells: seq<Part>, e: End, rest: string, s: State)
    requires cells != [] && (forall p | p in cells :: IsPart(p))
    requires s.mode == Plain && s.field == "" && |s.records| <= MAX_ROWS
    requires RowFits(Texts(cells)) && |s.record| + |cells| <= MAX_COLUMNS
    requires e == CR ==> rest == "" || rest[0] != '\n'
    requires e == EndOfText ==> rest == "" && (s.started || PrintParts(cells) != "")
    ensures Resume(PrintParts(cells) + PrintEnd(e) + rest, s)
            == Resume(rest, Between(s.records + [s.record + Texts(cells)]))
  {
    hide ByteLength, Resume, PrintPart, RowFits, IsPart, PrintParts, PrintEnd;
    var p := cells[0];
    RowTail(Texts(cells));
    assert p in cells;
    if |cells| == 1 {
      OnePart(cells);
      ScanLastPart(p, e, rest, s);
    } else {
      var others := cells[1..];
      var tail := PrintParts(others) + PrintEnd(e) + rest;
      PartsSplit(cells, e, rest);
      RowSplits(cells);
      ScanFirstPart(p, tail, s);
      RowGrows(s.record, cells);
      ScanParts(others, e, rest, State(Plain, "", s.record + [p.text], true, s.records));
    }
  }

  /** Scanning the printed form of a document that fits gives its table. */
  lemma {:induction false} PrintedIsScanned(lines: seq<Line>, records: Table)
    requires IsDocument(lines) && Fits(records + TableOf(lines))
    ensures Resume(Print(lines), Between(records)) == Ok(records + TableOf(lines))
  {
    hide PrintParts, RowFits;
    if lines == [] {
      assert records + TableOf(lines) == records;
    } else {
      var l := lines[0];
      var rest := Print(lines[1..]);
      assert (records + TableOf(lines))[|records|] == Texts(l.cells);
      RowFitsWidth(Texts(l.cells));
      ScanParts(l.cells, l.end, rest, Between(records));
      assert Print(lines) == PrintParts(l.cells) + PrintEnd(l.end) + rest;
      assert [] + Texts(l.cells) == Texts(l.cells);
      var grown := records + [Texts(l.cells)];
      assert grown + TableOf(lines[1..]) == records + TableOf(lines);
      PrintedIsScanned(lines[1..], grown);
    }
  }

  lemma RowFitsWidth(row: Row)
    requires RowFits(row)
    ensures |row| <= MAX_COLUMNS
  {
  }
}

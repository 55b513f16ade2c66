/** What a text is refused for: printed documents beyond the limits, and tables that are no uploads. */
module CsvLimits {
  import opened Text
  import opened Csv
  import opened CsvRoundTrip
  import opened CsvLanguage

  // ------------------------------------------------------------------ where scanning stops

  /** What ends the scan at the last character of the given cell, after a number of cells and of records. */
  function ProblemAt(text: string, isLast: bool, width: nat, records: nat): Option<Error> {
    if ByteLength(text) > MAX_CELL_BYTES then Some(CELL_LIMIT_EXCEEDED)
    else if width >= MAX_COLUMNS then Some(COLUMN_LIMIT_EXCEEDED)
    else if isLast && records > MAX_ROWS then Some(ROW_LIMIT_EXCEEDED)
    else None
  }

  lemma StopAtComma(tail: string, s: State)
    requires s.mode != InQuotes && ProblemAt(s.field, false, |s.record|, |s.records|).Some?
    ensures Resume("," + tail, s) == Err(ProblemAt(s.field, false, |s.record|, |s.records|).value)
  {
    hide ByteLength, Resume;
    ResumeStep("," + tail, s);
  }

  lemma StopAtEnd(e: End, rest: string, s: State)
    requires s.mode != InQuotes && ProblemAt(s.field, true, |s.record|, |s.records|).Some?
    requires e == EndOfText ==> rest == "" && (s.started || s.field != "" || s.record != [] || s.mode == AfterQuote)
    ensures Resume(PrintEnd(e) + rest, s) == Err(ProblemAt(s.field, true, |s.record|, |s.records|).value)
  {
    hide ByteLength;
    assert e == EndOfText ==> PrintEnd(e) + rest == "";
  }

  /** A line whose cell j has a problem and no cell before it. */
  lemma {:induction false} LineStops(cells: seq<Part>, e: End, rest: string, s: State, j: nat)
    requires j < |cells| && (forall p | p in cells :: IsPart(p)) && s.mode == Plain && s.field == ""
    requires ProblemAt(cells[j].text, j == |cells| - 1, |s.record| + j, |s.records|).Some?
    requires forall i | 0 <= i < j :: ByteLength(cells[i].text) <= MAX_CELL_BYTES && |s.record| + i < MAX_COLUMNS
    requires e == EndOfText ==> rest == "" && (s.started || PrintParts(cells) != "")
    ensures Resume(PrintParts(cells) + PrintEnd(e) + rest, s)
            == Err(ProblemAt(cells[j].text, j == |cells| - 1, |s.record| + j, |s.records|).value)
  {
    hide ByteLength, Resume, PrintPart, IsPart, PrintParts, PrintEnd, ProblemAt;
    var p := cells[0];
    assert p in cells;
    if |cells| == 1 {
      OnePart(cells);
      EndIsBoundary(e, rest);
      ScanPart(p, PrintEnd(e) + rest, s);
      assert PrintPart(p) + PrintEnd(e) + rest == PrintPart(p) + (PrintEnd(e) + rest);
      StopAtEnd(e, rest, AfterPart(p, s));
    } else {
      var tail := PrintParts(cells[1..]) + PrintEnd(e) + rest;
      PartsSplit(cells, e, rest);
      if j == 0 {
        ScanPart(p, "," + tail, s);
        assert PrintPart(p) + "," + tail == PrintPart(p) + ("," + tail);
        StopAtComma(tail, AfterPart(p, s));
      } else {
        assert ByteLength(cells[0].text) <= MAX_CELL_BYTES && |s.record| + 0 < MAX_COLUMNS;
        ScanFirstPart(p, tail, s);
        forall i | 0 <= i < j - 1
          ensures ByteLength(cells[1..][i].text) <= MAX_CELL_BYTES && |s.record| + 1 + i < MAX_COLUMNS
        {
          assert cells[1..][i] == cells[i + 1];
        }
        LineStops(cells[1..], e, rest, State(Plain, "", s.record + [p.text], true, s.records), j - 1);
      }
    }
  }

  lemma EndIsBoundary(e: End, rest: string)
    requires e == EndOfText ==> rest == ""
    ensures AtBoundary(PrintEnd(e) + rest)
  {
  }

  // ------------------------------------------------------------------ main result

  predicate IsTooLong(cell: string) {
    ByteLength(cell) > MAX_CELL_BYTES
  }

  /**
   * What is wrong with the row of an index: one of its first 65 cells is too long, it has more than 64 cells, or
   * it stands after 1001 others.
   */
  function RowProblem(row: Row, index: nat): Option<Error> {
    if exists j | 0 <= j < |row| && j <= MAX_COLUMNS :: IsTooLong(row[j]) then Some(CELL_LIMIT_EXCEEDED)
    else if |row| > MAX_COLUMNS then Some(COLUMN_LIMIT_EXCEEDED)
    else if index > MAX_ROWS then Some(ROW_LIMIT_EXCEEDED)
    else None
  }

  /** A table has the size of those that are scanned exactly when no row has a problem. */
  lemma FitsExactlyWhen(table: Table)
    ensures Fits(table) <==> forall k | 0 <= k < |table| :: RowProblem(table[k], k).None?
  {
    hide ByteLength;
    if |table| > MAX_ROWS + 1 {
      assert RowProblem(table[MAX_ROWS + 1], MAX_ROWS + 1).Some?;
    } else if forall k | 0 <= k < |table| :: RowProblem(table[k], k).None? {
      forall k | 0 <= k < |table| ensures RowFits(table[k]) {
        assert RowProblem(table[k], k).None?;
        forall j | 0 <= j < |table[k]| ensures ByteLength(table[k][j]) <= MAX_CELL_BYTES {
          assert !IsTooLong(table[k][j]);
        }
      }
    }
  }

  /** The first cell at which a line stops. */
  lemma FirstOffence(cells: seq<Part>, records: nat) returns (j: nat)
    requires cells != [] && RowProblem(Texts(cells), records).Some?
    ensures j < |cells| && j <= MAX_COLUMNS
    ensures forall i | 0 <= i < j :: ByteLength(cells[i].text) <= MAX_CELL_BYTES && i < MAX_COLUMNS
    ensures ProblemAt(cells[j].text, j == |cells| - 1, j, records) == RowProblem(Texts(cells), records)
  {
    hide ByteLength;
    j := 0;
    while j < |cells| - 1 && j < MAX_COLUMNS && !IsTooLong(cells[j].text)
      invariant j < |cells| && j <= MAX_COLUMNS
      invariant forall i | 0 <= i < j :: !IsTooLong(cells[i].text)
    {
      j := j + 1;
    }
    assert IsTooLong(cells[j].text) ==> IsTooLong(Texts(cells)[j]);
  }

  lemma {:induction false} RefusedFrom(lines: seq<Line>, records: Table, k: nat)
    requires IsDocument(lines) && k < |lines| && Fits(records + TableOf(lines[..k]))
    requires RowProblem(Texts(lines[k].cells), |records| + k).Some?
    ensures Resume(Print(lines), Between(records)) == Err(RowProblem(Texts(lines[k].cells), |records| + k).value)
    decreases k
  {
    hide PrintParts, RowFits, RowProblem, ProblemAt, ByteLength, Resume, IsPart, PrintEnd;
    var l := lines[0];
    var rest := Print(lines[1..]);
    assert Print(lines) == PrintParts(l.cells) + PrintEnd(l.end) + rest;
    if k == 0 {
      assert records + TableOf(lines[..k]) == records;
      var j := FirstOffence(l.cells, |records|);
      LineStops(l.cells, l.end, rest, Between(records), j);
    } else {
      assert (records + TableOf(lines[..k]))[|records|] == Texts(l.cells);
      RowFitsWidth(Texts(l.cells));
      ScanParts(l.cells, l.end, rest, Between(records));
      assert [] + Texts(l.cells) == Texts(l.cells);
      var grown := records + [Texts(l.cells)];
      assert lines[1..][..k - 1] == lines[1..k];
      assert grown + TableOf(lines[1..k]) == records + TableOf(lines[..k]);
      RefusedFrom(lines[1..], grown, k - 1);
    }
  }

  /**
   * A printed document is refused at its first row that is beyond the limits of rows: for a cell among the
   * first 65 that is too long, else for too many columns, else because 1001 rows came before.
   */
  lemma RefusedExactlyWhen(lines: seq<Line>, k: nat)
    requires IsDocument(lines) && k < |lines|
    requires forall i | 0 <= i < k :: RowProblem(Texts(lines[i].cells), i).None?
    requires RowProblem(Texts(lines[k].cells), k).Some?
    ensures Resume(Print(lines), START) == Err(RowProblem(Texts(lines[k].cells), k).value)
  {
    hide IsDocument, Print, RowProblem, Resume, Fits, Texts;
    FitsExactlyWhen(TableOf(lines[..k]));
    assert [] + TableOf(lines[..k]) == TableOf(lines[..k]);
    RefusedFrom(lines, [], k);
  }

  // ------------------------------------------------------------------ uploads

  /** No header is blank, and no two columns have the same one, up to case and spaces around it. */
  predicate AreProperHeaders(headers: Row) {
    && (forall i | 0 <= i < |headers| :: Trim(headers[i]) != "")
    && (forall i, j | 0 <= i < |headers| && 0 <= j < |headers| && i != j ::
          ToLower(Trim(headers[i])) != ToLower(Trim(headers[j])))
  }

  lemma ScannedFits(text: string, table: Table)
    requires Resume(text, START) == Ok(table)
    ensures Fits(table)
  {
    hide Resume, Fits, Print, IsDocument;
    ScanningInvertsPrinting(text, table);
  }

  /** A scanned text is an upload exactly when it has proper headers of at most 256 bytes and rows that fit them. */
  lemma UploadedExactlyWhen(text: string, table: Table)
    requires Resume(text, START) == Ok(table)
    ensures var r := ParseUpload(text);
            if table == [] then r == Err(EMPTY)
            else if exists j | 0 <= j < |table[0]| :: ByteLength(table[0][j]) > MAX_HEADER_BYTES
            then r == Err(HEADER_LIMIT_EXCEEDED)
            else if !AreProperHeaders(table[0]) then r == Err(HEADER_INVALID)
            else if (|table| - 1) * |table[0]| > MAX_CELLS then r == Err(CELL_COUNT_LIMIT_EXCEEDED)
            else if exists i | 0 < i < |table| :: |table[i]| > |table[0]| then r == Err(SHAPE_INVALID)
            else r.Ok? && HoldsTable(r.value, table)
  {
    hide ByteLength, Resume, Trim, ToLower, WidenAll, Cells;
    ScannedFits(text, table);
    if table != [] {
      HeaderProblemIsExact(table[0]);
      assert RowFits(table[0]);
      var records := table[1..];
      assert forall i | 0 < i < |table| :: table[i] == records[i - 1];
      assert (exists r | r in records :: |r| > |table[0]|) <==> exists i | 0 < i < |table| :: |table[i]| > |table[0]|;
      WidenedAt(records, |table[0]|);
    }
  }

  /** The headers are the first row, and every other row holds its own cells, missing ones beyond its end. */
  predicate HoldsTable(u: Upload, table: Table)
    requires table != []
  {
    && u.headers == table[0] && |u.rows| == |table| - 1
    && forall i, j | 0 < i < |table| && 0 <= j < |table[0]| ::
         && |u.rows[i - 1]| == |table[0]|
         && u.rows[i - 1][j].raw == (if j < |table[i]| then Some(table[i][j]) else None)
         && u.rows[i - 1][j].kind == ClassifyCell(u.rows[i - 1][j].raw)
  }

  lemma HeaderProblemIsExact(headers: Row)
    ensures |headers| <= MAX_COLUMNS ==>
              HeaderProblem(headers) ==
              if exists j | 0 <= j < |headers| :: ByteLength(headers[j]) > MAX_HEADER_BYTES
              then Some(HEADER_LIMIT_EXCEEDED)
              else if !AreProperHeaders(headers) then Some(HEADER_INVALID) else None
  {
    hide ByteLength, Trim, ToLower;
    forall h ensures NormalizedHeader(h) == "" <==> Trim(h) == "" {
      assert |ToLower(Trim(h))| == |Trim(h)|;
    }
    assert (exists h | h in headers :: NormalizedHeader(h) == "")
           <==> exists i | 0 <= i < |headers| :: Trim(headers[i]) == "";
    assert (exists h | h in headers :: ByteLength(h) > MAX_HEADER_BYTES)
           <==> exists j | 0 <= j < |headers| :: ByteLength(headers[j]) > MAX_HEADER_BYTES;
  }

  lemma {:induction false} WidenedAt(records: Table, columns: nat)
    ensures |WidenAll(records, columns)| == |records|
    ensures forall i | 0 <= i < |records| :: WidenAll(records, columns)[i] == Cells(records[i], columns)
    ensures forall i, j | 0 <= i < |records| && 0 <= j < columns ::
              && |WidenAll(records, columns)[i]| == columns
              && WidenAll(records, columns)[i][j].raw == (if j < |records[i]| then Some(records[i][j]) else None)
              && WidenAll(records, columns)[i][j].kind == ClassifyCell(WidenAll(records, columns)[i][j].raw)
  {
    hide ClassifyCell;
    if records != [] {
      WidenedAt(records[1..], columns);
    }
  }
}

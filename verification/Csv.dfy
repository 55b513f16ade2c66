/** The CSV scanner: its character loop, the state it resumes from, and the checks on a parsed table. */
module Csv {
  import opened Text
  import opened NumericEvidence

  const MAX_ROWS := 1000
  const MAX_COLUMNS := 64
  const MAX_HEADER_BYTES := 256
  const MAX_CELL_BYTES := 4096
  const MAX_CELLS := 32000

  datatype Error =
    | MALFORMED | CELL_LIMIT_EXCEEDED | COLUMN_LIMIT_EXCEEDED | ROW_LIMIT_EXCEEDED
    | EMPTY | HEADER_LIMIT_EXCEEDED | HEADER_INVALID | CELL_COUNT_LIMIT_EXCEEDED | SHAPE_INVALID

  datatype Result<T> = Ok(value: T) | Err(error: Error)

  type Row = seq<string>
  type Table = seq<Row>

  /** Where the scanner is in a cell. */
  datatype Mode = Plain | InQuotes | AfterQuote

  /** Everything the loop carries from one character to the next. */
  datatype State = State(mode: Mode, field: string, record: Row, started: bool, records: Table)

  const START := State(Plain, "", [], false, [])

  predicate IsSeparator(c: char) {
    c == ',' || c == '\r' || c == '\n'
  }

  function PushField(s: State): Result<State> {
    if ByteLength(s.field) > MAX_CELL_BYTES then Err(CELL_LIMIT_EXCEEDED)
    else if |s.record| + 1 > MAX_COLUMNS then Err(COLUMN_LIMIT_EXCEEDED)
    else Ok(s.(record := s.record + [s.field], field := "", mode := Plain))
  }

  function PushRecord(s: State): Result<State> {
    var pushed := PushField(s);
    if pushed.Err? then pushed
    else if |s.records| + 1 > MAX_ROWS + 1 then Err(ROW_LIMIT_EXCEEDED)
    else Ok(pushed.value.(records := s.records + [pushed.value.record], record := [], started := false))
  }

  /** What the scanner makes of the rest of the text from a given state. */
  function Resume(rest: string, s: State): Result<Table>
    decreases |rest|
  {
    if rest == "" then
      if s.mode == InQuotes then Err(MALFORMED)
      else if s.started || s.field != "" || s.record != [] || s.mode == AfterQuote then
        var pushed := PushRecord(s);
        if pushed.Err? then Err(pushed.error) else Ok(pushed.value.records)
      else Ok(s.records)
    else
      var c := rest[0];
      if s.mode == InQuotes then
        if c != '"' then Resume(rest[1..], s.(field := s.field + [c]))
        else if |rest| > 1 && rest[1] == '"' then Resume(rest[2..], s.(field := s.field + ['"']))
        else Resume(rest[1..], s.(mode := AfterQuote))
      else if s.mode == AfterQuote && !IsSeparator(c) then Err(MALFORMED)
      else if c == '"' then
        if s.field != "" then Err(MALFORMED) else Resume(rest[1..], s.(mode := InQuotes, started := true))
      else if c == ',' then
        var pushed := PushField(s);
        if pushed.Err? then Err(pushed.error) else Resume(rest[1..], pushed.value.(started := true))
      else if c == '\r' || c == '\n' then
        var pushed := PushRecord(s);
        if pushed.Err? then Err(pushed.error)
        else if c == '\r' && |rest| > 1 && rest[1] == '\n' then Resume(rest[2..], pushed.value)
        else Resume(rest[1..], pushed.value)
      else Resume(rest[1..], s.(field := s.field + [c], started := true))
  }

  /** parseRecords: the index loop. */
  method ParseRecords(text: string) returns (r: Result<Table>)
    ensures r == Resume(text, START)
  {
    hide ByteLength;
    var s := START;
    var index := 0;
    while index < |text|
      invariant 0 <= index <= |text|
      invariant Resume(text[index..], s) == Resume(text, START)
    {
      var character := text[index];
      ghost var rest := text[index..];
      assert rest[0] == character && rest[1..] == text[index + 1..];
      if s.mode == InQuotes {
        if character == '"' {
          if index + 1 < |text| && text[index + 1] == '"' {
            assert rest[1] == '"' && rest[2..] == text[index + 2..];
            s := s.(field := s.field + ['"']);
            index := index + 1;
          } else {
            s := s.(mode := AfterQuote);
          }
        } else {
          s := s.(field := s.field + [character]);
        }
      } else {
        if s.mode == AfterQuote && !IsSeparator(character) {
          return Err(MALFORMED);
        }
        if character == '"' {
          if s.field != "" {
            return Err(MALFORMED);
          }
          s := s.(mode := InQuotes, started := true);
        } else if character == ',' {
          var pushed := PushField(s);
          if pushed.Err? {
            return Err(pushed.error);
          }
          s := pushed.value.(started := true);
        } else if character == '\r' || character == '\n' {
          var pushed := PushRecord(s);
          if pushed.Err? {
            return Err(pushed.error);
          }
          s := pushed.value;
          if character == '\r' && index + 1 < |text| && text[index + 1] == '\n' {
            assert rest[1] == '\n' && rest[2..] == text[index + 2..];
            index := index + 1;
          }
        } else {
          s := s.(field := s.field + [character], started := true);
        }
      }
      index := index + 1;
    }
    assert text[index..] == "";
    if s.mode == InQuotes {
      return Err(MALFORMED);
    }
    if s.started || s.field != "" || s.record != [] || s.mode == AfterQuote {
      var pushed := PushRecord(s);
      if pushed.Err? {
        return Err(pushed.error);
      }
      s := pushed.value;
    }
    return Ok(s.records);
  }

  // ------------------------------------------------------------------ headers and cells

  function NormalizedHeader(h: string): string {
    ToLower(Trim(h))
  }

  /** validateHeaders, None when the headers are fine. */
  function HeaderProblem(headers: Row): Option<Error> {
    if |headers| > MAX_COLUMNS then Some(COLUMN_LIMIT_EXCEEDED)
    else if exists h | h in headers :: ByteLength(h) > MAX_HEADER_BYTES then Some(HEADER_LIMIT_EXCEEDED)
    else if (exists h | h in headers :: NormalizedHeader(h) == "")
         || (exists i, j | 0 <= i < j < |headers| :: NormalizedHeader(headers[i]) == NormalizedHeader(headers[j]))
    then Some(HEADER_INVALID)
    else None
  }

  datatype ValueKind = MISSING | BLANK | NULL | UNKNOWN | KNOWN_ZERO | NUMERIC | NONNUMERIC

  /** classifyCell; None is a cell beyond the end of its row. */
  function ClassifyCell(raw: Option<string>): ValueKind {
    if raw.None? then MISSING
    else
      var normalized := ToLower(Trim(raw.value));
      if normalized == "" then BLANK
      else if normalized == "null" then NULL
      else if normalized in {"unknown", "n/a", "na", "not known"} then UNKNOWN
      else if IsDecimalNumberLiteral(normalized) then
        if IsExactZeroLiteral(normalized) then KNOWN_ZERO else NUMERIC
      else NONNUMERIC
  }

  datatype Cell = Cell(raw: Option<string>, kind: ValueKind)

  /** A row widened to the columns of the header. */
  function Cells(record: Row, columns: nat): (cells: seq<Cell>)
    ensures |cells| == columns
  {
    seq(columns, i requires 0 <= i < columns =>
      var raw := if i < |record| then Some(record[i]) else None;
      Cell(raw, ClassifyCell(raw)))
  }

  datatype Upload = Upload(headers: Row, rows: seq<seq<Cell>>)

  function WidenAll(records: Table, columns: nat): seq<seq<Cell>> {
    if records == [] then [] else [Cells(records[0], columns)] + WidenAll(records[1..], columns)
  }

  /** parseCsvUpload after decoding, without its byte limits on serialised payloads. */
  function ParseUpload(text: string): Result<Upload> {
    var parsed := Resume(text, START);
    if parsed.Err? then Err(parsed.error)
    else if parsed.value == [] then Err(EMPTY)
    else
      var headers := parsed.value[0];
      var records := parsed.value[1..];
      var problem := HeaderProblem(headers);
      if problem.Some? then Err(problem.value)
      else if |records| > MAX_ROWS then Err(ROW_LIMIT_EXCEEDED)
      else if |records| * |headers| > MAX_CELLS then Err(CELL_COUNT_LIMIT_EXCEEDED)
      else if exists r | r in records :: |r| > |headers| then Err(SHAPE_INVALID)
      else Ok(Upload(headers, WidenAll(records, |headers|)))
  }
}

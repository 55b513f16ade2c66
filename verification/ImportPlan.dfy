/** The canonical commit plan of an import: committed, skipped, and the counted facts. */
module ImportPlan {
  import opened Text
  import opened Lists
  import opened NumericEvidence
  import opened Csv
  import opened ImportRows
  import opened PilotEvidence

  const SOURCE_RECORD_ID_MAX_BYTES := 512

  // ------------------------------------------------------------------ canonical values

  /** A canonical value; a cell without one is left out of the record. */
  datatype Value = NullValue | ZeroValue | TextValue(text: string)

  function CellValue(c: Cell, kind: FieldType, target: Option<string>): Option<Value> {
    if c.raw.None? || c.kind == MISSING then None
    else if c.kind == NULL then if target == Some("value") then Some(NullValue) else None
    else if target == Some("currency") && c.kind in {BLANK, NULL, ValueKind.UNKNOWN} then None
    else if c.kind == BLANK && target.Some? && target.value in {"opportunity_id", "prospect_id"} then None
    else if kind == NUMBER_FIELD then
      if c.kind == ValueKind.KNOWN_ZERO then Some(ZeroValue)
      else if c.kind == NUMERIC then
        var canonical := CanonicalizeDecimalLiteral(c.raw.value);
        Some(TextValue(if canonical.Some? then canonical.value else c.raw.value))
      else if c.kind == ValueKind.UNKNOWN then if target == Some("value") then Some(TextValue("unknown")) else None
      else if target == Some("value") then Some(TextValue(c.raw.value)) else None
    else if kind == TIMESTAMP_FIELD && c.kind in {ValueKind.UNKNOWN, BLANK} then None
    else Some(TextValue(c.raw.value))
  }

  /** Evidence of a number; a canonical one for a numeric cell. */
  datatype NumberEvidence = NumericEvidence(canonical: Option<string>) | KindEvidence(kind: ValueKind)

  /** What canonicalPayloadSha256 hashes. */
  datatype Payload = Payload(fields: map<string, Value>, numbers: map<string, NumberEvidence>)

  function PayloadOf(r: Staged, fields: seq<Field>): Payload {
    if fields == [] then Payload(map[], map[])
    else
      var f := fields[|fields| - 1];
      var before := PayloadOf(r, fields[..|fields| - 1]);
      if f.column.None? then before
      else
        var c := Evidence(r, f.column.value);
        var v := CellValue(c, f.kind, Some(f.target));
        var values := if v.Some? then before.fields[f.target := v.value] else before.fields;
        var numbers :=
          if f.kind != NUMBER_FIELD || c.kind !in {NUMERIC, ValueKind.KNOWN_ZERO, ValueKind.UNKNOWN} then before.numbers
          else
            before.numbers[f.target :=
              if c.kind == NUMERIC then NumericEvidence(CanonicalizeDecimalLiteral(RawText(c)))
                else KindEvidence(c.kind)];
        Payload(values, numbers)
  }

  // ------------------------------------------------------------------ prepared rows

  datatype Disposition = COMMITTED | EXACT_DUPLICATE | BLOCKED_FAILED | BLOCKED_CONFLICTED

  datatype PlanRow = PlanRow(
    ordinal: nat, identity: Option<string>, payload: Payload, cells: seq<Cell>, disposition: Disposition,
    hasRecord: bool, duplicateOf: Option<nat>, errors: seq<Issue>)

  function SourceIdentity(r: Staged, m: Mapping): Option<string> {
    var v := CellValue(Evidence(r, m.identityColumn), TEXT_FIELD, None);
    if v.Some? && v.value.TextValue? then Some(v.value.text) else None
  }

  function PreparedErrors(records: seq<Staged>, m: Mapping, isTimestamp: string -> bool, k: nat): seq<Issue>
    requires k < |records|
  {
    ErrorsAt(records, m, isTimestamp, k)
    + When(Evidence(records[k], m.identityColumn).kind == ValueKind.UNKNOWN, SOURCE_IDENTITY_UNKNOWN)
  }

  function Prepared(records: seq<Staged>, m: Mapping, isTimestamp: string -> bool, k: nat): PlanRow
    requires k < |records|
  {
    PlanRow(records[k].ordinal, SourceIdentity(records[k], m), PayloadOf(records[k], m.fields), records[k].cells,
      COMMITTED, true, None, PreparedErrors(records, m, isTimestamp, k))
  }

  function PreparedRows(records: seq<Staged>, m: Mapping, isTimestamp: string -> bool): (r: seq<PlanRow>)
    ensures |r| == |records|
    ensures forall k | 0 <= k < |records| :: r[k] == Prepared(records, m, isTimestamp, k)
  {
    seq(|records|, k requires 0 <= k < |records| => Prepared(records, m, isTimestamp, k))
  }

  /** A row that blocks the import on its own account. */
  predicate IsInvalid(r: PlanRow) {
    || (exists i | i in r.errors :: !IsDuplicateIssue(i))
    || r.identity.None? || Trim(r.identity.value) == ""
    || ByteLength(r.identity.value) > SOURCE_RECORD_ID_MAX_BYTES
  }

  // ------------------------------------------------------------------ duplicates and conflicts

  datatype ConflictCode = SOURCE_IDENTITY_PAYLOAD_CONFLICT | SOURCE_IDENTITY_EVIDENCE_CONFLICT

  datatype Conflict = Conflict(code: ConflictCode, identity: Option<string>, first: nat, second: nat)

  function WithIdentity(identity: Option<string>): PlanRow -> bool {
    (r: PlanRow) => r.identity == identity
  }

  /** The first row with the identity of row k. */
  function FirstOf(rows: seq<PlanRow>, k: nat): (f: nat)
    requires k < |rows|
    ensures f <= k && rows[f].identity == rows[k].identity
    ensures forall j | 0 <= j < f :: rows[j].identity != rows[k].identity
  {
    var p := WithIdentity(rows[k].identity);
    assert p(rows[k]);
    FirstIndex(rows, p).value
  }

  /** The conflict that row k raises against the first row of its identity. */
  function ConflictAt(rows: seq<PlanRow>, k: nat): Option<Conflict>
    requires k < |rows|
  {
    var f := FirstOf(rows, k);
    if f == k then None
    else if rows[f].payload != rows[k].payload then
      Some(Conflict(SOURCE_IDENTITY_PAYLOAD_CONFLICT, rows[k].identity, rows[f].ordinal, rows[k].ordinal))
    else if rows[f].cells != rows[k].cells then
      Some(Conflict(SOURCE_IDENTITY_EVIDENCE_CONFLICT, rows[k].identity, rows[f].ordinal, rows[k].ordinal))
    else None
  }

  function DisposedAt(rows: seq<PlanRow>, k: nat): PlanRow
    requires k < |rows|
  {
    var f := FirstOf(rows, k);
    if f == k || ConflictAt(rows, k).Some? then rows[k]
    else rows[k].(disposition := EXACT_DUPLICATE, hasRecord := false, duplicateOf := Some(rows[f].ordinal))
  }

  function Conflicts(rows: seq<PlanRow>, n: nat): seq<Conflict>
    requires n <= |rows|
  {
    if n == 0 then []
    else
      Conflicts(rows, n - 1)
      + if ConflictAt(rows, n - 1).Some? then [ConflictAt(rows, n - 1).value] else []
  }

  /** firstByIdentity after the first n rows. */
  ghost predicate Firsts(byIdentity: map<Option<string>, nat>, rows: seq<PlanRow>, n: nat)
    requires n <= |rows|
  {
    && (forall k | 0 <= k < n :: rows[k].identity in byIdentity)
    && (forall id | id in byIdentity ::
          byIdentity[id] < n && rows[byIdentity[id]].identity == id && FirstOf(rows, byIdentity[id]) == byIdentity[id])
  }

  lemma FirstsDecide(byIdentity: map<Option<string>, nat>, rows: seq<PlanRow>, n: nat)
    requires n < |rows| && Firsts(byIdentity, rows, n)
    ensures rows[n].identity in byIdentity ==> FirstOf(rows, n) == byIdentity[rows[n].identity]
    ensures rows[n].identity !in byIdentity ==> FirstOf(rows, n) == n
  {
  }

  lemma FirstsGrow(byIdentity: map<Option<string>, nat>, rows: seq<PlanRow>, n: nat)
    requires n < |rows| && Firsts(byIdentity, rows, n)
    ensures rows[n].identity in byIdentity ==> Firsts(byIdentity, rows, n + 1)
    ensures rows[n].identity !in byIdentity ==> Firsts(byIdentity[rows[n].identity := n], rows, n + 1)
  {
    FirstsDecide(byIdentity, rows, n);
  }

  /** One turn of the loop: what becomes of a row whose identity was first seen in another one. */
  method CompareWithFirst(first: PlanRow, row: PlanRow) returns (disposed: PlanRow, conflicts: seq<Conflict>)
    ensures conflicts ==
            if first.payload != row.payload then
              [Conflict(SOURCE_IDENTITY_PAYLOAD_CONFLICT, row.identity, first.ordinal, row.ordinal)]
            else if first.cells != row.cells then
              [Conflict(SOURCE_IDENTITY_EVIDENCE_CONFLICT, row.identity, first.ordinal, row.ordinal)]
            else []
    ensures disposed ==
            if conflicts != [] then row
            else row.(disposition := EXACT_DUPLICATE, hasRecord := false, duplicateOf := Some(first.ordinal))
  {
    if first.payload != row.payload {
      return row, [Conflict(SOURCE_IDENTITY_PAYLOAD_CONFLICT, row.identity, first.ordinal, row.ordinal)];
    }
    if first.cells != row.cells {
      return row, [Conflict(SOURCE_IDENTITY_EVIDENCE_CONFLICT, row.identity, first.ordinal, row.ordinal)];
    }
    return row.(disposition := EXACT_DUPLICATE, hasRecord := false, duplicateOf := Some(first.ordinal)), [];
  }

  lemma FirstsAreEarlier(byIdentity: map<Option<string>, nat>, rows: seq<PlanRow>, n: nat, identity: Option<string>)
    requires n <= |rows| && Firsts(byIdentity, rows, n) && identity in byIdentity
    ensures byIdentity[identity] < n
  {
  }

  /** The loop over the prepared rows with its map of first rows. */
  method Deduplicate(rows: seq<PlanRow>) returns (disposed: seq<PlanRow>, conflicts: seq<Conflict>)
    ensures |disposed| == |rows| && forall k | 0 <= k < |rows| :: disposed[k] == DisposedAt(rows, k)
    ensures conflicts == Conflicts(rows, |rows|)
  {
    hide Firsts, FirstOf;
    disposed, conflicts := [], [];
    var byIdentity: map<Option<string>, nat> := map[];
    var n := 0;
    NoFirsts(rows);
    while n < |rows|
      invariant 0 <= n <= |rows| && |disposed| == n
      invariant Firsts(byIdentity, rows, n)
      invariant forall k | 0 <= k < n :: disposed[k] == DisposedAt(rows, k)
      invariant conflicts == Conflicts(rows, n)
    {
      var row := rows[n];
      FirstsDecide(byIdentity, rows, n);
      FirstsGrow(byIdentity, rows, n);
      if row.identity !in byIdentity {
        byIdentity := byIdentity[row.identity := n];
        disposed := disposed + [row];
      } else {
        FirstsAreEarlier(byIdentity, rows, n, row.identity);
        var next, raised := CompareWithFirst(rows[byIdentity[row.identity]], row);
        disposed, conflicts := disposed + [next], conflicts + raised;
      }
      n := n + 1;
    }
  }

  lemma NoFirsts(rows: seq<PlanRow>)
    ensures Firsts(map[], rows, 0)
  {
  }

  // ------------------------------------------------------------------ the plan

  datatype Summary = Summary(total: nat, committed: nat, skipped: nat, conflicted: nat, failed: nat)

  function HasDisposition(d: Disposition): PlanRow -> bool {
    (r: PlanRow) => r.disposition == d
  }

  function Summarize(rows: seq<PlanRow>): Summary {
    Summary(|rows|, Count(rows, HasDisposition(COMMITTED)), Count(rows, HasDisposition(EXACT_DUPLICATE)), 0, 0)
  }

  /** The counts that data health contributes to the facts. */
  datatype Health = Health(
    rowsWithErrors: nat, duplicateConflicts: nat, identityCovered: nat,
    valueMissing: Option<nat>, stageMissing: Option<nat>,
    createdCovered: nat, createdInvalid: nat, updatedCovered: nat, updatedInvalid: nat, contactable: Option<nat>)

  datatype Facts = Facts(
    batchId: string, collection: Collection, total: int, committed: int, skipped: int, blocked: int, conflicts: int,
    identityCovered: int, valueCovered: Option<int>, stageCovered: Option<int>, createdCovered: int,
    createdInvalid: int, updatedCovered: int, updatedInvalid: int, contactable: Option<int>)

  /** buildImportPilotEvidenceFacts */
  function FactsOf(batchId: string, collection: Collection, total: nat, h: Health, s: Summary): Facts {
    Facts(batchId, collection, total, s.committed, s.skipped,
      if h.rowsWithErrors >= h.duplicateConflicts then h.rowsWithErrors - h.duplicateConflicts else 0,
      h.duplicateConflicts, h.identityCovered,
      if h.valueMissing.Some? then Some(total - h.valueMissing.value) else None,
      if h.stageMissing.Some? then Some(total - h.stageMissing.value) else None,
      h.createdCovered, h.createdInvalid, h.updatedCovered, h.updatedInvalid,
      if h.contactable.Some? then Some(h.contactable.value) else None)
  }

  /** A count that may be missing, but is at most the total otherwise. */
  predicate IsPart(n: Option<int>, total: int) {
    n.Some? ==> IsCount(n.value) && n.value <= total
  }

  /** validateImportFacts, on the side of the evidence log. */
  predicate AreValidFacts(f: Facts) {
    && IsEvidenceText(f.batchId, 200)
    && IsCount(f.total) && IsCount(f.committed) && IsCount(f.skipped) && IsCount(f.blocked) && IsCount(f.conflicts)
    && IsCount(f.identityCovered)
    && IsPart(f.valueCovered, f.total) && IsPart(f.stageCovered, f.total) && IsPart(f.contactable, f.total)
    && IsPart(Some(f.createdCovered), f.total) && IsPart(Some(f.createdInvalid), f.total)
    && IsPart(Some(f.updatedCovered), f.total) && IsPart(Some(f.updatedInvalid), f.total)
    && f.committed + f.skipped == f.total
    && f.blocked <= f.total && f.conflicts <= f.total && f.identityCovered <= f.total
  }

  predicate HasErrors(errors: seq<Issue>) {
    errors != []
  }

  predicate HasDuplicateIssue(errors: seq<Issue>) {
    exists i | i in errors :: IsDuplicateIssue(i)
  }

  function HasErrorsOf(): seq<Issue> -> bool {
    (errors: seq<Issue>) => HasErrors(errors)
  }

  function HasDuplicateOf(): seq<Issue> -> bool {
    (errors: seq<Issue>) => HasDuplicateIssue(errors)
  }

  /** The errors of the analysis, row by row. */
  function AllErrors(records: seq<Staged>, m: Mapping, isTimestamp: string -> bool): (r: seq<seq<Issue>>)
    ensures |r| == |records|
    ensures forall k | 0 <= k < |records| :: r[k] == ErrorsAt(records, m, isTimestamp, k)
  {
    seq(|records|, k requires 0 <= k < |records| => ErrorsAt(records, m, isTimestamp, k))
  }

  function ColumnOf(fields: seq<Field>, target: string): Option<nat> {
    var i := FirstIndex(fields, FieldNamed(target));
    if i.None? then None else fields[i.value].column
  }

  /** missingValueCounts of a field: its blank or null cells, and every row when it is not mapped. */
  function MissingIn(column: Option<nat>): Staged -> bool {
    (r: Staged) => column.None? || Evidence(r, column.value).kind in {MISSING, BLANK, NULL}
  }

  function ContactableBy(columns: seq<Option<nat>>): Staged -> bool {
    (r: Staged) =>
      exists i | 0 <= i < |columns| :: columns[i].Some? && !IsAbsent(Evidence(r, columns[i].value))
  }

  function HealthOf(records: seq<Staged>, m: Mapping, isTimestamp: string -> bool): Health {
    var errors := AllErrors(records, m, isTimestamp);
    var created := ColumnOf(m.fields, "created_at");
    var updated := ColumnOf(m.fields, "updated_at");
    Health(Count(errors, HasErrorsOf()), Count(errors, HasDuplicateOf()),
      Count(records, CoveredBy(Some(m.identityColumn), IDENTITY, isTimestamp)),
      if m.collection == OPPORTUNITIES then Some(Count(records, MissingIn(ColumnOf(m.fields, "value")))) else None,
      if m.collection == OPPORTUNITIES then Some(Count(records, MissingIn(ColumnOf(m.fields, "stage")))) else None,
      Count(records, CoveredBy(created, TIMESTAMP_COVERAGE, isTimestamp)),
      Count(records, InvalidIn(created, TIMESTAMP_COVERAGE, isTimestamp)),
      Count(records, CoveredBy(updated, TIMESTAMP_COVERAGE, isTimestamp)),
      Count(records, InvalidIn(updated, TIMESTAMP_COVERAGE, isTimestamp)),
      if m.collection == PROSPECTS then
        Some(Count(records, ContactableBy([ColumnOf(m.fields, "email"), ColumnOf(m.fields, "phone"),
                                           ColumnOf(m.fields, "website")])))
      else None)
  }

  datatype Plan =
    | Ready(rows: seq<PlanRow>, summary: Summary, facts: Facts)
    | Failed(rows: seq<PlanRow>, summary: Summary)
    | Conflicted(rows: seq<PlanRow>, summary: Summary, conflicts: seq<Conflict>)

  function Blocked(rows: seq<PlanRow>, d: Disposition): (r: seq<PlanRow>)
    ensures |r| == |rows|
    ensures forall k | 0 <= k < |rows| :: r[k] == rows[k].(disposition := d, hasRecord := false)
  {
    seq(|rows|, k requires 0 <= k < |rows| => rows[k].(disposition := d, hasRecord := false))
  }

  function AllDisposed(rows: seq<PlanRow>): (r: seq<PlanRow>)
    ensures |r| == |rows| && forall k | 0 <= k < |rows| :: r[k] == DisposedAt(rows, k)
  {
    seq(|rows|, k requires 0 <= k < |rows| => DisposedAt(rows, k))
  }

  /** buildCanonicalCommitPlan for a supported target and a reviewed mapping. */
  function BuildPlan(batchId: string, records: seq<Staged>, m: Mapping, isTimestamp: string -> bool): Plan {
    var rows := PreparedRows(records, m, isTimestamp);
    var n := |rows|;
    if exists r | r in rows :: IsInvalid(r) then Failed(Blocked(rows, BLOCKED_FAILED), Summary(n, 0, 0, 0, n))
    else
      var conflicts := Conflicts(rows, n);
      if conflicts != [] then Conflicted(Blocked(rows, BLOCKED_CONFLICTED), Summary(n, 0, 0, n, 0), conflicts)
      else
        var disposed := AllDisposed(rows);
        Ready(disposed, Summarize(disposed),
          FactsOf(batchId, m.collection, |records|, HealthOf(records, m, isTimestamp), Summarize(disposed)))
  }

  /** buildDataHealth: its counts by filters and by the coverage loops. */
  method BuildDataHealth(records: seq<Staged>, m: Mapping, isTimestamp: string -> bool, errors: seq<seq<Issue>>)
    returns (h: Health)
    requires errors == AllErrors(records, m, isTimestamp)
    ensures h == HealthOf(records, m, isTimestamp)
  {
    hide Count, ColumnOf, AllErrors, CoveredBy, InvalidIn, MissingIn, ContactableBy;
    var created := CoverageOf(records, ColumnOf(m.fields, "created_at"), TIMESTAMP_COVERAGE, isTimestamp);
    var updated := CoverageOf(records, ColumnOf(m.fields, "updated_at"), TIMESTAMP_COVERAGE, isTimestamp);
    var identity := CoverageOf(records, Some(m.identityColumn), IDENTITY, isTimestamp);
    var value, stage, contactable: Option<nat> := None, None, None;
    if m.collection == OPPORTUNITIES {
      value := Some(Count(records, MissingIn(ColumnOf(m.fields, "value"))));
      stage := Some(Count(records, MissingIn(ColumnOf(m.fields, "stage"))));
    }
    if m.collection == PROSPECTS {
      contactable := Some(Count(records, ContactableBy([ColumnOf(m.fields, "email"), ColumnOf(m.fields, "phone"),
                                                        ColumnOf(m.fields, "website")])));
    }
    return Health(Count(errors, HasErrorsOf()), Count(errors, HasDuplicateOf()), identity.covered, value, stage,
      created.covered, created.invalid, updated.covered, updated.invalid, contactable);
  }

  method BuildCanonicalCommitPlan(batchId: string, records: seq<Staged>, m: Mapping, isTimestamp: string -> bool)
    returns (plan: Plan)
    ensures plan == BuildPlan(batchId, records, m, isTimestamp)
  {
    hide Conflicts, DisposedAt, IsInvalid, HealthOf, ErrorsAt, SourceIdentity, PayloadOf;
    var analysis := ValidateRows(records, m, isTimestamp);
    assert analysis == AllErrors(records, m, isTimestamp);
    var health := BuildDataHealth(records, m, isTimestamp, analysis);
    var rows: seq<PlanRow> := [];
    var n := 0;
    while n < |records|
      invariant 0 <= n <= |records| && |rows| == n
      invariant forall k | 0 <= k < n :: rows[k] == Prepared(records, m, isTimestamp, k)
    {
      var r := records[n];
      var errors := analysis[n]
        + When(Evidence(r, m.identityColumn).kind == ValueKind.UNKNOWN, SOURCE_IDENTITY_UNKNOWN);
      var identity, payload := SourceIdentity(r, m), PayloadOf(r, m.fields);
      rows := rows + [PlanRow(r.ordinal, identity, payload, r.cells, COMMITTED, true, None, errors)];
      n := n + 1;
    }
    assert rows == PreparedRows(records, m, isTimestamp);
    if exists r | r in rows :: IsInvalid(r) {
      return Failed(Blocked(rows, BLOCKED_FAILED), Summary(|rows|, 0, 0, 0, |rows|));
    }
    var disposed, conflicts := Deduplicate(rows);
    if conflicts != [] {
      return Conflicted(Blocked(rows, BLOCKED_CONFLICTED), Summary(|rows|, 0, 0, |rows|, 0), conflicts);
    }
    assert disposed == AllDisposed(rows);
    return Ready(disposed, Summarize(disposed),
      FactsOf(batchId, m.collection, |records|, health, Summarize(disposed)));
  }
}

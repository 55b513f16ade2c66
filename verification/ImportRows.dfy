/** Row validation of an import: errors, duplicates, coverage, one column per field. */
module ImportRows {
  import opened Text
  import opened Lists
  import opened NumericEvidence
  import opened Csv
  import Deals

  datatype FieldType = TEXT_FIELD | NUMBER_FIELD | TIMESTAMP_FIELD | STATUS_FIELD

  datatype Collection = PROSPECTS | OPPORTUNITIES | TASKS | ACTIVITIES

  /** A target field with the column it is mapped to. */
  datatype Field = Field(target: string, kind: FieldType, required: bool, column: Option<nat>)

  datatype Staged = Staged(ordinal: nat, cells: seq<Cell>)

  datatype Issue =
    | REQUIRED_MAPPING_MISSING | REQUIRED_VALUE_MISSING | POSTGRES_NUMERIC_UNREPRESENTABLE | TIMESTAMP_INVALID
    | COMMERCIAL_CURRENCY_INVALID | PROBABILITY_OUT_OF_RANGE | COMMERCIAL_VALUE_OUT_OF_RANGE | TASK_STATUS_INVALID
    | TASK_COMPLETION_TIMESTAMP_REQUIRED | TASK_COMPLETION_TIMESTAMP_INCONSISTENT
    | DUPLICATE_SOURCE_ID | EXACT_REPEATED_SOURCE_ROW | SOURCE_IDENTITY_UNKNOWN

  predicate IsDuplicateIssue(i: Issue) {
    i == DUPLICATE_SOURCE_ID || i == EXACT_REPEATED_SOURCE_ROW
  }

  // ------------------------------------------------------------------ evidence of a cell

  const NO_CELL := Cell(None, MISSING)

  /** rawEvidence: the cell of a column, or a missing one. */
  function Evidence(r: Staged, column: nat): Cell {
    if column < |r.cells| then r.cells[column] else NO_CELL
  }

  predicate IsAbsent(c: Cell) {
    c.kind in {MISSING, BLANK, NULL, ValueKind.UNKNOWN}
  }

  predicate IsNumber(c: Cell) {
    c.kind in {NUMERIC, ValueKind.KNOWN_ZERO}
  }

  function RawText(c: Cell): string {
    if c.raw.Some? then c.raw.value else ""
  }

  /** isMissingSourceIdentity */
  predicate LacksIdentity(c: Cell) {
    IsAbsent(c) || Trim(RawText(c)) == ""
  }

  /** One error, if its condition holds. */
  function When(condition: bool, issue: Issue): seq<Issue> {
    if condition then [issue] else []
  }

  predicate IsTaskStatus(text: string) {
    text in {"OPEN", "IN_PROGRESS", "COMPLETED", "CANCELLED"}
  }

  /** The errors of one mapped field; isTimestamp stands for validTimestamp. */
  function FieldErrors(c: Cell, f: Field, collection: Collection, isTimestamp: string -> bool): seq<Issue> {
    var raw := RawText(c);
    if c.kind in {ValueKind.UNKNOWN, NULL} then When(f.required, REQUIRED_VALUE_MISSING)
    else if f.required && IsAbsent(c) then [REQUIRED_VALUE_MISSING]
    else if IsAbsent(c) then []
    else if f.required && Trim(raw) == "" then [REQUIRED_VALUE_MISSING]
    else
      When(f.kind == NUMBER_FIELD && IsNumber(c) && !IsCanonicalNumericLiteralRepresentable(raw),
        POSTGRES_NUMERIC_UNREPRESENTABLE)
      + When(f.kind == TIMESTAMP_FIELD && !isTimestamp(raw), TIMESTAMP_INVALID)
      + When(collection == OPPORTUNITIES && f.target == "currency" && !Deals.IsCurrencyCode(raw),
          COMMERCIAL_CURRENCY_INVALID)
      + When(collection == OPPORTUNITIES && f.target == "probability" && IsNumber(c)
             && (IsNegativeNumberLiteral(raw) || IsGreaterThanOneLiteral(raw)), PROBABILITY_OUT_OF_RANGE)
      + When(collection == OPPORTUNITIES && f.target == "value" && IsNumber(c) && IsNegativeNumberLiteral(raw),
          COMMERCIAL_VALUE_OUT_OF_RANGE)
      + When(collection == TASKS && f.target == "status" && !IsTaskStatus(raw), TASK_STATUS_INVALID)
  }

  function ErrorsOfFields(r: Staged, fields: seq<Field>, collection: Collection,
                          isTimestamp: string -> bool): seq<Issue> {
    if fields == [] then []
    else
      var f := fields[|fields| - 1];
      ErrorsOfFields(r, fields[..|fields| - 1], collection, isTimestamp)
      + if f.column.None? then When(f.required, REQUIRED_MAPPING_MISSING)
        else FieldErrors(Evidence(r, f.column.value), f, collection, isTimestamp)
  }

  function FieldNamed(target: string): Field -> bool {
    (f: Field) => f.target == target
  }

  /** The evidence of the field with the given target, None when it is not mapped. */
  function EvidenceOf(r: Staged, fields: seq<Field>, target: string): Option<Cell> {
    var i := FirstIndex(fields, FieldNamed(target));
    if i.None? || fields[i.value].column.None? then None else Some(Evidence(r, fields[i.value].column.value))
  }

  /** validateTaskCompletionConsistency */
  function CompletionErrors(r: Staged, fields: seq<Field>): seq<Issue> {
    var status := EvidenceOf(r, fields, "status");
    var completed := EvidenceOf(r, fields, "completed_at");
    var completedAbsent := completed.None? || IsAbsent(completed.value);
    if status.None? || IsAbsent(status.value) || !IsTaskStatus(RawText(status.value)) then []
    else
      When(RawText(status.value) == "COMPLETED" && completedAbsent, TASK_COMPLETION_TIMESTAMP_REQUIRED)
      + When(RawText(status.value) != "COMPLETED" && !completedAbsent, TASK_COMPLETION_TIMESTAMP_INCONSISTENT)
  }

  /** The setting of a validation: how fields are mapped and where identities are. */
  datatype Mapping = Mapping(collection: Collection, fields: seq<Field>, identityColumn: nat)

  function OwnErrors(r: Staged, m: Mapping, isTimestamp: string -> bool): seq<Issue> {
    ErrorsOfFields(r, m.fields, m.collection, isTimestamp)
    + if m.collection == TASKS then CompletionErrors(r, m.fields) else []
  }

  /** The identity a row is known by, None when it has none. */
  function IdentityOf(r: Staged, m: Mapping): Option<string> {
    var c := Evidence(r, m.identityColumn);
    if LacksIdentity(c) then None else Some(RawText(c))
  }

  // ------------------------------------------------------------------ duplicates

  predicate RepeatsIdentity(records: seq<Staged>, m: Mapping, k: nat)
    requires k < |records|
  {
    IdentityOf(records[k], m).Some? && exists i | 0 <= i < k :: IdentityOf(records[i], m) == IdentityOf(records[k], m)
  }

  predicate RepeatsCells(records: seq<Staged>, k: nat)
    requires k < |records|
  {
    exists i | 0 <= i < k :: records[i].cells == records[k].cells
  }

  function ErrorsAt(records: seq<Staged>, m: Mapping, isTimestamp: string -> bool, k: nat): seq<Issue>
    requires k < |records|
  {
    OwnErrors(records[k], m, isTimestamp)
    + When(RepeatsIdentity(records, m, k), DUPLICATE_SOURCE_ID)
    + When(RepeatsCells(records, k), EXACT_REPEATED_SOURCE_ROW)
  }

  /** The loop over the fields of a row. */
  method ValidateFields(r: Staged, m: Mapping, isTimestamp: string -> bool) returns (errors: seq<Issue>)
    ensures errors == OwnErrors(r, m, isTimestamp)
  {
    hide FieldErrors, CompletionErrors;
    errors := [];
    var n := 0;
    while n < |m.fields|
      invariant 0 <= n <= |m.fields|
      invariant errors == ErrorsOfFields(r, m.fields[..n], m.collection, isTimestamp)
    {
      assert m.fields[..n + 1][..n] == m.fields[..n];
      var f := m.fields[n];
      if f.column.None? {
        errors := errors + When(f.required, REQUIRED_MAPPING_MISSING);
      } else {
        errors := errors + FieldErrors(Evidence(r, f.column.value), f, m.collection, isTimestamp);
      }
      n := n + 1;
    }
    assert m.fields[..n] == m.fields;
    if m.collection == TASKS {
      errors := errors + CompletionErrors(r, m.fields);
    } else {
      assert errors + [] == errors;
    }
  }

  /** What the two maps of the row loop know about the first n records. */
  ghost predicate Remembers(ids: map<string, nat>, payloads: map<seq<Cell>, nat>, records: seq<Staged>, m: Mapping,
                            n: nat)
    requires n <= |records|
  {
    && (forall key | key in ids :: exists i | 0 <= i < n :: IdentityOf(records[i], m) == Some(key))
    && (forall i | 0 <= i < n && IdentityOf(records[i], m).Some? :: IdentityOf(records[i], m).value in ids)
    && (forall cells | cells in payloads :: exists i | 0 <= i < n :: records[i].cells == cells)
    && (forall i | 0 <= i < n :: records[i].cells in payloads)
  }

  lemma RemembersDecides(ids: map<string, nat>, payloads: map<seq<Cell>, nat>, records: seq<Staged>, m: Mapping, n: nat)
    requires n < |records| && Remembers(ids, payloads, records, m, n)
    ensures RepeatsCells(records, n) <==> records[n].cells in payloads
    ensures var id := IdentityOf(records[n], m); RepeatsIdentity(records, m, n) <==> id.Some? && id.value in ids
  {
    hide IdentityOf;
    var id := IdentityOf(records[n], m);
    if id.Some? && id.value in ids {
      var i :| 0 <= i < n && IdentityOf(records[i], m) == Some(id.value);
    }
    if records[n].cells in payloads {
      var i :| 0 <= i < n && records[i].cells == records[n].cells;
    }
  }

  lemma RemembersMore(ids: map<string, nat>, payloads: map<seq<Cell>, nat>, records: seq<Staged>, m: Mapping, n: nat,
                      moreIds: map<string, nat>, morePayloads: map<seq<Cell>, nat>)
    requires n < |records| && Remembers(ids, payloads, records, m, n)
    requires var id := IdentityOf(records[n], m);
             moreIds == if id.Some? && id.value !in ids then ids[id.value := records[n].ordinal] else ids
    requires morePayloads == if records[n].cells !in payloads
                             then payloads[records[n].cells := records[n].ordinal] else payloads
    ensures Remembers(moreIds, morePayloads, records, m, n + 1)
  {
    hide IdentityOf;
    forall key | key in moreIds ensures exists i | 0 <= i < n + 1 :: IdentityOf(records[i], m) == Some(key) {
      if key in ids {
        var i :| 0 <= i < n && IdentityOf(records[i], m) == Some(key);
      } else {
        assert IdentityOf(records[n], m) == Some(key);
      }
    }
    forall cells | cells in morePayloads ensures exists i | 0 <= i < n + 1 :: records[i].cells == cells {
      if cells in payloads {
        var i :| 0 <= i < n && records[i].cells == cells;
      } else {
        assert records[n].cells == cells;
      }
    }
  }

  lemma NothingRemembered(records: seq<Staged>, m: Mapping)
    ensures Remembers(map[], map[], records, m, 0)
  {
  }

  /** validateRows: the loop over the records with its maps of identities and payloads. */
  method ValidateRows(records: seq<Staged>, m: Mapping, isTimestamp: string -> bool) returns (errors: seq<seq<Issue>>)
    ensures |errors| == |records|
    ensures forall k | 0 <= k < |records| :: errors[k] == ErrorsAt(records, m, isTimestamp, k)
  {
    hide Remembers, RepeatsCells, RepeatsIdentity, OwnErrors, IdentityOf;
    errors := [];
    var ids: map<string, nat> := map[];
    var payloads: map<seq<Cell>, nat> := map[];
    NothingRemembered(records, m);
    var n := 0;
    while n < |records|
      invariant 0 <= n <= |records| && |errors| == n
      invariant Remembers(ids, payloads, records, m, n)
      invariant forall k | 0 <= k < n :: errors[k] == ErrorsAt(records, m, isTimestamp, k)
    {
      var r := records[n];
      var own := ValidateFields(r, m, isTimestamp);
      RemembersDecides(ids, payloads, records, m, n);
      ghost var oldIds, oldPayloads := ids, payloads;
      var id := IdentityOf(r, m);
      if id.Some? {
        if id.value in ids {
          own := own + [DUPLICATE_SOURCE_ID];
        } else {
          ids := ids[id.value := r.ordinal];
        }
      }
      if r.cells in payloads {
        own := own + [EXACT_REPEATED_SOURCE_ROW];
      } else {
        payloads := payloads[r.cells := r.ordinal];
      }
      RemembersMore(oldIds, oldPayloads, records, m, n, ids, payloads);
      errors := errors + [own];
      n := n + 1;
    }
  }

  // ------------------------------------------------------------------ coverage

  datatype Coverage = Coverage(covered: nat, invalid: nat, missing: nat)

  datatype CoverageKind = PRESENCE | IDENTITY | TIMESTAMP_COVERAGE

  predicate IsMissing(c: Cell, kind: CoverageKind) {
    IsAbsent(c) || (kind == IDENTITY && LacksIdentity(c))
  }

  function CoveredBy(column: Option<nat>, kind: CoverageKind, isTimestamp: string -> bool): Staged -> bool {
    (r: Staged) =>
      column.Some? && !IsMissing(Evidence(r, column.value), kind)
      && (kind == TIMESTAMP_COVERAGE ==> isTimestamp(RawText(Evidence(r, column.value))))
  }

  function InvalidIn(column: Option<nat>, kind: CoverageKind, isTimestamp: string -> bool): Staged -> bool {
    (r: Staged) =>
      column.Some? && !IsMissing(Evidence(r, column.value), kind)
      && kind == TIMESTAMP_COVERAGE && !isTimestamp(RawText(Evidence(r, column.value)))
  }

  /** The counting loop: every row is covered, invalid or missing, and the first two are counted as such. */
  method CoverageOf(records: seq<Staged>, column: Option<nat>, kind: CoverageKind, isTimestamp: string -> bool)
    returns (c: Coverage)
    ensures c.covered == Count(records, CoveredBy(column, kind, isTimestamp))
    ensures c.invalid == Count(records, InvalidIn(column, kind, isTimestamp))
    ensures c.covered + c.invalid + c.missing == |records|
  {
    hide Count, IsMissing;
    c := Coverage(0, 0, 0);
    var n := 0;
    CountNothing(records, CoveredBy(column, kind, isTimestamp));
    CountNothing(records, InvalidIn(column, kind, isTimestamp));
    while n < |records|
      invariant 0 <= n <= |records|
      invariant c.covered == Count(records[..n], CoveredBy(column, kind, isTimestamp))
      invariant c.invalid == Count(records[..n], InvalidIn(column, kind, isTimestamp))
      invariant c.covered + c.invalid + c.missing == n
    {
      var r := records[n];
      assert records[..n + 1] == records[..n] + [r];
      CountAppend(records[..n], r, CoveredBy(column, kind, isTimestamp));
      CountAppend(records[..n], r, InvalidIn(column, kind, isTimestamp));
      if column.None? || IsMissing(Evidence(r, column.value), kind) {
        c := c.(missing := c.missing + 1);
      } else if kind == TIMESTAMP_COVERAGE && !isTimestamp(RawText(Evidence(r, column.value))) {
        c := c.(invalid := c.invalid + 1);
      } else {
        c := c.(covered := c.covered + 1);
      }
      n := n + 1;
    }
    assert records[..n] == records;
  }

  // ------------------------------------------------------------------ one column, one field

  /** How many of the fields are mapped to the column. */
  function Owners(fields: seq<Field>, column: nat): nat {
    Count(fields, MappedTo(column))
  }

  function MappedTo(column: nat): Field -> bool {
    (f: Field) => f.column == Some(column)
  }

  /** A field loses a column that it shares. */
  function Unshared(f: Field, fields: seq<Field>): Field {
    if f.column.Some? && Owners(fields, f.column.value) >= 2 then f.(column := None) else f
  }

  /** owners holds the number of fields mapped to every column, among the first n. */
  ghost predicate CountsOwners(owners: map<nat, nat>, fields: seq<Field>, n: nat)
    requires n <= |fields|
  {
    forall column: nat ::
      Count(fields[..n], MappedTo(column)) == if column in owners then owners[column] else 0
  }

  lemma OwnersGrow(owners: map<nat, nat>, fields: seq<Field>, n: nat, next: map<nat, nat>)
    requires n < |fields| && CountsOwners(owners, fields, n)
    requires var c := fields[n].column;
             next == if c.None? then owners
                     else owners[c.value := (if c.value in owners then owners[c.value] else 0) + 1]
    ensures CountsOwners(next, fields, n + 1)
  {
    hide Count;
    forall column: nat
      ensures Count(fields[..n + 1], MappedTo(column)) == if column in next then next[column] else 0
    {
      assert fields[..n + 1] == fields[..n] + [fields[n]];
      CountAppend(fields[..n], fields[n], MappedTo(column));
    }
  }

  lemma NoOwners(fields: seq<Field>)
    ensures CountsOwners(map[], fields, 0)
  {
    forall column: nat ensures Count(fields[..0], MappedTo(column)) == 0 {
      CountNothing(fields, MappedTo(column));
    }
  }

  /** markAutomaticSourceReuse: first the owners of every column, then the shared ones are unmapped. */
  method MarkAutomaticSourceReuse(fields: seq<Field>) returns (marked: seq<Field>)
    ensures |marked| == |fields|
    ensures forall k | 0 <= k < |fields| :: marked[k] == Unshared(fields[k], fields)
  {
    hide Count, CountsOwners;
    var owners: map<nat, nat> := map[];
    NoOwners(fields);
    var n := 0;
    while n < |fields|
      invariant 0 <= n <= |fields|
      invariant CountsOwners(owners, fields, n)
    {
      var c := fields[n].column;
      ghost var before := owners;
      if c.Some? {
        owners := owners[c.value := (if c.value in owners then owners[c.value] else 0) + 1];
      }
      OwnersGrow(before, fields, n, owners);
      n := n + 1;
    }
    assert fields[..n] == fields;
    OwnersAreCounted(owners, fields);
    marked := [];
    n := 0;
    while n < |fields|
      invariant 0 <= n <= |fields| && |marked| == n
      invariant forall k | 0 <= k < n :: marked[k] == Unshared(fields[k], fields)
    {
      var f := fields[n];
      if f.column.Some? && f.column.value in owners && owners[f.column.value] >= 2 {
        f := f.(column := None);
      }
      marked := marked + [f];
      n := n + 1;
    }
  }

  lemma OwnersAreCounted(owners: map<nat, nat>, fields: seq<Field>)
    requires CountsOwners(owners, fields, |fields|)
    ensures forall column: nat :: Owners(fields, column) == if column in owners then owners[column] else 0
  {
    hide Count;
    assert fields[..|fields|] == fields;
  }

  /** After marking no two fields share a column; a field loses its column exactly when it shared it. */
  lemma MarkedAreSeparate(fields: seq<Field>, j: nat, k: nat)
    requires j < k < |fields| && fields[j].column.Some? && fields[j].column == fields[k].column
    ensures Unshared(fields[j], fields).column.None? && Unshared(fields[k], fields).column.None?
  {
    var a, b := FilterKeepsOrder(fields, MappedTo(fields[j].column.value), j, k);
  }
}

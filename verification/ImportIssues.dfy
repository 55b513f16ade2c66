/** When a row of an import has which issue, told from its raw cells and the mapped fields. */
module ImportIssues {
  import opened Text
  import opened Lists
  import opened NumericEvidence
  import DV = DecimalValue
  import opened DecimalExact
  import opened Csv
  import opened ImportRows
  import opened ImportPlan
  import opened ImportTheorems
  import opened ImportRecords

  /** A cell says nothing: it is not there, blank, null or unknown. */
  predicate SaysNothing(raw: Option<string>) {
    raw.Some? ==> IsBlank(raw.value) || SaysNull(raw.value) || SaysUnknown(raw.value)
  }

  ghost predicate IsNumeral(raw: string) {
    SaysZero(raw) || SaysNumber(raw)
  }

  predicate IsCode(text: string) {
    |text| == 3 && 'A' <= text[0] <= 'Z' && 'A' <= text[1] <= 'Z' && 'A' <= text[2] <= 'Z'
  }

  /** What a mapped field finds wrong with a cell. */
  ghost predicate Objects(f: Field, collection: Collection, raw: Option<string>, isTimestamp: string -> bool,
                          issue: Issue)
  {
    if SaysNothing(raw) then f.required && issue == REQUIRED_VALUE_MISSING
    else
      match issue
      case POSTGRES_NUMERIC_UNREPRESENTABLE =>
        f.kind == NUMBER_FIELD && IsNumeral(raw.value) && !IsCanonicalNumericLiteralRepresentable(raw.value)
      case TIMESTAMP_INVALID => f.kind == TIMESTAMP_FIELD && !isTimestamp(raw.value)
      case COMMERCIAL_CURRENCY_INVALID =>
        collection == OPPORTUNITIES && f.target == "currency" && !IsCode(raw.value)
      case PROBABILITY_OUT_OF_RANGE =>
        && collection == OPPORTUNITIES && f.target == "probability" && IsNumeral(raw.value)
        && IsDecimalNumberLiteral(raw.value) && !(0.0 <= DV.Value(raw.value) <= 1.0)
      case COMMERCIAL_VALUE_OUT_OF_RANGE =>
        && collection == OPPORTUNITIES && f.target == "value" && IsNumeral(raw.value)
        && IsDecimalNumberLiteral(raw.value) && DV.Value(raw.value) < 0.0
      case TASK_STATUS_INVALID =>
        && collection == TASKS && f.target == "status"
        && raw.value !in {"OPEN", "IN_PROGRESS", "COMPLETED", "CANCELLED"}
      case _ => false
  }

  lemma FieldObjects(c: Cell, f: Field, collection: Collection, isTimestamp: string -> bool, issue: Issue)
    requires c.kind == ClassifyCell(c.raw)
    ensures issue in FieldErrors(c, f, collection, isTimestamp) <==> Objects(f, collection, c.raw, isTimestamp, issue)
  {
    hide ClassifyCell, SaysNull, SaysUnknown, IsBlank, SaysZero, SaysNumber, IsDecimalNumberLiteral, DV.Value,
      IsCanonicalNumericLiteralRepresentable, IsNegativeNumberLiteral, IsGreaterThanOneLiteral, Trim;
    NoTextIsMissing();
    if c.raw.Some? {
      KindsAreExact(c.raw.value);
      KindsExclude(c.raw.value);
      ZeroAndSignAreExact(c.raw.value);
      GreaterThanOneIsExact(c.raw.value);
      PresentIsNotBlank(c.raw.value);
    }
  }

  lemma PresentIsNotBlank(raw: string)
    ensures !IsBlank(raw) <==> Trim(raw) != ""
  {
  }

  // ------------------------------------------------------------------ the issues of a row

  /** The text of a row under the first field of a name; None when that is not mapped or has no cell. */
  function TextUnder(r: Staged, fields: seq<Field>, target: string): Option<string> {
    var i := FirstIndex(fields, FieldNamed(target));
    if i.None? || fields[i.value].column.None? then None else RawOf(r, fields[i.value].column.value)
  }

  /** That field is the first of the name. */
  lemma TextOfFirst(r: Staged, fields: seq<Field>, target: string, n: nat)
    requires n <= |fields| && forall j | 0 <= j < n :: fields[j].target != target
    requires n < |fields| ==> fields[n].target == target
    ensures TextUnder(r, fields, target)
            == if n == |fields| || fields[n].column.None? then None else RawOf(r, fields[n].column.value)
  {
    hide FirstIndex;
    if n < |fields| { FirstIndexIs(fields, n, FieldNamed(target)); }
  }

  /** A task is completed exactly when it says when. */
  predicate ObjectsToCompletion(r: Staged, fields: seq<Field>, issue: Issue) {
    var status := TextUnder(r, fields, "status");
    var ended := !SaysNothing(TextUnder(r, fields, "completed_at"));
    && status.Some? && status.value in {"OPEN", "IN_PROGRESS", "COMPLETED", "CANCELLED"}
    && if status.value == "COMPLETED" then !ended && issue == TASK_COMPLETION_TIMESTAMP_REQUIRED
       else ended && issue == TASK_COMPLETION_TIMESTAMP_INCONSISTENT
  }

  /** A field finds the issue: a required one because it is not mapped, a mapped one because it objects to its cell. */
  ghost predicate Finds(r: Staged, f: Field, collection: Collection, isTimestamp: string -> bool, issue: Issue) {
    if f.column.None? then f.required && issue == REQUIRED_MAPPING_MISSING
    else Objects(f, collection, RawOf(r, f.column.value), isTimestamp, issue)
  }

  ghost predicate SomeFieldObjects(r: Staged, fields: seq<Field>, collection: Collection,
                                   isTimestamp: string -> bool, issue: Issue)
  {
    exists n | 0 <= n < |fields| :: Finds(r, fields[n], collection, isTimestamp, issue)
  }

  lemma OneFieldFinds(r: Staged, f: Field, collection: Collection, isTimestamp: string -> bool, issue: Issue)
    requires IsClassified(r)
    ensures Finds(r, f, collection, isTimestamp, issue) <==>
            issue in if f.column.None? then When(f.required, REQUIRED_MAPPING_MISSING)
                     else FieldErrors(Evidence(r, f.column.value), f, collection, isTimestamp)
  {
    hide FieldErrors, Objects, ClassifyCell;
    NoTextIsMissing();
    if f.column.Some? { FieldObjects(Evidence(r, f.column.value), f, collection, isTimestamp, issue); }
  }

  lemma {:induction false} FieldsObject(r: Staged, fields: seq<Field>, collection: Collection,
                                        isTimestamp: string -> bool, issue: Issue)
    requires IsClassified(r)
    ensures issue in ErrorsOfFields(r, fields, collection, isTimestamp) <==>
            SomeFieldObjects(r, fields, collection, isTimestamp, issue)
  {
    hide FieldErrors, Finds, IsClassified, Evidence;
    if fields != [] {
      var last := |fields| - 1;
      FieldsObject(r, fields[..last], collection, isTimestamp, issue);
      assert forall n | 0 <= n < last :: fields[..last][n] == fields[n];
      OneFieldFinds(r, fields[last], collection, isTimestamp, issue);
    }
  }

  lemma StatusSaysSomething(status: string)
    requires status in {"OPEN", "IN_PROGRESS", "COMPLETED", "CANCELLED"}
    ensures !SaysNothing(Some(status))
  {
    TrimKeepsTrimmed(status);
    assert ToLower(status)[0] == LowerChar(status[0]);
  }

  lemma CompletionExactly(r: Staged, fields: seq<Field>, issue: Issue)
    requires IsClassified(r)
    ensures issue in CompletionErrors(r, fields) <==> ObjectsToCompletion(r, fields, issue)
  {
    hide FirstIndex, ClassifyCell, SaysNothing;
    NoTextIsMissing();
    TextExactly(r, fields, "status");
    TextExactly(r, fields, "completed_at");
    var status := TextUnder(r, fields, "status");
    if status.Some? && IsTaskStatus(status.value) { StatusSaysSomething(status.value); }
  }

  lemma TextExactly(r: Staged, fields: seq<Field>, target: string)
    requires IsClassified(r)
    ensures var c := EvidenceOf(r, fields, target);
            && (c.None? || IsAbsent(c.value) <==> SaysNothing(TextUnder(r, fields, target)))
            && (c.Some? ==> c.value.raw == TextUnder(r, fields, target))
            && (c.None? ==> TextUnder(r, fields, target).None?)
  {
    hide FirstIndex, ClassifyCell, SaysNull, SaysUnknown, IsBlank, SaysZero, SaysNumber;
    NoTextIsMissing();
    var raw := TextUnder(r, fields, target);
    if raw.Some? { KindsAreExact(raw.value); }
  }

  /** A row has an issue of its own exactly when a field finds it, or, among tasks, its completion is inconsistent. */
  lemma RowObjectsExactlyWhen(r: Staged, m: Mapping, isTimestamp: string -> bool, issue: Issue)
    requires IsClassified(r)
    ensures issue in OwnErrors(r, m, isTimestamp) <==>
            SomeFieldObjects(r, m.fields, m.collection, isTimestamp, issue)
            || (m.collection == TASKS && ObjectsToCompletion(r, m.fields, issue))
  {
    hide ErrorsOfFields, CompletionErrors, SomeFieldObjects, ObjectsToCompletion, IsClassified;
    FieldsObject(r, m.fields, m.collection, isTimestamp, issue);
    CompletionExactly(r, m.fields, issue);
  }

  /**
   * A row blocks the plan exactly when it has an issue of its own, or its identity cell says nothing or is longer than
   * 512 bytes; repeating another row is no such issue.
   */
  lemma BlocksExactlyWhen(records: seq<Staged>, m: Mapping, isTimestamp: string -> bool, k: nat)
    requires k < |records| && IsClassified(records[k])
    ensures var identity := RawOf(records[k], m.identityColumn);
            IsInvalid(Prepared(records, m, isTimestamp, k)) <==>
            OwnErrors(records[k], m, isTimestamp) != [] || SaysNothing(identity) || ByteLength(identity.value) > 512
  {
    hide OwnErrors, ClassifyCell, PayloadOf, ByteLength, RepeatsIdentity, RepeatsCells, SaysNull, SaysUnknown, IsBlank,
      SaysZero, SaysNumber, Trim;
    var own := OwnErrors(records[k], m, isTimestamp);
    var row := Prepared(records, m, isTimestamp, k);
    OwnIssues(records[k], m, isTimestamp);
    NoTextIsMissing();
    var identity := RawOf(records[k], m.identityColumn);
    if identity.Some? {
      KindsAreExact(identity.value);
      PresentIsNotBlank(identity.value);
    }
    if own != [] { assert own[0] in row.errors; }
    if Evidence(records[k], m.identityColumn).kind == ValueKind.UNKNOWN {
      assert row.errors[|row.errors| - 1] == SOURCE_IDENTITY_UNKNOWN && SOURCE_IDENTITY_UNKNOWN in row.errors;
    } else {
      assert When(false, SOURCE_IDENTITY_UNKNOWN) == [];
    }
  }
}

/** What the records of a commit plan hold, told from the raw cells and the reviewed fields. */
module ImportRecords {
  import opened Text
  import opened NumericEvidence
  import DV = DecimalValue
  import opened DecimalExact
  import opened DecimalPrinting
  import opened Csv
  import opened ImportRows
  import opened ImportPlan
  import opened ImportTheorems

  // ------------------------------------------------------------------ how a raw cell reads

  predicate SaysNull(raw: string) {
    ToLower(Trim(raw)) == "null"
  }

  predicate SaysUnknown(raw: string) {
    ToLower(Trim(raw)) in {"unknown", "n/a", "na", "not known"}
  }

  predicate IsBlank(raw: string) {
    Trim(raw) == ""
  }

  /** The decimal that a raw cell reads as. */
  function Numeral(raw: string): string {
    ToLower(Trim(raw))
  }

  ghost predicate SaysZero(raw: string) {
    IsDecimalNumberLiteral(Numeral(raw)) && DV.Value(Numeral(raw)) == 0.0
  }

  ghost predicate SaysNumber(raw: string) {
    IsDecimalNumberLiteral(Numeral(raw)) && DV.Value(Numeral(raw)) != 0.0
  }

  /** The kind of a cell is how its text reads; no text reads in two ways. */
  lemma KindsAreExact(raw: string)
    ensures var kind := ClassifyCell(Some(raw));
            && (kind == BLANK <==> IsBlank(raw)) && (kind == NULL <==> SaysNull(raw))
            && (kind == ValueKind.UNKNOWN <==> SaysUnknown(raw))
            && (kind == ValueKind.KNOWN_ZERO <==> SaysZero(raw)) && (kind == NUMERIC <==> SaysNumber(raw))
            && kind != MISSING
  {
    hide IsExactZeroLiteral, DV.Value, Trim, IsDecimalNumberLiteral;
    var text := Numeral(raw);
    ZeroAndSignAreExact(text);
    if IsDecimalNumberLiteral(text) { NumbersAreNoWords(text); }
    assert |text| == |Trim(raw)|;
  }

  predicate IsWord(text: string) {
    text in {"", "null", "unknown", "n/a", "na", "not known"}
  }

  lemma WordsAreLetters(text: string)
    requires IsWord(text)
    ensures IsTrimmed(text) && (text == "" || 'a' <= text[0] <= 'z')
  {
  }

  /** A decimal starts, trimmed, with a sign, a point or a digit. */
  lemma NumbersAreNoWords(text: string)
    requires IsDecimalNumberLiteral(text)
    ensures !IsWord(text)
  {
    hide IsLiteralText, Trim, IsWord;
    if IsWord(text) {
      WordsAreLetters(text);
      TrimKeepsTrimmed(text);
      LettersAreNoNumbers(text);
    }
  }

  lemma LettersAreNoNumbers(text: string)
    requires text == "" || 'a' <= text[0] <= 'z'
    ensures !IsLiteralText(text)
  {
    hide IndexWhere;
  }

  // ------------------------------------------------------------------ what a record holds of a cell

  /** The raw text of a row in a column; None is a cell that is not there. */
  function RawOf(r: Staged, column: nat): Option<string> {
    if column < |r.cells| then r.cells[column].raw else None
  }

  /** A cell without a usable value for the field leaves no trace in the record. */
  ghost predicate IsDropped(raw: Option<string>, kind: FieldType, target: string) {
    raw.Some? ==>
      || (SaysNull(raw.value) && target != "value")
      || (SaysUnknown(raw.value) && (target == "currency" || kind == TIMESTAMP_FIELD))
      || (IsBlank(raw.value) && (target in {"currency", "opportunity_id", "prospect_id"} || kind == TIMESTAMP_FIELD))
      || (kind == NUMBER_FIELD && target != "value" && !SaysZero(raw.value) && !SaysNumber(raw.value))
  }

  /** The value v stands for the text of a cell: zero, the same number, null, unknown, or the text itself. */
  ghost predicate StandsFor(v: ImportPlan.Value, raw: string, kind: FieldType) {
    if SaysNull(raw) then v == NullValue
    else if kind != NUMBER_FIELD then v == TextValue(raw)
    else if SaysZero(raw) then v == ZeroValue
    else if SaysNumber(raw) then
      && v.TextValue? && IsDecimalNumberLiteral(v.text) && IsDecimalNumberLiteral(raw)
      && DV.Value(v.text) == DV.Value(raw)
    else if SaysUnknown(raw) then v == TextValue("unknown")
    else v == TextValue(raw)
  }

  lemma CellIsKept(c: Cell, kind: FieldType, target: string)
    requires c.kind == ClassifyCell(c.raw)
    requires kind == NUMBER_FIELD && c.kind == NUMERIC ==>
               c.raw.Some? && IsCanonicalNumericLiteralRepresentable(c.raw.value)
    ensures var v := CellValue(c, kind, Some(target));
            && (v.None? <==> IsDropped(c.raw, kind, target))
            && (v.Some? ==> c.raw.Some? && StandsFor(v.value, c.raw.value, kind))
  {
    hide ClassifyCell, SaysNull, SaysUnknown, IsBlank, SaysZero, SaysNumber, CanonicalizeDecimalLiteral,
      IsDecimalNumberLiteral, DV.Value, IsCanonicalNumericLiteralRepresentable;
    NoTextIsMissing();
    if c.raw.Some? {
      KindsAreExact(c.raw.value);
      KindsExclude(c.raw.value);
      if c.kind == NUMERIC && kind == NUMBER_FIELD {
        NumberIsCanonical(c, target);
        CanonicalKeepsValue(c.raw.value);
      }
    }
  }

  lemma NoTextIsMissing()
    ensures ClassifyCell(None) == MISSING
  {
  }

  lemma KindsExclude(raw: string)
    ensures !(SaysZero(raw) && SaysNumber(raw)) && !(SaysNull(raw) && (SaysUnknown(raw) || IsBlank(raw)))
    ensures SaysZero(raw) || SaysNumber(raw) ==> !SaysNull(raw) && !SaysUnknown(raw) && !IsBlank(raw)
    ensures !(SaysUnknown(raw) && IsBlank(raw))
  {
    hide ClassifyCell, SaysNull, SaysUnknown, IsBlank, SaysZero, SaysNumber;
    KindsAreExact(raw);
  }

  // ------------------------------------------------------------------ what a record holds of its row

  predicate IsMapped(f: Field, target: string) {
    f.target == target && f.column.Some?
  }

  /** Field n is the only one that is mapped to its target. */
  predicate IsOnlySource(fields: seq<Field>, n: nat) {
    && n < |fields| && fields[n].column.Some?
    && forall j | 0 <= j < |fields| && j != n :: !IsMapped(fields[j], fields[n].target)
  }

  /** What the payload says of one target is what its only source says of the cell. */
  lemma {:induction false} PayloadHolds(r: Staged, fields: seq<Field>, n: nat)
    requires IsOnlySource(fields, n)
    ensures var f := fields[n]; var v := CellValue(Evidence(r, f.column.value), f.kind, Some(f.target));
            var p := PayloadOf(r, fields);
            && (f.target in p.fields <==> v.Some?) && (v.Some? ==> p.fields[f.target] == v.value)
  {
    hide CellValue, Evidence;
    var last := |fields| - 1;
    if n < last {
      assert forall j | 0 <= j < last :: fields[..last][j] == fields[j];
      PayloadHolds(r, fields[..last], n);
    } else {
      NothingHeld(r, fields[..last], fields[n].target);
    }
  }

  /** A number field leaves evidence of a number exactly when its cell says zero, a number or unknown. */
  lemma {:induction false} NumbersAreEvidenced(r: Staged, fields: seq<Field>, n: nat)
    requires IsOnlySource(fields, n) && IsClassified(r)
    ensures var f := fields[n]; var raw := RawOf(r, f.column.value); var numbers := PayloadOf(r, fields).numbers;
            && (f.target in numbers <==>
                && f.kind == NUMBER_FIELD && raw.Some?
                && (SaysZero(raw.value) || SaysNumber(raw.value) || SaysUnknown(raw.value)))
            && (f.target in numbers ==>
                  numbers[f.target] ==
                  if SaysNumber(raw.value) then NumericEvidence(CanonicalizeDecimalLiteral(raw.value))
                  else KindEvidence(if SaysZero(raw.value) then ValueKind.KNOWN_ZERO else ValueKind.UNKNOWN))
  {
    hide CellValue, ClassifyCell, SaysNull, SaysUnknown, IsBlank, SaysZero, SaysNumber, CanonicalizeDecimalLiteral;
    var last := |fields| - 1;
    if n < last {
      assert forall j | 0 <= j < last :: fields[..last][j] == fields[j];
      NumbersAreEvidenced(r, fields[..last], n);
    } else {
      NothingHeld(r, fields[..last], fields[n].target);
      NoTextIsMissing();
      var raw := RawOf(r, fields[n].column.value);
      if raw.Some? {
        KindsAreExact(raw.value);
        KindsExclude(raw.value);
      }
    }
  }

  lemma {:induction false} NothingHeld(r: Staged, fields: seq<Field>, target: string)
    requires forall j | 0 <= j < |fields| :: !IsMapped(fields[j], target)
    ensures target !in PayloadOf(r, fields).fields && target !in PayloadOf(r, fields).numbers
  {
    hide CellValue, Evidence;
    if fields != [] {
      var last := |fields| - 1;
      assert forall j | 0 <= j < last :: fields[..last][j] == fields[j];
      NothingHeld(r, fields[..last], target);
      assert !IsMapped(fields[last], target);
    }
  }

  /** The identity and the payload of a row of a ready plan. */
  lemma PlannedRow(batchId: string, records: seq<Staged>, m: Mapping, isTimestamp: string -> bool, k: nat)
    requires BuildPlan(batchId, records, m, isTimestamp).Ready? && k < |records|
    ensures var rows := BuildPlan(batchId, records, m, isTimestamp).rows;
            && |rows| == |records| && rows[k].payload == PayloadOf(records[k], m.fields)
            && rows[k].identity == SourceIdentity(records[k], m) && rows[k].identity.Some?
            && Trim(rows[k].identity.value) != "" && rows[k].cells == records[k].cells
            && rows[k].ordinal == records[k].ordinal
  {
    hide BuildPlan, PreparedErrors, SourceIdentity, PayloadOf, DisposedAt, ConflictAt, Agree, IsInvalid, Trim;
    ReadyRows(batchId, records, m, isTimestamp);
    var rows := PreparedRows(records, m, isTimestamp);
    DispositionOf(rows, k);
    assert rows[k] in rows;
    OnlyDuplicateIssues(rows[k]);
  }

  lemma NumericIsUsable(batchId: string, records: seq<Staged>, m: Mapping, isTimestamp: string -> bool, k: nat, n: nat)
    requires BuildPlan(batchId, records, m, isTimestamp).Ready? && k < |records|
    requires n < |m.fields| && m.fields[n].column.Some? && m.fields[n].kind == NUMBER_FIELD
    requires var c := Evidence(records[k], m.fields[n].column.value); c.kind == NUMERIC && c.raw.Some?
    ensures IsCanonicalNumericLiteralRepresentable(Evidence(records[k], m.fields[n].column.value).raw.value)
  {
    hide BuildPlan, FieldErrors, IsCanonicalNumericLiteralRepresentable, OwnErrors;
    ReadyRowIsClean(batchId, records, m, isTimestamp, k);
    CleanFieldHasNoErrors(records[k], m, isTimestamp, n);
    NumberIsRepresentable(Evidence(records[k], m.fields[n].column.value), m.fields[n], m.collection, isTimestamp);
  }

  // ------------------------------------------------------------------ main results

  /**
   * The content of a ready plan. The record of every row holds the target of a mapped field exactly when the cell has a
   * usable value for it, and then a value that stands for the cell; and it holds no target that is not mapped.
   */
  lemma RecordsHoldTheirCells(batchId: string, records: seq<Staged>, m: Mapping, isTimestamp: string -> bool, k: nat,
                              n: nat)
    requires BuildPlan(batchId, records, m, isTimestamp).Ready? && forall r | r in records :: IsClassified(r)
    requires k < |records| && IsOnlySource(m.fields, n)
    ensures var rows := BuildPlan(batchId, records, m, isTimestamp).rows;
            k < |rows|
            && var held := rows[k].payload.fields;
               var f := m.fields[n];
               var raw := RawOf(records[k], f.column.value);
               && (f.target in held <==> !IsDropped(raw, f.kind, f.target))
               && (f.target in held ==> raw.Some? && StandsFor(held[f.target], raw.value, f.kind))
               && forall target | target in held :: exists j | 0 <= j < |m.fields| :: IsMapped(m.fields[j], target)
  {
    hide BuildPlan, PayloadOf, IsDropped, StandsFor, CellValue, IsCanonicalNumericLiteralRepresentable, ClassifyCell;
    PlannedRow(batchId, records, m, isTimestamp, k);
    var f := m.fields[n];
    var c := Evidence(records[k], f.column.value);
    assert IsClassified(records[k]);
    NoTextIsMissing();
    if f.kind == NUMBER_FIELD && c.kind == NUMERIC {
      NumericIsUsable(batchId, records, m, isTimestamp, k, n);
    }
    CellIsKept(c, f.kind, f.target);
    PayloadHolds(records[k], m.fields, n);
    var held := PayloadOf(records[k], m.fields).fields;
    forall target | target in held ensures exists j | 0 <= j < |m.fields| :: IsMapped(m.fields[j], target) {
      if !exists j | 0 <= j < |m.fields| :: IsMapped(m.fields[j], target) {
        NothingHeld(records[k], m.fields, target);
      }
    }
  }

  lemma UsableIdentity(r: PlanRow)
    requires !IsInvalid(r)
    ensures r.identity.Some? && ByteLength(r.identity.value) <= 512
  {
    hide ByteLength, Trim;
  }

  /** A row of a ready plan is known by the raw text of its identity cell, which says something. */
  lemma RowsKeepTheirIdentity(batchId: string, records: seq<Staged>, m: Mapping, isTimestamp: string -> bool, k: nat)
    requires BuildPlan(batchId, records, m, isTimestamp).Ready? && forall r | r in records :: IsClassified(r)
    requires k < |records|
    ensures var rows := BuildPlan(batchId, records, m, isTimestamp).rows;
            var raw := RawOf(records[k], m.identityColumn);
            && k < |rows| && raw.Some? && rows[k].identity == raw && rows[k].ordinal == records[k].ordinal
            && !IsBlank(raw.value) && !SaysNull(raw.value) && !SaysUnknown(raw.value)
            && ByteLength(raw.value) <= 512
  {
    hide BuildPlan, Trim, ByteLength, ClassifyCell, PayloadOf, IsInvalid, SaysNull, SaysUnknown, IsBlank, SaysZero,
      SaysNumber, SourceIdentity, PreparedErrors, Agree, ConflictAt, AllDisposed;
    PlannedRow(batchId, records, m, isTimestamp, k);
    ReadyRows(batchId, records, m, isTimestamp);
    var rows := PreparedRows(records, m, isTimestamp);
    assert rows[k] in rows;
    UsableIdentity(rows[k]);
    IdentitiesOfReady(records, m, isTimestamp);
    assert IsClassified(records[k]);
    NoTextIsMissing();
    var raw := RawOf(records[k], m.identityColumn);
    if raw.Some? { KindsAreExact(raw.value); }
  }
}

/** Conservation in import plans: who is committed, who is skipped, and that the facts add up. */
module ImportTheorems {
  import opened Text
  import opened Lists
  import opened NumericEvidence
  import DV = DecimalValue
  import opened DecimalPrinting
  import opened Csv
  import opened ImportRows
  import opened ImportPlan
  import opened PilotEvidence

  // ------------------------------------------------------------------ counting

  lemma {:induction false} CountsAgree<T, U>(s: seq<T>, t: seq<U>, p: T -> bool, q: U -> bool)
    requires |s| == |t| && forall k | 0 <= k < |s| :: p(s[k]) == q(t[k])
    ensures Count(s, p) == Count(t, q)
  {
    if s != [] {
      var n := |s| - 1;
      CountsAgree(s[..n], t[..n], p, q);
      assert s == s[..n] + [s[n]] && t == t[..n] + [t[n]];
      CountAppend(s[..n], s[n], p);
      CountAppend(t[..n], t[n], q);
    }
  }

  lemma {:induction false} CountsPartition<T>(s: seq<T>, p: T -> bool, q: T -> bool)
    requires forall x | x in s :: p(x) != q(x)
    ensures Count(s, p) + Count(s, q) == |s|
  {
    if s != [] {
      var n := |s| - 1;
      assert s[n] in s && forall x | x in s[..n] :: x in s;
      CountsPartition(s[..n], p, q);
      assert s == s[..n] + [s[n]];
      CountAppend(s[..n], s[n], p);
      CountAppend(s[..n], s[n], q);
    }
  }

  // ------------------------------------------------------------------ the shape of a ready plan

  lemma {:induction false} ConflictsListAll(rows: seq<PlanRow>, n: nat)
    requires n <= |rows|
    ensures Conflicts(rows, n) == [] <==> forall k | 0 <= k < n :: ConflictAt(rows, k).None?
  {
    hide ConflictAt;
    if n > 0 { ConflictsListAll(rows, n - 1); }
  }

  /** Rows of one identity agree in payload and cells. */
  predicate Agree(rows: seq<PlanRow>) {
    forall j, k | 0 <= j < k < |rows| && rows[j].identity == rows[k].identity ::
      rows[j].payload == rows[k].payload && rows[j].cells == rows[k].cells
  }

  /** No conflict is raised exactly when all rows of an identity agree, not only with the first one. */
  lemma NoConflictsMeansAgreement(rows: seq<PlanRow>)
    ensures Conflicts(rows, |rows|) == [] <==> Agree(rows)
  {
    hide FirstOf;
    ConflictsListAll(rows, |rows|);
    if forall k | 0 <= k < |rows| :: ConflictAt(rows, k).None? {
      forall j, k | 0 <= j < k < |rows| && rows[j].identity == rows[k].identity
        ensures rows[j].payload == rows[k].payload && rows[j].cells == rows[k].cells
      {
        SameFirst(rows, j, k);
        assert ConflictAt(rows, j).None? && ConflictAt(rows, k).None?;
      }
    }
    if Agree(rows) {
      forall k | 0 <= k < |rows| ensures ConflictAt(rows, k).None? {
        assert FirstOf(rows, k) <= k;
      }
    }
  }

  /** Row k differs from row j, the first one of its identity, in what it carries or only in its cells. */
  predicate IsConflictOf(rows: seq<PlanRow>, j: nat, k: nat, c: Conflict) {
    && j < k < |rows| && rows[j].identity == rows[k].identity
    && (forall i | 0 <= i < j :: rows[i].identity != rows[j].identity)
    && (rows[j].payload != rows[k].payload || rows[j].cells != rows[k].cells)
    && c.identity == rows[k].identity && c.first == rows[j].ordinal && c.second == rows[k].ordinal
    && c.code == if rows[j].payload != rows[k].payload then SOURCE_IDENTITY_PAYLOAD_CONFLICT
                 else SOURCE_IDENTITY_EVIDENCE_CONFLICT
  }

  /** The conflicts listed are exactly those of a row with the first row of its identity, each told by its kind. */
  lemma {:induction false} ConflictsAreListed(rows: seq<PlanRow>, n: nat, c: Conflict)
    requires n <= |rows|
    ensures c in Conflicts(rows, n) <==> exists j, k | 0 <= j < k < n :: IsConflictOf(rows, j, k, c)
  {
    hide FirstOf, IsConflictOf, ConflictAt;
    if n > 0 {
      ConflictsAreListed(rows, n - 1, c);
      ConflictIsTold(rows, n - 1, c);
    }
  }

  lemma ConflictIsTold(rows: seq<PlanRow>, k: nat, c: Conflict)
    requires k < |rows|
    ensures ConflictAt(rows, k) == Some(c) <==> exists j | 0 <= j < k :: IsConflictOf(rows, j, k, c)
  {
    hide FirstIndex;
    var f := FirstOf(rows, k);
    if ConflictAt(rows, k) == Some(c) { assert IsConflictOf(rows, f, k, c); }
    forall j | 0 <= j < k && IsConflictOf(rows, j, k, c) ensures j == f && ConflictAt(rows, k) == Some(c) {
    }
  }

  lemma SameFirst(rows: seq<PlanRow>, j: nat, k: nat)
    requires j < |rows| && k < |rows| && rows[j].identity == rows[k].identity
    ensures FirstOf(rows, j) == FirstOf(rows, k)
  {
    hide FirstIndex;
  }

  /**
   * When a plan is ready: exactly when no row blocks it on its own account and all rows that share a source
   * identity carry the same payload and the same cells.
   */
  lemma ReadyExactlyWhen(batchId: string, records: seq<Staged>, m: Mapping, isTimestamp: string -> bool)
    ensures BuildPlan(batchId, records, m, isTimestamp).Ready? <==>
            var rows := PreparedRows(records, m, isTimestamp);
            (forall r | r in rows :: !IsInvalid(r)) && Agree(rows)
  {
    hide IsInvalid, Conflicts, HealthOf, AllDisposed, PreparedRows, Agree;
    NoConflictsMeansAgreement(PreparedRows(records, m, isTimestamp));
  }

  /** What is known of the rows of a ready plan. */
  lemma ReadyRows(batchId: string, records: seq<Staged>, m: Mapping, isTimestamp: string -> bool)
    requires BuildPlan(batchId, records, m, isTimestamp).Ready?
    ensures var rows := PreparedRows(records, m, isTimestamp);
            var plan := BuildPlan(batchId, records, m, isTimestamp);
            && plan.rows == AllDisposed(rows) && Agree(rows)
            && (forall r | r in rows :: !IsInvalid(r))
            && (forall k | 0 <= k < |rows| :: ConflictAt(rows, k).None?)
            && plan.summary == Summarize(plan.rows)
            && plan.facts == FactsOf(batchId, m.collection, |records|, HealthOf(records, m, isTimestamp), plan.summary)
  {
    hide IsInvalid, HealthOf, AllDisposed, PreparedRows, Agree, ConflictAt, Conflicts;
    var rows := PreparedRows(records, m, isTimestamp);
    ConflictsListAll(rows, |rows|);
    NoConflictsMeansAgreement(rows);
  }

  lemma DispositionOf(rows: seq<PlanRow>, k: nat)
    requires k < |rows| && ConflictAt(rows, k).None? && rows[k].disposition == COMMITTED
    ensures var d := DisposedAt(rows, k); var f := FirstOf(rows, k);
            && d.identity == rows[k].identity && d.payload == rows[k].payload && d.cells == rows[k].cells
            && d.ordinal == rows[k].ordinal
            && (f == k ==> d.disposition == COMMITTED && d == rows[k])
            && (f != k ==> d.disposition == EXACT_DUPLICATE && !d.hasRecord && d.duplicateOf == Some(rows[f].ordinal))
  {
    hide FirstOf;
  }

  /**
   * Conservation of identities: in a ready plan every row's identity has exactly one committed row, the first
   * one; every other row is an exact duplicate that points to it and equals it in payload and cells.
   */
  lemma EveryIdentityIsCommittedOnce(batchId: string, records: seq<Staged>, m: Mapping, isTimestamp: string -> bool,
                                     k: nat)
    returns (f: nat)
    requires BuildPlan(batchId, records, m, isTimestamp).Ready? && k < |records|
    ensures var rows := BuildPlan(batchId, records, m, isTimestamp).rows;
            && |rows| == |records| && f <= k
            && rows[f].identity == rows[k].identity && rows[f].disposition == COMMITTED && rows[f].hasRecord
            && rows[f].payload == rows[k].payload && rows[f].cells == rows[k].cells
            && (forall j | 0 <= j < |rows| && rows[j].identity == rows[k].identity ::
                  rows[j].disposition == COMMITTED <==> j == f)
            && (k != f ==> rows[k].disposition == EXACT_DUPLICATE && rows[k].duplicateOf == Some(rows[f].ordinal))
  {
    hide FirstOf, HealthOf, ErrorsAt, BuildPlan, IsInvalid, PayloadOf, SourceIdentity;
    ReadyRows(batchId, records, m, isTimestamp);
    var rows := PreparedRows(records, m, isTimestamp);
    f := FirstOf(rows, k);
    SameFirst(rows, f, k);
    forall j | 0 <= j < |rows| ensures ConflictAt(rows, j).None? && rows[j].disposition == COMMITTED {
    }
    DispositionOf(rows, f);
    DispositionOf(rows, k);
    forall j | 0 <= j < |rows| && rows[j].identity == rows[k].identity
      ensures DisposedAt(rows, j).disposition == COMMITTED <==> j == f
    {
      SameFirst(rows, j, k);
      DispositionOf(rows, j);
    }
  }

  // ------------------------------------------------------------------ the counts

  lemma DispositionsPartition(rows: seq<PlanRow>)
    requires forall k | 0 <= k < |rows| :: rows[k].disposition == COMMITTED && ConflictAt(rows, k).None?
    ensures var s := Summarize(AllDisposed(rows)); s.committed + s.skipped == s.total == |rows|
  {
    hide Count, FirstOf, ConflictAt, DisposedAt;
    var d := AllDisposed(rows);
    forall r | r in d ensures HasDisposition(COMMITTED)(r) != HasDisposition(EXACT_DUPLICATE)(r) {
      var k :| 0 <= k < |d| && d[k] == r;
      DispositionOf(rows, k);
    }
    CountsPartition(d, HasDisposition(COMMITTED), HasDisposition(EXACT_DUPLICATE));
  }

  /** Where an identity is usable, the validation and the plan read the same one. */
  lemma IdentitiesMatch(r: Staged, m: Mapping)
    requires SourceIdentity(r, m).Some? && Trim(SourceIdentity(r, m).value) != ""
    requires Evidence(r, m.identityColumn).kind != ValueKind.UNKNOWN
    requires IsClassified(r)
    ensures IdentityOf(r, m) == SourceIdentity(r, m)
  {
    hide Trim, ClassifyCell;
    var c := Evidence(r, m.identityColumn);
    if m.identityColumn < |r.cells| && c.kind == BLANK { BlankIsBlank(c); }
  }

  /** The kinds of the cells are those of the parser. */
  predicate IsClassified(r: Staged) {
    forall i | 0 <= i < |r.cells| :: r.cells[i].kind == ClassifyCell(r.cells[i].raw)
  }

  lemma BlankIsBlank(c: Cell)
    requires c.kind == ClassifyCell(c.raw) && c.kind == BLANK
    ensures c.raw.Some? && Trim(c.raw.value) == ""
  {
    hide Trim;
    assert |ToLower(Trim(c.raw.value))| == |Trim(c.raw.value)|;
  }

  lemma OnlyDuplicateIssues(r: PlanRow)
    requires !IsInvalid(r)
    ensures forall i | i in r.errors :: IsDuplicateIssue(i)
    ensures r.identity.Some? && Trim(r.identity.value) != ""
  {
    hide Trim, ByteLength;
  }

  /** In a ready plan a row has errors exactly when it repeats an earlier identity, which makes it a duplicate. */
  lemma ErrorsMeanDuplicate(records: seq<Staged>, m: Mapping, isTimestamp: string -> bool, k: nat)
    requires k < |records| && forall r | r in records :: IsClassified(r)
    requires forall r | r in PreparedRows(records, m, isTimestamp) :: !IsInvalid(r)
    ensures var rows := PreparedRows(records, m, isTimestamp);
            var errors := ErrorsAt(records, m, isTimestamp, k);
            && (HasErrors(errors) <==> FirstOf(rows, k) != k)
            && (HasDuplicateIssue(errors) <==> FirstOf(rows, k) != k)
  {
    hide OwnErrors, IsInvalid, SourceIdentity, PayloadOf, FirstOf, IdentityOf, IsClassified;
    var rows := PreparedRows(records, m, isTimestamp);
    var errors := ErrorsAt(records, m, isTimestamp, k);
    assert rows[k] in rows;
    OnlyDuplicateIssues(rows[k]);
    forall i | i in errors ensures IsDuplicateIssue(i) {
      assert i in rows[k].errors;
    }
    IdentitiesOfReady(records, m, isTimestamp);
    RepeatsMeanDuplicate(records, m, isTimestamp, k);
    OwnErrorsAreNone(records, m, isTimestamp, k);
    DuplicateErrors(errors, RepeatsIdentity(records, m, k), RepeatsCells(records, k));
  }

  lemma DuplicateErrors(errors: seq<Issue>, identity: bool, cells: bool)
    requires errors == [] + When(identity, DUPLICATE_SOURCE_ID) + When(cells, EXACT_REPEATED_SOURCE_ROW)
    ensures HasErrors(errors) <==> identity || cells
    ensures HasDuplicateIssue(errors) <==> identity || cells
  {
    if identity || cells { assert errors[0] in errors && IsDuplicateIssue(errors[0]); }
  }

  /** A valid row has no error of its own: each would be of another kind than a duplicate. */
  lemma OwnErrorsAreNone(records: seq<Staged>, m: Mapping, isTimestamp: string -> bool, k: nat)
    requires k < |records| && forall i | i in ErrorsAt(records, m, isTimestamp, k) :: IsDuplicateIssue(i)
    ensures OwnErrors(records[k], m, isTimestamp) == []
  {
    hide OwnErrors, RepeatsIdentity, RepeatsCells;
    var own := OwnErrors(records[k], m, isTimestamp);
    OwnIssues(records[k], m, isTimestamp);
    assert forall i | i in own :: i in ErrorsAt(records, m, isTimestamp, k);
    EndsAreMembers(own);
  }

  lemma {:induction false} FieldIssues(r: Staged, fields: seq<Field>, collection: Collection,
                                       isTimestamp: string -> bool)
    ensures forall i | i in ErrorsOfFields(r, fields, collection, isTimestamp) :: !IsDuplicateIssue(i)
  {
    hide FieldErrors;
    if fields != [] {
      var f := fields[|fields| - 1];
      FieldIssues(r, fields[..|fields| - 1], collection, isTimestamp);
      if f.column.Some? { OneFieldIssues(Evidence(r, f.column.value), f, collection, isTimestamp); }
    }
  }

  lemma OneFieldIssues(c: Cell, f: Field, collection: Collection, isTimestamp: string -> bool)
    ensures forall i | i in FieldErrors(c, f, collection, isTimestamp) :: !IsDuplicateIssue(i)
  {
  }

  lemma OwnIssues(r: Staged, m: Mapping, isTimestamp: string -> bool)
    ensures forall i | i in OwnErrors(r, m, isTimestamp) :: !IsDuplicateIssue(i)
  {
    hide ErrorsOfFields, EvidenceOf;
    FieldIssues(r, m.fields, m.collection, isTimestamp);
  }

  lemma UnknownIsNoted(records: seq<Staged>, m: Mapping, isTimestamp: string -> bool, k: nat)
    requires k < |records| && forall i | i in PreparedErrors(records, m, isTimestamp, k) :: IsDuplicateIssue(i)
    ensures Evidence(records[k], m.identityColumn).kind != ValueKind.UNKNOWN
  {
    hide ErrorsAt;
    var errors := PreparedErrors(records, m, isTimestamp, k);
    EndsAreMembers(errors);
  }

  lemma EndsAreMembers(errors: seq<Issue>)
    ensures errors != [] ==> errors[0] in errors && errors[|errors| - 1] in errors
  {
  }

  lemma IdentitiesOfReady(records: seq<Staged>, m: Mapping, isTimestamp: string -> bool)
    requires forall r | r in records :: IsClassified(r)
    requires forall r | r in PreparedRows(records, m, isTimestamp) :: !IsInvalid(r)
    ensures forall k | 0 <= k < |records| ::
              IdentityOf(records[k], m).Some? && IdentityOf(records[k], m) == SourceIdentity(records[k], m)
  {
    hide ErrorsAt, IsInvalid, SourceIdentity, PayloadOf, IdentityOf, IsClassified, Trim;
    var rows := PreparedRows(records, m, isTimestamp);
    forall k | 0 <= k < |records|
      ensures IdentityOf(records[k], m).Some? && IdentityOf(records[k], m) == SourceIdentity(records[k], m)
    {
      assert rows[k] in rows && records[k] in records;
      OnlyDuplicateIssues(rows[k]);
      UnknownIsNoted(records, m, isTimestamp, k);
      IdentitiesMatch(records[k], m);
    }
  }

  /** Repeating an identity, or the whole cells, is not being the first row of the identity. */
  lemma RepeatsMeanDuplicate(records: seq<Staged>, m: Mapping, isTimestamp: string -> bool, k: nat)
    requires k < |records|
    requires forall i | 0 <= i < |records| ::
               IdentityOf(records[i], m).Some? && IdentityOf(records[i], m) == SourceIdentity(records[i], m)
    ensures RepeatsIdentity(records, m, k) <==> FirstOf(PreparedRows(records, m, isTimestamp), k) != k
    ensures RepeatsCells(records, k) ==> RepeatsIdentity(records, m, k)
  {
    hide ErrorsAt, SourceIdentity, PayloadOf, IdentityOf, FirstOf;
    var rows := PreparedRows(records, m, isTimestamp);
    var f := FirstOf(rows, k);
    if f != k { assert IdentityOf(records[f], m) == IdentityOf(records[k], m); }
    if RepeatsIdentity(records, m, k) {
      var i :| 0 <= i < k && IdentityOf(records[i], m) == IdentityOf(records[k], m);
      assert rows[i].identity == rows[k].identity;
    }
    if RepeatsCells(records, k) {
      var i :| 0 <= i < k && records[i].cells == records[k].cells;
      CellsTellIdentity(records[i], records[k], m);
    }
  }

  lemma CellsTellIdentity(a: Staged, b: Staged, m: Mapping)
    requires a.cells == b.cells
    ensures IdentityOf(a, m) == IdentityOf(b, m)
  {
  }

  // ------------------------------------------------------------------ main results

  /** Rows with errors, rows with duplicate errors and skipped rows are the same rows of a ready plan. */
  lemma ErrorCountsAreSkipped(batchId: string, records: seq<Staged>, m: Mapping, isTimestamp: string -> bool)
    requires BuildPlan(batchId, records, m, isTimestamp).Ready? && forall r | r in records :: IsClassified(r)
    ensures var errors := AllErrors(records, m, isTimestamp);
            var skipped := BuildPlan(batchId, records, m, isTimestamp).summary.skipped;
            Count(errors, HasErrorsOf()) == skipped && Count(errors, HasDuplicateOf()) == skipped
  {
    hide Count, ErrorsAt, BuildPlan, IsInvalid, FirstOf, ConflictAt, DisposedAt, HealthOf, IsClassified, PayloadOf,
      SourceIdentity, HasErrors, HasDuplicateIssue;
    ReadyRows(batchId, records, m, isTimestamp);
    var rows := PreparedRows(records, m, isTimestamp);
    var d := AllDisposed(rows);
    var errors := AllErrors(records, m, isTimestamp);
    forall k | 0 <= k < |records|
      ensures HasErrorsOf()(errors[k]) == HasDisposition(EXACT_DUPLICATE)(d[k])
      ensures HasDuplicateOf()(errors[k]) == HasDisposition(EXACT_DUPLICATE)(d[k])
    {
      ErrorsMeanDuplicate(records, m, isTimestamp, k);
      DispositionOf(rows, k);
    }
    CountsAgree(errors, d, HasErrorsOf(), HasDisposition(EXACT_DUPLICATE));
    CountsAgree(errors, d, HasDuplicateOf(), HasDisposition(EXACT_DUPLICATE));
  }

  /**
   * Conservation of a ready plan: committed and skipped rows make up the total, no row is blocked for quality,
   * the quality conflicts are the skipped rows, and the evidence log accepts the facts of every batch id and every
   * number of rows that it can hold.
   */
  lemma ReadyPlanConserves(batchId: string, records: seq<Staged>, m: Mapping, isTimestamp: string -> bool)
    requires BuildPlan(batchId, records, m, isTimestamp).Ready? && forall r | r in records :: IsClassified(r)
    ensures var plan := BuildPlan(batchId, records, m, isTimestamp);
            && plan.summary.committed + plan.summary.skipped == plan.summary.total == |records|
            && plan.facts.blocked == 0 && plan.facts.conflicts == plan.summary.skipped
            && (AreValidFacts(plan.facts) <==> IsEvidenceText(batchId, 200) && |records| <= COUNT_MAX)
  {
    hide Count, ErrorsAt, BuildPlan, IsInvalid, FirstOf, ConflictAt, DisposedAt, IsClassified, PayloadOf,
      SourceIdentity, IsEvidenceText, CoveredBy, InvalidIn, MissingIn, ContactableBy, ColumnOf;
    ReadyRows(batchId, records, m, isTimestamp);
    var rows := PreparedRows(records, m, isTimestamp);
    DispositionsPartition(rows);
    ErrorCountsAreSkipped(batchId, records, m, isTimestamp);
    var created := ColumnOf(m.fields, "created_at");
    var updated := ColumnOf(m.fields, "updated_at");
    CountAtMost(records, CoveredBy(Some(m.identityColumn), IDENTITY, isTimestamp));
    CountAtMost(records, CoveredBy(created, TIMESTAMP_COVERAGE, isTimestamp));
    CountAtMost(records, InvalidIn(created, TIMESTAMP_COVERAGE, isTimestamp));
    CountAtMost(records, CoveredBy(updated, TIMESTAMP_COVERAGE, isTimestamp));
    CountAtMost(records, InvalidIn(updated, TIMESTAMP_COVERAGE, isTimestamp));
    CountAtMost(records, MissingIn(ColumnOf(m.fields, "value")));
    CountAtMost(records, MissingIn(ColumnOf(m.fields, "stage")));
    CountAtMost(records, ContactableBy([ColumnOf(m.fields, "email"), ColumnOf(m.fields, "phone"),
                                        ColumnOf(m.fields, "website")]));
  }

  /**
   * Numbers keep their value: in a ready plan every numeric cell that is mapped to a number field was found
   * representable, so that the canonical text put in its place denotes the same rational.
   */
  lemma NumbersKeepTheirValue(batchId: string, records: seq<Staged>, m: Mapping, isTimestamp: string -> bool, k: nat,
                              n: nat)
    requires BuildPlan(batchId, records, m, isTimestamp).Ready? && k < |records| && n < |m.fields|
    requires m.fields[n].kind == NUMBER_FIELD && m.fields[n].column.Some?
    requires Evidence(records[k], m.fields[n].column.value).kind == NUMERIC
    requires Evidence(records[k], m.fields[n].column.value).raw.Some?
    ensures var c := Evidence(records[k], m.fields[n].column.value);
            var v := CellValue(c, NUMBER_FIELD, Some(m.fields[n].target));
            && v.Some? && v.value.TextValue?
            && IsDecimalNumberLiteral(v.value.text) && IsDecimalNumberLiteral(c.raw.value)
            && DV.Value(v.value.text) == DV.Value(c.raw.value)
  {
    hide BuildPlan, PreparedRows, OwnErrors, CellValue, FieldErrors, IsDecimalNumberLiteral, DV.Value,
      CanonicalizeDecimalLiteral, IsCanonicalNumericLiteralRepresentable, ErrorsAt;
    var c := Evidence(records[k], m.fields[n].column.value);
    ReadyRowIsClean(batchId, records, m, isTimestamp, k);
    CleanFieldHasNoErrors(records[k], m, isTimestamp, n);
    NumberIsRepresentable(c, m.fields[n], m.collection, isTimestamp);
    NumberIsCanonical(c, m.fields[n].target);
    CanonicalKeepsValue(c.raw.value);
  }

  lemma ReadyRowIsClean(batchId: string, records: seq<Staged>, m: Mapping, isTimestamp: string -> bool, k: nat)
    requires BuildPlan(batchId, records, m, isTimestamp).Ready? && k < |records|
    ensures OwnErrors(records[k], m, isTimestamp) == []
  {
    hide BuildPlan, OwnErrors, AllDisposed, Agree, HealthOf, Summarize, FactsOf, ErrorsAt;
    ReadyRows(batchId, records, m, isTimestamp);
    var rows := PreparedRows(records, m, isTimestamp);
    assert rows[k] in rows;
    OnlyDuplicateIssues(rows[k]);
    forall i | i in ErrorsAt(records, m, isTimestamp, k) ensures IsDuplicateIssue(i) {
      assert i in rows[k].errors;
    }
    OwnErrorsAreNone(records, m, isTimestamp, k);
  }

  lemma CleanFieldHasNoErrors(r: Staged, m: Mapping, isTimestamp: string -> bool, n: nat)
    requires OwnErrors(r, m, isTimestamp) == [] && n < |m.fields| && m.fields[n].column.Some?
    ensures FieldErrors(Evidence(r, m.fields[n].column.value), m.fields[n], m.collection, isTimestamp) == []
  {
    hide FieldErrors, CompletionErrors;
    ErrorsInclude(r, m.fields, m.collection, isTimestamp, n);
  }

  lemma {:induction false} ErrorsInclude(r: Staged, fields: seq<Field>, collection: Collection,
                                         isTimestamp: string -> bool, n: nat)
    requires ErrorsOfFields(r, fields, collection, isTimestamp) == [] && n < |fields| && fields[n].column.Some?
    ensures FieldErrors(Evidence(r, fields[n].column.value), fields[n], collection, isTimestamp) == []
  {
    hide FieldErrors;
    if n < |fields| - 1 { ErrorsInclude(r, fields[..|fields| - 1], collection, isTimestamp, n); }
  }

  lemma NumberIsRepresentable(c: Cell, f: Field, collection: Collection, isTimestamp: string -> bool)
    requires FieldErrors(c, f, collection, isTimestamp) == [] && f.kind == NUMBER_FIELD && c.kind == NUMERIC
             && c.raw.Some?
    ensures IsCanonicalNumericLiteralRepresentable(c.raw.value)
  {
    hide IsCanonicalNumericLiteralRepresentable;
  }

  lemma NumberIsCanonical(c: Cell, target: string)
    requires c.kind == NUMERIC && c.raw.Some? && IsCanonicalNumericLiteralRepresentable(c.raw.value)
    ensures CanonicalizeDecimalLiteral(c.raw.value).Some?
    ensures CellValue(c, NUMBER_FIELD, Some(target)) == Some(TextValue(CanonicalizeDecimalLiteral(c.raw.value).value))
  {
    hide PlainText, NormalizeDecimalLiteral;
  }

  /** A blocked plan commits and skips nothing and counts every row under its outcome. */
  lemma BlockedPlanConserves(batchId: string, records: seq<Staged>, m: Mapping, isTimestamp: string -> bool)
    requires !BuildPlan(batchId, records, m, isTimestamp).Ready?
    ensures var plan := BuildPlan(batchId, records, m, isTimestamp);
            && plan.summary.total == |records| == plan.summary.conflicted + plan.summary.failed
            && plan.summary.committed == 0 && plan.summary.skipped == 0
            && (forall r | r in plan.rows ::
                  !r.hasRecord && r.disposition == if plan.Failed? then BLOCKED_FAILED else BLOCKED_CONFLICTED)
            && (plan.Conflicted? ==> plan.conflicts != [])
  {
    hide IsInvalid, Conflicts, HealthOf, Prepared;
  }

  lemma {:induction false} WidenedAreClassified(records: Table, columns: nat)
    ensures forall cells | cells in WidenAll(records, columns) :: IsClassified(Staged(0, cells))
  {
    hide ClassifyCell;
    if records != [] {
      WidenedAreClassified(records[1..], columns);
      assert WidenAll(records, columns) == [Cells(records[0], columns)] + WidenAll(records[1..], columns);
    }
  }

  /** The rows that the CSV parser delivers carry the kinds the plan relies on. */
  lemma ParsedRowsAreClassified(text: string)
    requires ParseUpload(text).Ok?
    ensures forall cells | cells in ParseUpload(text).value.rows :: IsClassified(Staged(0, cells))
  {
    hide Resume, WidenAll, HeaderProblem, IsClassified;
    var parsed := Resume(text, START).value;
    WidenedAreClassified(parsed[1..], |parsed[0]|);
  }
}

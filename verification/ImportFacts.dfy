/** What the counted facts of a commit count, told from the raw cells. */
module ImportFacts {
  import opened Text
  import opened Lists
  import PE = PilotEvidence
  import opened Csv
  import opened ImportRows
  import opened ImportPlan
  import opened ImportTheorems
  import opened ImportRecords
  import opened ImportIssues

  /** Rows that say something under one of the names. */
  function SaysUnder(fields: seq<Field>, targets: seq<string>): Staged -> bool {
    (r: Staged) => exists t | t in targets :: !SaysNothing(TextUnder(r, fields, t))
  }

  /** Rows whose cell under the name is there and neither blank nor null; an unknown value is a value. */
  function HoldsUnder(fields: seq<Field>, target: string): Staged -> bool {
    (r: Staged) =>
      var text := TextUnder(r, fields, target);
      text.Some? && !IsBlank(text.value) && !SaysNull(text.value)
  }

  /** Rows that say something under the name that is, or is not, a timestamp. */
  function TimeUnder(fields: seq<Field>, target: string, isTimestamp: string -> bool, good: bool): Staged -> bool {
    (r: Staged) =>
      var text := TextUnder(r, fields, target);
      !SaysNothing(text) && isTimestamp(text.value) == good
  }

  lemma TextOfColumn(r: Staged, fields: seq<Field>, target: string)
    requires IsClassified(r)
    ensures var column := ColumnOf(fields, target); var text := TextUnder(r, fields, target);
            && (column.None? ==> text.None?)
            && (column.Some? ==> Evidence(r, column.value).raw == text)
            && (column.Some? ==> (IsAbsent(Evidence(r, column.value)) <==> SaysNothing(text)))
            && (column.Some? ==>
                  (Evidence(r, column.value).kind in {MISSING, BLANK, NULL} <==>
                   text.None? || IsBlank(text.value) || SaysNull(text.value)))
  {
    hide FirstIndex, ClassifyCell, SaysNull, SaysUnknown, IsBlank, SaysZero, SaysNumber;
    NoTextIsMissing();
    var text := TextUnder(r, fields, target);
    if text.Some? { KindsAreExact(text.value); }
  }

  lemma PresentIsNoBlank(text: Option<string>)
    requires !SaysNothing(text)
    ensures Trim(text.value) != ""
  {
  }

  lemma TimesAgree(r: Staged, fields: seq<Field>, target: string, isTimestamp: string -> bool)
    requires IsClassified(r)
    ensures var column := ColumnOf(fields, target);
            && CoveredBy(column, TIMESTAMP_COVERAGE, isTimestamp)(r) == TimeUnder(fields, target, isTimestamp, true)(r)
            && InvalidIn(column, TIMESTAMP_COVERAGE, isTimestamp)(r) == TimeUnder(fields, target, isTimestamp, false)(r)
  {
    hide ColumnOf, IsClassified, TextUnder, IsAbsent, SaysNull, SaysUnknown, IsBlank;
    TextOfColumn(r, fields, target);
    NoneSaysNothing();
    var column := ColumnOf(fields, target);
    if column.Some? {
      var c := Evidence(r, column.value);
      assert RawText(c) == if c.raw.Some? then c.raw.value else "";
      assert IsMissing(c, TIMESTAMP_COVERAGE) == IsAbsent(c);
      assert CoveredBy(column, TIMESTAMP_COVERAGE, isTimestamp)(r) == (!IsAbsent(c) && isTimestamp(RawText(c)));
    }
  }

  lemma CountTimes(records: seq<Staged>, fields: seq<Field>, target: string, isTimestamp: string -> bool)
    requires forall r | r in records :: IsClassified(r)
    ensures var column := ColumnOf(fields, target);
            && Count(records, CoveredBy(column, TIMESTAMP_COVERAGE, isTimestamp))
               == Count(records, TimeUnder(fields, target, isTimestamp, true))
            && Count(records, InvalidIn(column, TIMESTAMP_COVERAGE, isTimestamp))
               == Count(records, TimeUnder(fields, target, isTimestamp, false))
  {
    hide Count, ColumnOf, SaysNothing, IsClassified, TextUnder, IsAbsent;
    var column := ColumnOf(fields, target);
    forall k | 0 <= k < |records|
      ensures CoveredBy(column, TIMESTAMP_COVERAGE, isTimestamp)(records[k])
              == TimeUnder(fields, target, isTimestamp, true)(records[k])
      ensures InvalidIn(column, TIMESTAMP_COVERAGE, isTimestamp)(records[k])
              == TimeUnder(fields, target, isTimestamp, false)(records[k])
    {
      assert records[k] in records;
      TimesAgree(records[k], fields, target, isTimestamp);
    }
    CountsAgree(records, records, CoveredBy(column, TIMESTAMP_COVERAGE, isTimestamp),
      TimeUnder(fields, target, isTimestamp, true));
    CountsAgree(records, records, InvalidIn(column, TIMESTAMP_COVERAGE, isTimestamp),
      TimeUnder(fields, target, isTimestamp, false));
  }

  lemma NoneSaysNothing()
    ensures SaysNothing(None)
  {
  }

  lemma CountHeld(records: seq<Staged>, fields: seq<Field>, target: string)
    requires forall r | r in records :: IsClassified(r)
    ensures |records| - Count(records, MissingIn(ColumnOf(fields, target)))
            == Count(records, HoldsUnder(fields, target))
  {
    hide Count, ColumnOf, IsClassified, TextUnder, IsBlank, SaysNull;
    var p, q := MissingIn(ColumnOf(fields, target)), HoldsUnder(fields, target);
    forall r | r in records ensures p(r) != q(r) {
      TextOfColumn(r, fields, target);
    }
    CountsPartition(records, p, q);
  }

  lemma CountContacts(records: seq<Staged>, fields: seq<Field>)
    requires forall r | r in records :: IsClassified(r)
    ensures Count(records, ContactableBy([ColumnOf(fields, "email"), ColumnOf(fields, "phone"),
                                          ColumnOf(fields, "website")]))
            == Count(records, SaysUnder(fields, ["email", "phone", "website"]))
  {
    hide Count, ColumnOf, SaysNothing, IsClassified, TextUnder, IsAbsent;
    var columns := [ColumnOf(fields, "email"), ColumnOf(fields, "phone"), ColumnOf(fields, "website")];
    var targets := ["email", "phone", "website"];
    forall k | 0 <= k < |records|
      ensures ContactableBy(columns)(records[k]) == SaysUnder(fields, targets)(records[k])
    {
      assert records[k] in records;
      NoneSaysNothing();
      forall i | 0 <= i < 3
        ensures columns[i].Some? && !IsAbsent(Evidence(records[k], columns[i].value)) <==>
                !SaysNothing(TextUnder(records[k], fields, targets[i]))
      {
        TextOfColumn(records[k], fields, targets[i]);
      }
      assert targets[0] in targets && targets[1] in targets && targets[2] in targets;
    }
    CountsAgree(records, records, ContactableBy(columns), SaysUnder(fields, targets));
  }

  /**
   * The facts of a ready plan count what they say: all rows have an identity; opportunities tell how many rows hold a
   * value and a stage, prospects how many name a way of contact; and of either time how many are good and how many bad.
   */
  lemma FactsCountRows(batchId: string, records: seq<Staged>, m: Mapping, isTimestamp: string -> bool)
    requires BuildPlan(batchId, records, m, isTimestamp).Ready? && forall r | r in records :: IsClassified(r)
    ensures var f := BuildPlan(batchId, records, m, isTimestamp).facts;
            && f.batchId == batchId && f.collection == m.collection && f.total == |records|
            && f.valueCovered == (if m.collection == OPPORTUNITIES
                                  then Some(Count(records, HoldsUnder(m.fields, "value"))) else None)
            && f.stageCovered == (if m.collection == OPPORTUNITIES
                                  then Some(Count(records, HoldsUnder(m.fields, "stage"))) else None)
            && f.contactable
               == (if m.collection == PROSPECTS
                   then Some(Count(records, SaysUnder(m.fields, ["email", "phone", "website"]))) else None)
            && f.createdCovered == Count(records, TimeUnder(m.fields, "created_at", isTimestamp, true))
            && f.createdInvalid == Count(records, TimeUnder(m.fields, "created_at", isTimestamp, false))
            && f.updatedCovered == Count(records, TimeUnder(m.fields, "updated_at", isTimestamp, true))
            && f.updatedInvalid == Count(records, TimeUnder(m.fields, "updated_at", isTimestamp, false))
  {
    hide BuildPlan, Count, IsClassified, ColumnOf, AllErrors, Agree, IsInvalid, ConflictAt, AllDisposed;
    ReadyRows(batchId, records, m, isTimestamp);
    CountHeld(records, m.fields, "value");
    CountHeld(records, m.fields, "stage");
    CountContacts(records, m.fields);
    CountTimes(records, m.fields, "created_at", isTimestamp);
    CountTimes(records, m.fields, "updated_at", isTimestamp);
  }

  /** Every row of a ready plan is covered by its identity. */
  lemma IdentitiesAreCovered(batchId: string, records: seq<Staged>, m: Mapping, isTimestamp: string -> bool)
    requires BuildPlan(batchId, records, m, isTimestamp).Ready? && forall r | r in records :: IsClassified(r)
    ensures BuildPlan(batchId, records, m, isTimestamp).facts.identityCovered == |records|
  {
    hide BuildPlan, Count, IsClassified, ColumnOf, AllErrors, Agree, IsInvalid, ConflictAt, AllDisposed,
      PreparedRows, IdentityOf, SourceIdentity;
    ReadyRows(batchId, records, m, isTimestamp);
    IdentitiesOfReady(records, m, isTimestamp);
    var p := CoveredBy(Some(m.identityColumn), IDENTITY, isTimestamp);
    forall r | r in records ensures p(r) {
      var k :| 0 <= k < |records| && records[k] == r;
      CoveredByIdentity(r, m, isTimestamp);
    }
    AllCounted(records, p);
  }

  lemma CoveredByIdentity(r: Staged, m: Mapping, isTimestamp: string -> bool)
    requires IdentityOf(r, m).Some?
    ensures CoveredBy(Some(m.identityColumn), IDENTITY, isTimestamp)(r)
  {
  }

  lemma {:induction false} AllCounted<T>(s: seq<T>, p: T -> bool)
    requires forall x | x in s :: p(x)
    ensures Count(s, p) == |s|
  {
    if s != [] {
      var front, last := s[..|s| - 1], s[|s| - 1];
      assert s == front + [last] && last in s;
      assert forall x | x in front :: x in s;
      AllCounted(front, p);
      CountAppend(front, last, p);
    }
  }

  /** Valid facts account for every row once, and no count of them exceeds the rows. */
  lemma ValidFactsAdd(f: Facts)
    requires AreValidFacts(f)
    ensures 0 <= f.total <= 1_000_000 && f.committed + f.skipped == f.total && 0 <= f.committed && 0 <= f.skipped
    ensures forall n | n in [f.blocked, f.conflicts, f.identityCovered, f.createdCovered, f.createdInvalid,
                             f.updatedCovered, f.updatedInvalid] :: 0 <= n <= f.total
    ensures forall n | n in [f.valueCovered, f.stageCovered, f.contactable] && n.Some? :: 0 <= n.value <= f.total
  {
    hide PE.IsEvidenceText;
  }
}

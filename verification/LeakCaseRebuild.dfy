/** The detection builder is idempotent, so a record rebuilt from its own fields is the same record. */
module LeakCaseRebuild {
  import opened Text
  import opened NumericEvidence
  import opened DecimalValue
  import opened DecimalExact
  import opened DecimalPrinting
  import opened LeakCases

  lemma NonEmptyIsBounded(value: string, max: nat)
    requires NonEmpty(value, max).Some?
    ensures IsBoundedText(NonEmpty(value, max).value, max)
  {
    hide Trim, ByteLength, IsTrimmed;
    TrimTrims(value);
  }

  lemma BoundedIsKept(t: string, max: nat)
    requires IsBoundedText(t, max)
    ensures NonEmpty(t, max) == Some(t)
  {
    hide Trim, ByteLength, IsTrimmed;
    TrimKeepsTrimmed(t);
  }

  lemma {:induction false} UpperKeepsByteLength(s: string)
    ensures ByteLength(ToUpper(s)) == ByteLength(s)
  {
    if s != "" {
      var n := |s| - 1;
      UpperKeepsByteLength(s[..n]);
      assert ToUpper(s)[..n] == ToUpper(s[..n]);
    }
  }

  lemma UpperIsBounded(t: string, max: nat)
    requires IsBoundedText(t, max)
    ensures IsBoundedText(ToUpper(t), max)
  {
    hide ByteLength;
    UpperKeepsByteLength(t);
    assert ToUpper(t)[0] == UpperChar(t[0]) && ToUpper(t)[|t| - 1] == UpperChar(t[|t| - 1]);
  }

  /** The sign of a representable literal is that of its units, so canonicalising keeps it. */
  lemma CanonicalKeepsSign(literal: string)
    requires !IsNegativeNumberLiteral(literal) && IsCanonicalNumericLiteralRepresentable(literal)
    ensures CanonicalizeDecimalLiteral(literal).Some?
    ensures var c := CanonicalizeDecimalLiteral(literal).value;
            && !IsNegativeNumberLiteral(c) && IsCanonicalNumericLiteralRepresentable(c)
            && CanonicalizeDecimalLiteral(c) == Some(c)
  {
    hide CanonicalDecimalUnits, NormalizeDecimalLiteral, IsNegativeNumberLiteral, Value, PlainText, InputExponent,
      IsDecimalNumberLiteral;
    CanonicalIsIdempotent(literal);
    var c := CanonicalizeDecimalLiteral(literal).value;
    CanonicalIsPrintedUnits(literal);
    var u := CanonicalDecimalUnits(literal).value;
    UnitsAreExact(literal, u);
    UnitsAreExact(c, u);
    ZeroAndSignAreExact(literal);
    ZeroAndSignAreExact(c);
  }

  lemma UpperIsLetters(code: string)
    requires IsLetters(code, 3)
    ensures IsLetters(ToUpper(code), 3)
  {
    forall i | 0 <= i < 3 ensures IsUpper(ToUpper(code)[i]) {
      assert ToUpper(code)[i] == UpperChar(code[i]);
    }
  }

  lemma UppercasedStays(t: string, max: nat)
    requires IsBoundedText(t, max)
    ensures NonEmpty(ToUpper(t), max) == Some(ToUpper(t)) && ToUpper(ToUpper(t)) == ToUpper(t)
  {
    hide IsBoundedText, ToUpper, NonEmpty;
    UpperIsBounded(t, max);
    BoundedIsKept(ToUpper(t), max);
    ToUpperIdempotent(t);
  }

  lemma ValueIsStable(v: CommercialValue)
    requires NormalizeCommercialValue(v).Some?
    ensures NormalizeCommercialValue(NormalizeCommercialValue(v).value) == NormalizeCommercialValue(v)
  {
    hide NonEmpty, ToUpper, IsNegativeNumberLiteral, IsCanonicalNumericLiteralRepresentable,
      CanonicalizeDecimalLiteral, IsLetters, IsBoundedText;
    NonEmptyIsBounded(v.classification, SUBJECT_MAX);
    var c := NonEmpty(v.classification, SUBJECT_MAX).value;
    UppercasedStays(c, SUBJECT_MAX);
    if ToUpper(c) == "KNOWN" {
      CanonicalKeepsSign(v.amount.value);
      NonEmptyIsBounded(v.currency.value, 3);
      var code := NonEmpty(v.currency.value, 3).value;
      UppercasedStays(code, 3);
      UpperIsLetters(code);
    }
  }

  /** The trimmed and upper-cased texts of an input are the texts of the content built from it. */
  lemma TextsAreStable(input: Input, id: string, subjectId: string, value: CommercialValue, at: int)
    requires TextsOf(input, id, subjectId).Some?
    ensures var t := TextsOf(input, id, subjectId).value;
            && TextsOf(InputOf(ContentOf(t, input, value, at)), t.id, t.subjectId) == Some(t)
            && IsBoundedText(t.subjectId, SUBJECT_MAX) && IsBoundedText(t.id, ID_MAX)
  {
    hide NonEmpty, ToUpper, IsBoundedText;
    TextIsStable(id, ID_MAX);
    TextIsStable(subjectId, SUBJECT_MAX);
    TextIsStable(input.leakType, SUBJECT_MAX);
    TextIsStable(input.system, 128);
    TextIsStable(input.entityType, 64);
    TextIsStable(input.entityId, 512);
    TextIsStable(input.observedVersion, 255);
    TextIsStable(input.detectorId, 128);
    TextIsStable(input.detectorVersion, 128);
    TextIsStable(input.reasonCode, 128);
    TextIsStable(input.classification, SUBJECT_MAX);
    TextIsStable(input.recommendedActionType, 128);
  }

  lemma TextIsStable(value: string, max: nat)
    requires NonEmpty(value, max).Some?
    ensures var t := NonEmpty(value, max).value;
            && NonEmpty(t, max) == Some(t) && IsBoundedText(t, max)
            && NonEmpty(ToUpper(t), max) == Some(ToUpper(t)) && ToUpper(ToUpper(t)) == ToUpper(t)
  {
    hide NonEmpty, ToUpper, IsBoundedText;
    NonEmptyIsBounded(value, max);
    BoundedIsKept(NonEmpty(value, max).value, max);
    UppercasedStays(NonEmpty(value, max).value, max);
  }

  /** The builder, fed with the fields of what it built, builds the same. */
  lemma BuilderIsIdempotent(input: Input, id: string, detectedAt: int, subjectId: string)
    requires BuildDetection(input, id, detectedAt, subjectId).Some?
    ensures var d := BuildDetection(input, id, detectedAt, subjectId).value;
            && BuildDetection(InputOf(d.content), d.content.id, d.content.detectedAt, d.subjectId) == Some(d)
            && NormalizeCommercialValue(d.content.value) == Some(d.content.value)
            && d.content.detectedAt == detectedAt
            && IsBoundedText(d.content.id, ID_MAX) && IsBoundedText(d.subjectId, SUBJECT_MAX)
  {
    hide TextsOf, NormalizeCommercialValue, AreSupported, IsBoundedText;
    var t := TextsOf(input, id, subjectId).value;
    var value := NormalizeCommercialValue(input.value).value;
    TextsAreStable(input, id, subjectId, value, detectedAt);
    ValueIsStable(input.value);
  }

  /** A detection that the builder can have returned. */
  predicate IsBuilt(d: Detection) {
    BuildDetection(InputOf(d.content), d.content.id, d.content.detectedAt, d.subjectId) == Some(d)
  }

  lemma BuiltIsCanonical(d: Detection)
    requires IsBuilt(d)
    ensures NormalizeCommercialValue(d.content.value) == Some(d.content.value)
  {
    hide TextsOf, NormalizeCommercialValue;
  }

  /** The open record of a built detection is a persisted case. */
  lemma BuiltRecordIsPersisted(d: Detection, tenantId: string, supersedes: Option<string>)
    requires IsBuilt(d) && IsBoundedText(d.subjectId, SUBJECT_MAX)
    requires supersedes.Some? ==> IsBoundedText(supersedes.value, ID_MAX) && supersedes.value != d.content.id
    ensures IsPersisted(RecordOf(d, tenantId, supersedes), tenantId)
  {
    hide BuildDetection, ByteLength, IsTrimmed;
  }
}

/** Which logs and which detections the case store accepts, told without replaying or building them. */
module LeakCaseLogs {
  import opened Text
  import opened NumericEvidence
  import opened DecimalValue
  import opened DecimalExact
  import DP = DecimalPrinting
  import opened LeakCases

  // ------------------------------------------------------------------ logs

  /** A trimmed text of one to so many bytes. */
  predicate IsShort(text: string, bytes: nat) {
    text != "" && Trim(text) == text && ByteLength(text) <= bytes
  }

  predicate Ends(e: Event) {
    e.WasDismissed? || e.WasSuperseded?
  }

  /** Among the first k entries a snooze is the last word on snoozing. */
  predicate IsAsleepAfter(audit: seq<Entry>, k: nat)
    requires k <= |audit|
  {
    exists j | 0 <= j < k :: audit[j].event.WasSnoozed? && forall n | j < n < k :: !audit[n].event.Reopened?
  }

  predicate IsEndedAfter(audit: seq<Entry>, k: nat)
    requires k <= |audit|
  {
    exists j | 0 <= j < k :: Ends(audit[j].event)
  }

  predicate IsLinkedAfter(audit: seq<Entry>, k: nat)
    requires k <= |audit|
  {
    exists j | 0 <= j < k :: audit[j].event.Linked?
  }

  /** What an entry says is well formed. */
  predicate IsWellSaid(e: Entry) {
    match e.event
    case Opened(_, _, _) => false
    case WasSnoozed(reason, wakeAt) => IsShort(reason, 1000) && e.at < wakeAt
    case Reopened(reason) => IsShort(reason, 1000)
    case WasDismissed(reason) => IsShort(reason, 1000)
    case WasSuperseded(code, byId, _) => code == "CANONICAL_EVIDENCE_CHANGED" && IsShort(byId, 255)
    case Linked(actionId, _, _) => IsShort(actionId, 255)
  }

  /** Entry k fits behind the entries before it. */
  predicate Fits(audit: seq<Entry>, k: nat, detectedAt: int)
    requires k < |audit|
  {
    var e := audit[k];
    && IsShort(e.subjectId, 512) && detectedAt <= e.at && IsWellSaid(e) && !IsEndedAfter(audit, k)
    && (e.event.WasSnoozed? ==> !IsAsleepAfter(audit, k))
    && (e.event.Reopened? ==> IsAsleepAfter(audit, k))
    && (e.event.Linked? ==> !IsLinkedAfter(audit, k))
  }

  predicate IsLogOf(audit: seq<Entry>, c: Content) {
    && audit != []
    && audit[0].event == Opened(c.detectorId, c.detectorVersion, c.reasonCode)
    && audit[0].at == c.detectedAt && IsShort(audit[0].subjectId, 512)
    && forall k | 0 < k < |audit| :: Fits(audit, k, c.detectedAt)
  }

  /** The state that a log tells. */
  function StateTold(audit: seq<Entry>): CaseState
    requires audit != []
  {
    if audit[|audit| - 1].event.WasDismissed? then DISMISSED
    else if audit[|audit| - 1].event.WasSuperseded? then SUPERSEDED
    else if IsAsleepAfter(audit, |audit|) then SNOOZED else OPEN
  }

  lemma ShortIsBounded(text: string, bytes: nat)
    ensures IsShort(text, bytes) <==> IsBoundedText(text, bytes)
  {
    TrimTrims(text);
    if IsTrimmed(text) { TrimKeepsTrimmed(text); }
  }

  /** Conditions on the entries before k do not see the rest. */
  lemma FrontAgrees(audit: seq<Entry>, k: nat, detectedAt: int)
    requires k <= |audit| - 1
    ensures var front := audit[..|audit| - 1];
            && (IsAsleepAfter(front, k) <==> IsAsleepAfter(audit, k))
            && (IsEndedAfter(front, k) <==> IsEndedAfter(audit, k))
            && (IsLinkedAfter(front, k) <==> IsLinkedAfter(audit, k))
            && (k < |front| ==> (Fits(front, k, detectedAt) <==> Fits(audit, k, detectedAt)))
  {
    hide IsShort, IsWellSaid;
    var front := audit[..|audit| - 1];
    assert forall j | 0 <= j < |front| :: front[j] == audit[j];
  }

  /** How the told conditions go on with the last entry. */
  lemma OneMoreEntry(audit: seq<Entry>)
    requires audit != []
    ensures var n := |audit| - 1; var e := audit[n].event;
            && (IsAsleepAfter(audit, n + 1) <==> (IsAsleepAfter(audit, n) && !e.Reopened?) || e.WasSnoozed?)
            && (IsEndedAfter(audit, n + 1) <==> IsEndedAfter(audit, n) || Ends(e))
            && (IsLinkedAfter(audit, n + 1) <==> IsLinkedAfter(audit, n) || e.Linked?)
  {
  }

  /**
   * A log is accepted exactly when it opens with the content's own detection and every later entry fits; the replayed
   * state and link are those that the entries tell.
   */
  lemma {:induction false} ReplayedExactlyWhen(audit: seq<Entry>, c: Content)
    ensures Replay(audit, c).Some? <==> IsLogOf(audit, c)
    ensures Replay(audit, c).Some? ==>
              var life := Replay(audit, c).value;
              && life.state == StateTold(audit)
              && (life.state in {DISMISSED, SUPERSEDED} <==> IsEndedAfter(audit, |audit|))
              && (life.actionId.Some? <==> IsLinkedAfter(audit, |audit|))
  {
    hide IsShort, IsAsleepAfter, IsLinkedAfter, IsEndedAfter, IsBoundedText;
    if |audit| == 1 {
      ShortIsBounded(audit[0].subjectId, 512);
      OpeningTells(audit);
    } else if |audit| > 1 {
      var n := |audit| - 1;
      var front := audit[..n];
      ReplayedExactlyWhen(front, c);
      FrontLog(audit, c);
      FrontAgrees(audit, n, c.detectedAt);
      OneMoreEntry(audit);
      LastEntry(audit, c);
    }
  }

  lemma OpeningTells(audit: seq<Entry>)
    requires |audit| == 1
    ensures audit[0].event.Opened? ==>
              !IsAsleepAfter(audit, 1) && !IsEndedAfter(audit, 1) && !IsLinkedAfter(audit, 1)
  {
  }

  lemma FrontLog(audit: seq<Entry>, c: Content)
    requires |audit| > 1
    ensures IsLogOf(audit, c) <==> IsLogOf(audit[..|audit| - 1], c) && Fits(audit, |audit| - 1, c.detectedAt)
  {
    hide Fits, IsShort;
    var front := audit[..|audit| - 1];
    forall k | 0 < k < |front| ensures Fits(front, k, c.detectedAt) <==> Fits(audit, k, c.detectedAt) {
      FrontAgrees(audit, k, c.detectedAt);
    }
  }

  /** The last entry is taken by the life before it exactly when it fits. */
  lemma LastEntry(audit: seq<Entry>, c: Content)
    requires |audit| > 1
    requires var n := |audit| - 1; var before := Replay(audit[..n], c);
             before.Some? ==>
               && (before.value.state == SNOOZED ==> IsAsleepAfter(audit, n))
               && (before.value.state == OPEN ==> !IsAsleepAfter(audit, n))
               && (before.value.state in {DISMISSED, SUPERSEDED} <==> IsEndedAfter(audit, n))
               && (before.value.actionId.Some? <==> IsLinkedAfter(audit, n))
    ensures var n := |audit| - 1; var before := Replay(audit[..n], c);
            before.Some? ==> (Advance(before.value, audit[n], c.detectedAt).Some? <==> Fits(audit, n, c.detectedAt))
  {
    hide IsShort, IsAsleepAfter, IsLinkedAfter, IsEndedAfter, IsBoundedText, Replay;
    var e := audit[|audit| - 1];
    ShortIsBounded(e.subjectId, 512);
    match e.event {
      case Opened(_, _, _) =>
      case WasSnoozed(reason, _) => ShortIsBounded(reason, 1000);
      case Reopened(reason) => ShortIsBounded(reason, 1000);
      case WasDismissed(reason) => ShortIsBounded(reason, 1000);
      case WasSuperseded(_, byId, _) => ShortIsBounded(byId, 255);
      case Linked(actionId, _, _) => ShortIsBounded(actionId, 255);
    }
  }

  // ------------------------------------------------------------------ commercial values

  predicate IsGiven(text: string, bytes: nat) {
    Trim(text) != "" && ByteLength(Trim(text)) <= bytes
  }

  predicate AreThreeLetters(text: string) {
    |text| == 3 && forall i | 0 <= i < 3 :: 'A' <= text[i] <= 'Z' || 'a' <= text[i] <= 'z'
  }

  /** A value is known with a usable amount and a currency code, or of no amount and without both. */
  ghost predicate IsSoundValue(v: CommercialValue) {
    && IsGiven(v.classification, 512)
    && match ToUpper(Trim(v.classification))
       case "KNOWN" =>
         && v.amount.Some? && IsCanonicalNumericLiteralRepresentable(v.amount.value)
         && IsDecimalNumberLiteral(v.amount.value) && Value(v.amount.value) >= 0.0
         && v.currency.Some? && AreThreeLetters(Trim(v.currency.value))
       case "UNKNOWN" => v.amount.None? && v.currency.None?
       case "NOT_APPLICABLE" => v.amount.None? && v.currency.None?
       case _ => false
  }

  lemma LettersAreShort(text: string)
    requires AreThreeLetters(text)
    ensures ByteLength(text) == 3
  {
    ByteLengthConcat(text[..2], text[2..]);
    ByteLengthConcat(text[..1], text[1..2]);
    assert text[..2] + text[2..] == text && text[..1] + text[1..2] == text[..2];
  }

  lemma CurrencyExactly(text: string)
    ensures var t := NonEmpty(text, 3); t.Some? && IsLetters(t.value, 3) <==> AreThreeLetters(Trim(text))
  {
    hide Trim, ByteLength;
    if AreThreeLetters(Trim(text)) { LettersAreShort(Trim(text)); }
  }

  /** A value is normalised exactly when it is sound; a known one keeps its rational value and its currency. */
  lemma NormalizedExactlyWhen(v: CommercialValue)
    ensures NormalizeCommercialValue(v).Some? <==> IsSoundValue(v)
    ensures NormalizeCommercialValue(v).Some? ==>
              var n := NormalizeCommercialValue(v).value;
              && n.classification == ToUpper(Trim(v.classification))
              && (n.classification != "KNOWN" ==> n.amount.None? && n.currency.None?)
              && (n.classification == "KNOWN" ==>
                    && v.currency.Some? && n.currency == Some(ToUpper(Trim(v.currency.value)))
                    && v.amount.Some? && n.amount.Some?
                    && IsDecimalNumberLiteral(v.amount.value) && IsDecimalNumberLiteral(n.amount.value)
                    && Value(n.amount.value) == Value(v.amount.value))
  {
    hide Trim, ByteLength, ToUpper, IsDecimalNumberLiteral, Value, IsNegativeNumberLiteral, CanonicalizeDecimalLiteral,
      IsCanonicalNumericLiteralRepresentable, AreThreeLetters, IsLetters;
    if v.currency.Some? { CurrencyExactly(v.currency.value); }
    if v.amount.Some? {
      ZeroAndSignAreExact(v.amount.value);
      UsableIsCanonical(v.amount.value);
    }
  }

  lemma UsableIsCanonical(literal: string)
    ensures IsCanonicalNumericLiteralRepresentable(literal) ==>
              && CanonicalizeDecimalLiteral(literal).Some? && IsDecimalNumberLiteral(literal)
              && IsDecimalNumberLiteral(CanonicalizeDecimalLiteral(literal).value)
              && Value(CanonicalizeDecimalLiteral(literal).value) == Value(literal)
  {
    hide Value, IsDecimalNumberLiteral;
    if IsCanonicalNumericLiteralRepresentable(literal) { DP.CanonicalKeepsValue(literal); }
  }

  // ------------------------------------------------------------------ detections

  predicate IsReasonWord(text: string) {
    && text != "" && 'A' <= text[0] <= 'Z'
    && forall i | 0 <= i < |text| :: 'A' <= text[i] <= 'Z' || '0' <= text[i] <= '9' || text[i] == '_'
  }

  /** Every text of an input is given within its bytes. */
  predicate AreGiven(input: Input, id: string, subjectId: string) {
    && IsGiven(id, 255) && IsGiven(subjectId, 512)
    && IsGiven(input.leakType, 512) && IsGiven(input.system, 128) && IsGiven(input.entityType, 64)
    && IsGiven(input.entityId, 512) && IsGiven(input.observedVersion, 255)
    && IsGiven(input.detectorId, 128) && IsGiven(input.detectorVersion, 128)
    && IsGiven(input.reasonCode, 128) && IsGiven(input.classification, 512)
    && IsGiven(input.recommendedActionType, 128)
  }

  /** The input is one of a stalled opportunity of this system. */
  predicate IsOfStalledOpportunity(input: Input) {
    && ToUpper(Trim(input.leakType)) == "STALLED_OPPORTUNITY" && Trim(input.system) == "TGE"
    && ToUpper(Trim(input.entityType)) == "OPPORTUNITY" && IsReasonWord(Trim(input.reasonCode))
    && ToUpper(Trim(input.classification)) in {"OBSERVED", "DERIVED", "MIXED"}
  }

  /** What the builder asks of an input. */
  ghost predicate IsBuildable(input: Input, id: string, at: int, subjectId: string) {
    && AreGiven(input, id, subjectId) && IsOfStalledOpportunity(input) && IsSoundValue(input.value)
    && input.observedAt <= at && input.facts != map[] && input.supersession != map[]
  }

  lemma GivenExactly(text: string, bytes: nat)
    ensures NonEmpty(text, bytes) == if IsGiven(text, bytes) then Some(Trim(text)) else None
  {
  }

  /** The texts of an input, trimmed, and those that name a kind in upper case. */
  lemma TextsExactly(input: Input, id: string, subjectId: string)
    ensures var t := TextsOf(input, id, subjectId);
            && (t.Some? <==> AreGiven(input, id, subjectId))
            && (t.Some? ==>
                  t.value == Texts(Trim(id), Trim(subjectId), ToUpper(Trim(input.leakType)), Trim(input.system),
                    ToUpper(Trim(input.entityType)), Trim(input.entityId), Trim(input.observedVersion),
                    Trim(input.detectorId), Trim(input.detectorVersion), Trim(input.reasonCode),
                    ToUpper(Trim(input.classification)), Trim(input.recommendedActionType)))
  {
    hide Trim, ToUpper, NonEmpty, IsGiven;
    GivenExactly(id, 255);
    GivenExactly(subjectId, 512);
    GivenExactly(input.leakType, 512);
    GivenExactly(input.system, 128);
    GivenExactly(input.entityType, 64);
    GivenExactly(input.entityId, 512);
    GivenExactly(input.observedVersion, 255);
    GivenExactly(input.detectorId, 128);
    GivenExactly(input.detectorVersion, 128);
    GivenExactly(input.reasonCode, 128);
    GivenExactly(input.classification, 512);
    GivenExactly(input.recommendedActionType, 128);
  }

  lemma ReasonExactly(text: string)
    ensures IsReasonCode(text) <==> IsReasonWord(text)
  {
  }

  /** A detection is built exactly from a buildable input, and its content is that input, trimmed and normalised. */
  lemma BuiltExactlyWhen(input: Input, id: string, at: int, subjectId: string)
    ensures BuildDetection(input, id, at, subjectId).Some? <==> IsBuildable(input, id, at, subjectId)
    ensures BuildDetection(input, id, at, subjectId).Some? ==>
              var d := BuildDetection(input, id, at, subjectId).value; var c := d.content;
              && c.id == Trim(id) && d.subjectId == Trim(subjectId) && c.detectedAt == at == c.createdAt
              && c.entityId == Trim(input.entityId) == c.opportunityId && c.observedAt == input.observedAt
              && c.detectorId == Trim(input.detectorId) && c.reasonCode == Trim(input.reasonCode)
              && c.dueAt == input.dueAt && Some(c.value) == NormalizeCommercialValue(input.value)
              && c.recommendedActionType == Trim(input.recommendedActionType)
  {
    hide Trim, ToUpper, NormalizeCommercialValue, IsReasonCode, IsReasonWord, IsSoundValue, TextsOf, AreGiven;
    TextsExactly(input, id, subjectId);
    NormalizedExactlyWhen(input.value);
    ReasonExactly(Trim(input.reasonCode));
  }

  /** The content without what a later detection of the same thing may change: id and time. */
  function Meaning(c: Content): Content {
    c.(id := "", detectedAt := 0, createdAt := 0)
  }

  /** Built detections have equal semantic keys exactly when their contents differ in id and time at most. */
  lemma KeysTellMeaning(a: Input, id: string, at: int, subject: string, b: Input, otherId: string, later: int,
                        otherSubject: string)
    requires BuildDetection(a, id, at, subject).Some? && BuildDetection(b, otherId, later, otherSubject).Some?
    ensures var x := BuildDetection(a, id, at, subject).value.content;
            var y := BuildDetection(b, otherId, later, otherSubject).value.content;
            x.semanticKey == y.semanticKey <==> Meaning(x) == Meaning(y)
  {
    hide Trim, ByteLength, ToUpper, NormalizeCommercialValue, AreSupported, NonEmpty;
  }
}

/** Revenue leak cases: detection builder, keys, audit log with replay, collection check. */
module LeakCases {
  import opened Text
  import opened Lists
  import opened NumericEvidence
  import Deals
  import RA = RevenueActions

  /** Canonical JSON: objects are maps, so the order of their keys is gone; a time is an ISO-8601 text. */
  datatype Json =
    | JNull | JBool(b: bool) | JNumber(text: string) | JText(value: string)
    | JTime(at: int) | JArray(items: seq<Json>) | JObject(fields: map<string, Json>)

  // ------------------------------------------------------------------ bounded texts and money

  const ID_MAX := 255
  const SUBJECT_MAX := 512
  const REASON_MAX := 1000

  /** nonEmptyString: the trimmed value, None when it is blank or too long. */
  function NonEmpty(value: string, max: nat): (r: Option<string>)
  {
    var t := Trim(value);
    if t == "" || ByteLength(t) > max then None else Some(t)
  }

  predicate IsUpper(c: char) { 'A' <= c <= 'Z' }

  predicate IsReasonCode(code: string) {
    code != "" && IsUpper(code[0])
    && forall i | 0 <= i < |code| :: IsUpper(code[i]) || '0' <= code[i] <= '9' || code[i] == '_'
  }

  predicate IsLetters(code: string, n: nat) {
    |code| == n && forall i | 0 <= i < n :: IsUpper(code[i]) || 'a' <= code[i] <= 'z'
  }

  datatype CommercialValue = CommercialValue(classification: string, amount: Option<string>, currency: Option<string>)

  function NormalizeCommercialValue(v: CommercialValue): Option<CommercialValue> {
    var classification := NonEmpty(v.classification, SUBJECT_MAX);
    if classification.None? then None
    else
      var c := ToUpper(classification.value);
      if c !in {"KNOWN", "UNKNOWN", "NOT_APPLICABLE"} then None
      else if c != "KNOWN" then
        if v.amount.Some? || v.currency.Some? then None else Some(CommercialValue(c, None, None))
      else if v.amount.None? || v.currency.None? then None
      else if IsNegativeNumberLiteral(v.amount.value) || !IsCanonicalNumericLiteralRepresentable(v.amount.value) then
        None
      else
        var currency := NonEmpty(v.currency.value, 3);
        if currency.None? || !IsLetters(currency.value, 3) then None
        else
          Some(CommercialValue(c, CanonicalizeDecimalLiteral(v.amount.value), Some(ToUpper(currency.value))))
  }

  // ------------------------------------------------------------------ records

  datatype SeriesKey = SeriesKey(leakType: string, system: string, entityType: string, entityId: string,
                                 detectorId: string)

  datatype Evidence = Evidence(classification: string, observedAt: int, observedVersion: string,
                               facts: map<string, Json>)

  datatype SemanticKey = SemanticKey(
    series: SeriesKey, detectorVersion: string, reasonCode: string, evidence: Evidence, value: CommercialValue,
    recommendedActionType: string, dueAt: Option<int>, supersession: map<string, Json>)

  /** What never changes about a case. */
  datatype Content = Content(
    id: string, leakType: string, system: string, entityType: string, entityId: string, opportunityId: string,
    observedAt: int, observedVersion: string, detectorId: string, detectorVersion: string, reasonCode: string,
    classification: string, evidence: Evidence, seriesKey: SeriesKey, semanticKey: SemanticKey,
    value: CommercialValue, recommendedActionType: string, dueAt: Option<int>, supersession: map<string, Json>,
    detectedAt: int, createdAt: int)

  datatype CaseState = OPEN | SNOOZED | DISMISSED | SUPERSEDED

  const EVIDENCE_CHANGED := "CANONICAL_EVIDENCE_CHANGED"

  datatype Event =
    | Opened(detectorId: string, detectorVersion: string, reasonCode: string)
    | WasSnoozed(reason: string, wakeAt: int)
    | Reopened(reason: string)
    | WasDismissed(reason: string)
    | WasSuperseded(code: string, byId: string, replacement: SemanticKey)
    | Linked(actionId: string, fingerprint: Deals.Basis, status: RA.Status)

  datatype Entry = Entry(event: Event, at: int, subjectId: string)

  /** What the audit log accounts for. */
  datatype Life = Life(
    state: CaseState, updatedAt: int,
    actionId: Option<string>, fingerprint: Option<Deals.Basis>, statusAtLink: Option<RA.Status>, linkedAt: Option<int>,
    snoozedAt: Option<int>, snoozedUntil: Option<int>, snoozeReason: Option<string>,
    dismissedAt: Option<int>, dismissalReason: Option<string>,
    supersededBy: Option<string>, supersededAt: Option<int>, supersessionReason: Option<string>)

  datatype Record = Record(
    tenantId: string, content: Content, life: Life, supersedes: Option<string>, audit: seq<Entry>)

  predicate IsActive(state: CaseState) {
    state == OPEN || state == SNOOZED
  }

  function NewLife(at: int): Life {
    Life(OPEN, at, None, None, None, None, None, None, None, None, None, None, None, None)
  }

  // ------------------------------------------------------------------ the detection builder

  datatype Input = Input(
    leakType: string, system: string, entityType: string, entityId: string, observedAt: int, observedVersion: string,
    detectorId: string, detectorVersion: string, reasonCode: string, classification: string,
    facts: map<string, Json>, value: CommercialValue, recommendedActionType: string, dueAt: Option<int>,
    supersession: map<string, Json>)

  /** A detection is a content together with the trimmed subject of its first audit entry. */
  datatype Detection = Detection(content: Content, subjectId: string)

  /** The trimmed and upper-cased texts of an input, None when one of them is refused. */
  datatype Texts = Texts(
    id: string, subjectId: string, leakType: string, system: string, entityType: string, entityId: string,
    observedVersion: string, detectorId: string, detectorVersion: string, reasonCode: string,
    classification: string, recommendedActionType: string)

  function TextsOf(input: Input, id: string, subjectId: string): Option<Texts> {
    var i := NonEmpty(id, ID_MAX);
    var subject := NonEmpty(subjectId, SUBJECT_MAX);
    var leak := NonEmpty(input.leakType, SUBJECT_MAX);
    var system := NonEmpty(input.system, 128);
    var entityType := NonEmpty(input.entityType, 64);
    var entityId := NonEmpty(input.entityId, 512);
    var version := NonEmpty(input.observedVersion, 255);
    var detector := NonEmpty(input.detectorId, 128);
    var detectorVersion := NonEmpty(input.detectorVersion, 128);
    var reason := NonEmpty(input.reasonCode, 128);
    var classification := NonEmpty(input.classification, SUBJECT_MAX);
    var recommended := NonEmpty(input.recommendedActionType, 128);
    if i.Some? && subject.Some? && leak.Some? && system.Some? && entityType.Some? && entityId.Some?
       && version.Some? && detector.Some? && detectorVersion.Some? && reason.Some? && classification.Some?
       && recommended.Some?
    then
      Some(Texts(i.value, subject.value, ToUpper(leak.value), system.value, ToUpper(entityType.value), entityId.value,
        version.value, detector.value, detectorVersion.value, reason.value, ToUpper(classification.value),
        recommended.value))
    else None
  }

  predicate AreSupported(t: Texts) {
    && t.leakType == "STALLED_OPPORTUNITY"
    && t.system == "TGE" && t.entityType == "OPPORTUNITY"
    && IsReasonCode(t.reasonCode)
    && t.classification in {"OBSERVED", "DERIVED", "MIXED"}
  }

  function ContentOf(t: Texts, input: Input, value: CommercialValue, detectedAt: int): Content {
    var series := SeriesKey(t.leakType, t.system, t.entityType, t.entityId, t.detectorId);
    var evidence := Evidence(t.classification, input.observedAt, t.observedVersion, input.facts);
    Content(t.id, t.leakType, t.system, t.entityType, t.entityId, t.entityId, input.observedAt, t.observedVersion,
      t.detectorId, t.detectorVersion, t.reasonCode, t.classification, evidence, series,
      SemanticKey(series, t.detectorVersion, t.reasonCode, evidence, value, t.recommendedActionType,
        input.dueAt, input.supersession),
      value, t.recommendedActionType, input.dueAt, input.supersession, detectedAt, detectedAt)
  }

  /** buildRevenueLeakCaseDetection, None when the input is refused. */
  function BuildDetection(input: Input, id: string, detectedAt: int, subjectId: string): Option<Detection> {
    var t := TextsOf(input, id, subjectId);
    var value := NormalizeCommercialValue(input.value);
    if t.None? || !AreSupported(t.value) || value.None?
       || input.observedAt > detectedAt || input.facts == map[] || input.supersession == map[]
    then None
    else Some(Detection(ContentOf(t.value, input, value.value, detectedAt), t.value.subjectId))
  }

  /** The open record of a detection. */
  function RecordOf(d: Detection, tenantId: string, supersedes: Option<string>): Record {
    Record(tenantId, d.content, NewLife(d.content.detectedAt), supersedes,
      [Entry(Opened(d.content.detectorId, d.content.detectorVersion, d.content.reasonCode),
         d.content.detectedAt, d.subjectId)])
  }

  /** The input that a persisted record is rebuilt from. */
  function InputOf(c: Content): Input {
    Input(c.leakType, c.system, c.entityType, c.entityId, c.observedAt, c.observedVersion,
      c.detectorId, c.detectorVersion, c.reasonCode, c.classification, c.evidence.facts, c.value,
      c.recommendedActionType, c.dueAt, c.supersession)
  }

  // ------------------------------------------------------------------ replay

  /** The life after one more audit entry of a case detected at the given time; None when it is refused. */
  function Advance(life: Life, e: Entry, detectedAt: int): Option<Life> {
    if !IsBoundedText(e.subjectId, SUBJECT_MAX) || e.at < detectedAt then None
    else
      match e.event
      case Opened(_, _, _) => None
      case WasSnoozed(reason, wakeAt) =>
        if life.state == OPEN && IsBoundedText(reason, REASON_MAX) && wakeAt > e.at
        then Some(life.(state := SNOOZED, snoozedAt := Some(e.at), snoozedUntil := Some(wakeAt),
                        snoozeReason := Some(reason), updatedAt := e.at))
        else None
      case Reopened(reason) =>
        if life.state == SNOOZED && IsBoundedText(reason, REASON_MAX)
        then Some(life.(state := OPEN, snoozedAt := None, snoozedUntil := None, snoozeReason := None,
                        updatedAt := e.at))
        else None
      case WasDismissed(reason) =>
        if IsActive(life.state) && IsBoundedText(reason, REASON_MAX)
        then Some(life.(state := DISMISSED, dismissedAt := Some(e.at), dismissalReason := Some(reason),
                        updatedAt := e.at))
        else None
      case WasSuperseded(code, byId, _) =>
        if IsActive(life.state) && code == EVIDENCE_CHANGED && IsBoundedText(byId, ID_MAX)
        then Some(life.(state := SUPERSEDED, supersededBy := Some(byId), supersededAt := Some(e.at),
                        supersessionReason := Some(code), updatedAt := e.at))
        else None
      case Linked(actionId, fingerprint, status) =>
        if IsActive(life.state) && life.actionId.None? && IsBoundedText(actionId, ID_MAX)
        then Some(life.(actionId := Some(actionId), fingerprint := Some(fingerprint), statusAtLink := Some(status),
                        linkedAt := Some(e.at), updatedAt := e.at))
        else None
  }

  predicate IsOpening(e: Entry, c: Content) {
    && e.event == Opened(c.detectorId, c.detectorVersion, c.reasonCode)
    && e.at == c.detectedAt
    && IsBoundedText(e.subjectId, SUBJECT_MAX)
  }

  /** The life that the log of a case tells, None when it is no log of it. */
  function Replay(audit: seq<Entry>, c: Content): Option<Life> {
    if audit == [] then None
    else if |audit| == 1 then if IsOpening(audit[0], c) then Some(NewLife(c.detectedAt)) else None
    else
      var before := Replay(audit[..|audit| - 1], c);
      if before.None? then None else Advance(before.value, audit[|audit| - 1], c.detectedAt)
  }

  // ------------------------------------------------------------------ acceptance

  /** The content is what the builder makes of it. */
  predicate IsRebuilt(r: Record) {
    && r.audit != []
    && var d := BuildDetection(InputOf(r.content), r.content.id, r.content.detectedAt, r.audit[0].subjectId);
       d.Some? && d.value.content == r.content
  }

  /** validatePersistedCase */
  predicate IsPersisted(r: Record, tenantId: string) {
    && r.tenantId == tenantId
    && IsRebuilt(r)
    && (r.supersedes.Some? ==> IsBoundedText(r.supersedes.value, REASON_MAX) && r.supersedes.value != r.content.id)
    && Replay(r.audit, r.content) == Some(r.life)
  }

  /** findRevenueActionReference: the only action with that id, if it belongs to the opportunity. */
  function ActionReference(actions: seq<RA.Action>, id: string, opportunityId: string): Option<RA.Action> {
    var matches := Filter(actions, RA.HasId(id));
    if |matches| == 1 && matches[0].opportunityId == opportunityId then Some(matches[0]) else None
  }

  predicate LinkIsValid(r: Record, actions: seq<RA.Action>) {
    r.life.actionId.Some? ==>
      var a := ActionReference(actions, r.life.actionId.value, r.content.opportunityId);
      && a.Some? && r.life.fingerprint == Some(a.value.basis)
      && r.life.linkedAt.Some? && r.life.linkedAt.value >= a.value.createdAt
  }

  function CaseWithId(id: string): Record -> bool {
    (r: Record) => r.content.id == id
  }

  function CaseIndex(records: seq<Record>, id: string): Option<nat> {
    FirstIndex(records, CaseWithId(id))
  }

  predicate PredecessorIsValid(r: Record, records: seq<Record>) {
    r.supersedes.Some? ==>
      var i := CaseIndex(records, r.supersedes.value);
      && i.Some?
      && var p := records[i.value];
         && p.content.seriesKey == r.content.seriesKey
         && p.content.detectedAt <= r.content.detectedAt
         && (p.life.state == SUPERSEDED ==> p.life.supersededBy == Some(r.content.id))
  }

  predicate ReplacementIsValid(r: Record, records: seq<Record>) {
    r.life.supersededBy.Some? ==>
      var i := CaseIndex(records, r.life.supersededBy.value);
      && i.Some?
      && var p := records[i.value];
         p.content.seriesKey == r.content.seriesKey && p.supersedes == Some(r.content.id)
  }

  predicate HaveDistinctIds(records: seq<Record>) {
    forall i, j | 0 <= i < j < |records| :: records[i].content.id != records[j].content.id
  }

  /** No key occurs twice. */
  predicate AreDistinct<K(==)>(keys: seq<Option<K>>) {
    forall i, j | 0 <= i < j < |keys| && keys[i].Some? :: keys[i] != keys[j]
  }

  function ActiveSeries(records: seq<Record>): (r: seq<Option<SeriesKey>>)
    ensures |r| == |records|
    ensures forall i | 0 <= i < |r| ::
              r[i] == if IsActive(records[i].life.state) then Some(records[i].content.seriesKey) else None
  {
    seq(|records|, i requires 0 <= i < |records| =>
      if IsActive(records[i].life.state) then Some(records[i].content.seriesKey) else None)
  }

  function ActiveMeanings(records: seq<Record>): (r: seq<Option<SemanticKey>>)
    ensures |r| == |records|
    ensures forall i | 0 <= i < |r| ::
              r[i] == if IsActive(records[i].life.state) then Some(records[i].content.semanticKey) else None
  {
    seq(|records|, i requires 0 <= i < |records| =>
      if IsActive(records[i].life.state) then Some(records[i].content.semanticKey) else None)
  }

  /** validateCaseCollection */
  predicate IsAccepted(records: seq<Record>, tenantId: string, actions: seq<RA.Action>) {
    && (forall i | 0 <= i < |records| :: IsPersisted(records[i], tenantId))
    && HaveDistinctIds(records)
    && AreDistinct(ActiveSeries(records)) && AreDistinct(ActiveMeanings(records))
    && (forall i | 0 <= i < |records| ::
          && LinkIsValid(records[i], actions)
          && PredecessorIsValid(records[i], records)
          && ReplacementIsValid(records[i], records))
  }
}

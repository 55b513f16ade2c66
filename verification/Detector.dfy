/** The stalled opportunity detector: what it refuses, what it finds and what it reports as evidence. */
module Detector {
  import opened Text
  import opened Lists
  import opened Sorting
  import opened NumericEvidence
  import opened LeakCases
  import Deals

  const DAY := 86_400_000
  const STALE_AFTER_DAYS := 14
  const SOURCE_FRESHNESS_DAYS := 90

  // ------------------------------------------------------------------ raw records

  /** A stored JSON value where the detector expects a text; a number keeps its printed form. */
  datatype Raw = Null | Text(text: string) | Number(literal: string) | Other

  /** A stored timestamp: absent or blank, unreadable, or an instant. */
  datatype Stamp = Missing | Unreadable | At(ms: int)

  datatype RawOpportunity = RawOpportunity(
    plain: bool, id: Raw, stage: Raw, createdAt: Stamp, updatedAt: Stamp, nextAction: Raw, value: Raw, currency: Raw)

  datatype RawActivity = RawActivity(
    plain: bool, id: Raw, kind: Raw, opportunityId: Raw, createdAt: Stamp, updatedAt: Stamp)

  datatype RawTask = RawTask(
    plain: bool, id: Raw, title: Raw, opportunityId: Raw, status: Raw,
    createdAt: Stamp, updatedAt: Stamp, dueAt: Stamp, completedAt: Stamp)

  // ------------------------------------------------------------------ outcomes

  datatype Outcome =
    | ELIGIBLE_LEAK_DETECTED | ELIGIBLE_NO_LEAK | INSUFFICIENT_EVIDENCE
    | STALE_OR_UNTRUSTWORTHY_SOURCE | DATA_HEALTH_SUPPRESSED

  datatype Reason =
    | STALE_WITHOUT_NEXT_ACTION
    | OPPORTUNITY_CLOSED | RECENT_MEANINGFUL_ACTIVITY | NEXT_ACTION_PRESENT
    | OPPORTUNITY_STAGE_MISSING | MEANINGFUL_ACTIVITY_BASELINE_MISSING
    | CANONICAL_TIMESTAMP_IN_FUTURE | CANONICAL_SOURCE_TOO_OLD
    | OPPORTUNITY_EVIDENCE_INVALID | OPPORTUNITY_STAGE_UNRECOGNIZED | CANONICAL_TIMESTAMP_INVALID
    | NEXT_ACTION_EVIDENCE_INVALID | TASK_STATUS_UNRECOGNIZED | TASK_EVIDENCE_INVALID
    | ACTIVITY_EVIDENCE_INVALID | COMMERCIAL_VALUE_INVALID | COMMERCIAL_CURRENCY_INVALID

  datatype Evaluation = Evaluation(
    outcome: Outcome, reason: Reason, evidence: map<string, Json>, value: CommercialValue, detection: Option<Input>)

  const UNKNOWN_VALUE := CommercialValue("UNKNOWN", None, None)

  function Plainly(outcome: Outcome, reason: Reason): Evaluation {
    Evaluation(outcome, reason, map[], UNKNOWN_VALUE, None)
  }

  /** Either a normalised value or the reason why the evidence is suppressed. */
  datatype Checked<T> = Good(value: T) | Bad(reason: Reason)

  // ------------------------------------------------------------------ texts and stages

  predicate IsMeaningful(value: Raw) {
    value.Text? && Trim(value.text) != ""
  }

  function TrimmedText(value: Raw): string {
    if value.Text? then Trim(value.text) else ""
  }

  predicate IsUnknownLiteral(text: string) {
    ToLower(text) in {"unknown", "n/a", "na", "not known"}
  }

  /** None is a missing stage. */
  function NormalizeStage(stage: Raw): Option<string> {
    if stage.Null? then None
    else if !stage.Text? then Some("")
    else
      var s := ToUpper(Trim(stage.text));
      if s == "" || IsUnknownLiteral(s) then None else Some(s)
  }

  predicate IsActiveStage(stage: string) {
    stage in {"NEW", "QUALIFIED", "CONTACTED", "REPLIED", "MEETING", "PROPOSAL"}
  }

  predicate IsClosedStage(stage: string) {
    stage in {"WON", "LOST"}
  }

  // ------------------------------------------------------------------ timestamps

  function StampValue(s: Stamp): Option<int> {
    if s.At? then Some(s.ms) else None
  }

  predicate OutOfOrder(created: Stamp, later: Stamp) {
    created.At? && later.At? && later.ms < created.ms
  }

  function Known(stamps: seq<Stamp>): seq<int> {
    if stamps == [] then []
    else (if stamps[0].At? then [stamps[0].ms] else []) + Known(stamps[1..])
  }

  // ------------------------------------------------------------------ activities

  datatype Activity = Activity(id: string, createdAt: int, updatedAt: Option<int>)

  predicate IsUnusableActivity(r: RawActivity) {
    !r.plain || !IsMeaningful(r.id) || !IsMeaningful(r.kind)
  }

  predicate HasBadActivityTimes(r: RawActivity) {
    !r.createdAt.At? || r.updatedAt.Unreadable? || OutOfOrder(r.createdAt, r.updatedAt)
  }

  function ActivityId(): RawActivity -> string {
    (r: RawActivity) => TrimmedText(r.id)
  }

  function ActivityOf(): RawActivity -> Activity {
    (r: RawActivity) =>
      Activity(TrimmedText(r.id), if r.createdAt.At? then r.createdAt.ms else 0, StampValue(r.updatedAt))
  }

  /** compareEvidenceRecords */
  function ActivityOrder(): (Activity, Activity) -> bool {
    (a: Activity, b: Activity) => Before(a.id, b.id) || (a.id == b.id && a.createdAt < b.createdAt)
  }

  function NormalizedActivities(records: seq<RawActivity>): Checked<seq<Activity>> {
    if (exists r | r in records :: IsUnusableActivity(r)) || !HasDistinctKeys(records, ActivityId()) then
      Bad(ACTIVITY_EVIDENCE_INVALID)
    else if exists r | r in records :: HasBadActivityTimes(r) then Bad(CANONICAL_TIMESTAMP_INVALID)
    else Good(SortBy(MapBy(records, ActivityOf()), ActivityOrder()))
  }

  function ActivityStamps(a: Activity): seq<int> {
    [a.createdAt] + if a.updatedAt.Some? then [a.updatedAt.value] else []
  }

  function AllActivityStamps(activities: seq<Activity>): seq<int> {
    if activities == [] then [] else ActivityStamps(activities[0]) + AllActivityStamps(activities[1..])
  }

  // ------------------------------------------------------------------ tasks

  datatype Task = Task(
    id: string, title: string, status: string, createdAt: int, updatedAt: Option<int>, dueAt: Option<int>,
    completedAt: Option<int>)

  predicate IsUnusableTask(r: RawTask) {
    !r.plain || !IsMeaningful(r.id) || !IsMeaningful(r.title)
  }

  function StatusText(r: RawTask): string {
    ToUpper(TrimmedText(r.status))
  }

  predicate HasUnknownStatus(r: RawTask) {
    !r.status.Text? || StatusText(r) !in {"OPEN", "IN_PROGRESS", "COMPLETED", "CANCELLED"}
  }

  predicate HasBadTaskTimes(r: RawTask) {
    || !r.createdAt.At? || r.updatedAt.Unreadable? || r.dueAt.Unreadable? || r.completedAt.Unreadable?
    || OutOfOrder(r.createdAt, r.updatedAt) || OutOfOrder(r.createdAt, r.completedAt)
  }

  predicate HasBadCompletion(r: RawTask) {
    (StatusText(r) == "COMPLETED") != r.completedAt.At?
  }

  function TaskId(): RawTask -> string {
    (r: RawTask) => TrimmedText(r.id)
  }

  function TaskOf(): RawTask -> Task {
    (r: RawTask) =>
      Task(TrimmedText(r.id), CollapseSpaces(TrimmedText(r.title)), StatusText(r),
        if r.createdAt.At? then r.createdAt.ms else 0, StampValue(r.updatedAt), StampValue(r.dueAt),
        StampValue(r.completedAt))
  }

  function TaskOrder(): (Task, Task) -> bool {
    (a: Task, b: Task) => Before(a.id, b.id) || (a.id == b.id && a.createdAt < b.createdAt)
  }

  function NormalizedTasks(records: seq<RawTask>): Checked<seq<Task>> {
    if (exists r | r in records :: IsUnusableTask(r)) || !HasDistinctKeys(records, TaskId()) then
      Bad(TASK_EVIDENCE_INVALID)
    else if exists r | r in records :: HasUnknownStatus(r) then Bad(TASK_STATUS_UNRECOGNIZED)
    else if exists r | r in records :: HasBadTaskTimes(r) then Bad(CANONICAL_TIMESTAMP_INVALID)
    else if exists r | r in records :: HasBadCompletion(r) then Bad(TASK_EVIDENCE_INVALID)
    else Good(SortBy(MapBy(records, TaskOf()), TaskOrder()))
  }

  function TaskStamps(t: Task): seq<int> {
    [t.createdAt] + (if t.updatedAt.Some? then [t.updatedAt.value] else [])
    + if t.completedAt.Some? then [t.completedAt.value] else []
  }

  function AllTaskStamps(tasks: seq<Task>): seq<int> {
    if tasks == [] then [] else TaskStamps(tasks[0]) + AllTaskStamps(tasks[1..])
  }

  // ------------------------------------------------------------------ next action and value

  datatype NextAction = NextAction(present: bool, source: string, value: Option<string>, taskIds: seq<string>)

  function ActiveTaskIds(tasks: seq<Task>): seq<string> {
    if tasks == [] then []
    else (if tasks[0].status in {"OPEN", "IN_PROGRESS"} then [tasks[0].id] else []) + ActiveTaskIds(tasks[1..])
  }

  function NormalizeNextAction(value: Raw, tasks: seq<Task>): Checked<NextAction> {
    if value.Number? || value.Other? then Bad(NEXT_ACTION_EVIDENCE_INVALID)
    else
      var text := if value.Text? then NormalizeText(value.text) else "";
      var known := if text != "" && !IsUnknownLiteral(text) then Some(text) else None;
      var ids := SortBy(ActiveTaskIds(tasks), TextOrder());
      Good(NextAction(known.Some? || ids != [],
        if known.Some? then "OPPORTUNITY" else if ids != [] then "TASK" else "NONE", known, ids))
  }

  datatype Commercial = Commercial(value: CommercialValue, basis: Json)

  function UnknownCommercial(reason: string, currencyPresent: bool): Commercial {
    Commercial(UNKNOWN_VALUE, JObject(map[
      "classification" := JText("UNKNOWN"), "reason" := JText(reason), "currency_present" := JBool(currencyPresent)]))
  }

  function CanonicalCommercialValue(value: Raw, currency: Raw): Checked<Commercial> {
    if !currency.Null? && !(currency.Text? && Deals.IsCurrencyCode(currency.text)) then Bad(COMMERCIAL_CURRENCY_INVALID)
    else if value.Null? || (value.Text? && (Trim(value.text) == "" || IsUnknownLiteral(Trim(value.text)))) then
      Good(UnknownCommercial("VALUE_UNKNOWN", !currency.Null?))
    else if value.Other? then Bad(COMMERCIAL_VALUE_INVALID)
    else
      var literal := if value.Text? then value.text else value.literal;
      if !IsDecimalNumberLiteral(literal) || IsNegativeNumberLiteral(literal)
         || !IsCanonicalNumericLiteralRepresentable(literal)
      then Bad(COMMERCIAL_VALUE_INVALID)
      else if currency.Null? then Good(UnknownCommercial("CURRENCY_UNKNOWN", false))
      else
        var normalized := NormalizeCommercialValue(CommercialValue("KNOWN", Some(literal), Some(currency.text)));
        if normalized.None? then Bad(COMMERCIAL_VALUE_INVALID)
        else
          Good(Commercial(normalized.value, JObject(map[
            "classification" := JText("KNOWN"), "amount_source" := JText("opportunity.value"),
            "currency_source" := JText("opportunity.currency")])))
  }

  // ------------------------------------------------------------------ baseline and freshness

  datatype Baseline = Baseline(kind: string, entityId: Option<string>, at: int)

  /** Latest creation first, then by id. */
  function NewerActivity(): (Activity, Activity) -> bool {
    (a: Activity, b: Activity) => b.createdAt < a.createdAt || (a.createdAt == b.createdAt && Before(a.id, b.id))
  }

  function LatestActivityBaseline(activities: seq<Activity>, created: Stamp): Option<Baseline> {
    if activities != [] then
      var sorted := SortBy(activities, NewerActivity());
      if sorted == [] then None else Some(Baseline("ACTIVITY", Some(sorted[0].id), sorted[0].createdAt))
    else if created.At? then Some(Baseline("OPPORTUNITY_CREATED", None, created.ms))
    else None
  }

  function Latest(stamps: seq<int>): Option<int> {
    if stamps == [] then None
    else
      var best := Latest(stamps[1..]);
      if best.None? || best.value < stamps[0] then Some(stamps[0]) else best
  }

  // ------------------------------------------------------------------ evidence

  /** Everything the evaluation needs once the records are normalised. */
  datatype Facts = Facts(
    entityId: string, stage: string, activities: seq<Activity>, nextAction: NextAction, commercial: Commercial,
    created: Stamp, stamps: seq<int>)

  function JOption(text: Option<string>): Json {
    if text.Some? then JText(text.value) else JNull
  }

  function JTexts(texts: seq<string>): seq<Json> {
    MapBy(texts, (t: string) => JText(t))
  }

  function BaselineJson(b: Baseline): Json {
    JObject(map["kind" := JText(b.kind), "entity_id" := JOption(b.entityId), "at" := JTime(b.at)])
  }

  function NextActionJson(n: NextAction): Json {
    JObject(map["present" := JBool(n.present), "source" := JText(n.source),
      "opportunity_value" := JOption(n.value), "active_task_ids" := JArray(JTexts(n.taskIds))])
  }

  const CRITERIA := JObject(map[
    "stale_after_days" := JNumber("14"), "stale_boundary" := JText("AT_OR_AFTER"),
    "source_freshness_days" := JNumber("90"), "source_freshness_boundary" := JText("AT_OR_BEFORE")])

  function EvidenceOf(f: Facts, b: Baseline, observedAt: int): map<string, Json> {
    map["criteria" := CRITERIA, "opportunity_stage" := JText(f.stage), "activity_baseline" := BaselineJson(b),
      "stalled_since" := JTime(b.at + STALE_AFTER_DAYS * DAY), "next_action" := NextActionJson(f.nextAction),
      "source_freshness" := JObject(map["observed_at" := JTime(observedAt), "maximum_age_days" := JNumber("90")]),
      "commercial_value_basis" := f.commercial.basis]
  }

  function ValueJson(v: CommercialValue): Json {
    JObject(map["classification" := JText(v.classification), "amount" := JOption(v.amount),
      "currency" := JOption(v.currency)])
  }

  function SourceBasis(f: Facts, b: Baseline, observedAt: int): Json {
    JObject(map["entity_id" := JText(f.entityId), "opportunity_stage" := JText(f.stage),
      "activity_baseline" := BaselineJson(b), "next_action" := NextActionJson(f.nextAction),
      "source_observed_at" := JTime(observedAt), "commercial_value" := ValueJson(f.commercial.value),
      "commercial_value_basis" := f.commercial.basis])
  }

  /** The detection, which does not mention the time of evaluation; hash is the SHA-256 of a JSON value. */
  function DetectionOf(f: Facts, b: Baseline, observedAt: int, hash: Json -> string): Input {
    Input("STALLED_OPPORTUNITY", "TGE", "OPPORTUNITY", f.entityId, observedAt,
      "sha256:" + hash(SourceBasis(f, b, observedAt)), "stalled-opportunity", "1", "STALE_WITHOUT_NEXT_ACTION", "MIXED",
      EvidenceOf(f, b, observedAt), f.commercial.value, "FOLLOW_UP", None,
      map["kind" := JText("CANONICAL_EVIDENCE_CHANGED"), "detector_id" := JText("stalled-opportunity"),
        "detector_version" := JText("1")])
  }

  // ------------------------------------------------------------------ evaluation

  function ActivityBelongs(id: string): RawActivity -> bool {
    (r: RawActivity) => r.opportunityId == Text(id)
  }

  function TaskBelongs(id: string): RawTask -> bool {
    (r: RawTask) => r.opportunityId == Text(id)
  }

  /** The checks that come before any look at the clock. */
  function GatherFacts(o: RawOpportunity, activities: Option<seq<RawActivity>>, tasks: Option<seq<RawTask>>)
    : Result
  {
    if !o.plain || !IsMeaningful(o.id) then Suppressed(DATA_HEALTH_SUPPRESSED, OPPORTUNITY_EVIDENCE_INVALID)
    else
      var id := TrimmedText(o.id);
      var stage := NormalizeStage(o.stage);
      if stage.None? then Suppressed(INSUFFICIENT_EVIDENCE, OPPORTUNITY_STAGE_MISSING)
      else if !IsActiveStage(stage.value) && !IsClosedStage(stage.value) then
        Suppressed(DATA_HEALTH_SUPPRESSED, OPPORTUNITY_STAGE_UNRECOGNIZED)
      else if activities.None? then Suppressed(DATA_HEALTH_SUPPRESSED, ACTIVITY_EVIDENCE_INVALID)
      else if tasks.None? then Suppressed(DATA_HEALTH_SUPPRESSED, TASK_EVIDENCE_INVALID)
      else
        var normalizedActivities := NormalizedActivities(Filter(activities.value, ActivityBelongs(id)));
        var normalizedTasks := NormalizedTasks(Filter(tasks.value, TaskBelongs(id)));
        FactsOf(o, id, stage.value, normalizedActivities, normalizedTasks)
  }

  datatype Result = Gathered(facts: Facts) | Suppressed(outcome: Outcome, reason: Reason)

  function FactsOf(o: RawOpportunity, id: string, stage: string, activities: Checked<seq<Activity>>,
                   tasks: Checked<seq<Task>>): Result
  {
    if activities.Bad? then Suppressed(DATA_HEALTH_SUPPRESSED, activities.reason)
    else if tasks.Bad? then Suppressed(DATA_HEALTH_SUPPRESSED, tasks.reason)
    else if o.createdAt.Unreadable? || o.updatedAt.Unreadable? || OutOfOrder(o.createdAt, o.updatedAt) then
      Suppressed(DATA_HEALTH_SUPPRESSED, CANONICAL_TIMESTAMP_INVALID)
    else
      var nextAction := NormalizeNextAction(o.nextAction, tasks.value);
      if nextAction.Bad? then Suppressed(DATA_HEALTH_SUPPRESSED, nextAction.reason)
      else
        var commercial := CanonicalCommercialValue(o.value, o.currency);
        if commercial.Bad? then Suppressed(DATA_HEALTH_SUPPRESSED, commercial.reason)
        else
          Gathered(Facts(id, stage, activities.value, nextAction.value, commercial.value, o.createdAt,
            Known([o.createdAt, o.updatedAt]) + AllActivityStamps(activities.value) + AllTaskStamps(tasks.value)))
  }

  /** The decisions that depend on the time of evaluation. */
  function Judge(f: Facts, at: int, hash: Json -> string): Evaluation {
    var baseline := LatestActivityBaseline(f.activities, f.created);
    var observedAt := Latest(f.stamps);
    if exists t | t in f.stamps :: t > at then Plainly(STALE_OR_UNTRUSTWORTHY_SOURCE, CANONICAL_TIMESTAMP_IN_FUTURE)
    else if baseline.None? || observedAt.None? then
      Plainly(INSUFFICIENT_EVIDENCE, MEANINGFUL_ACTIVITY_BASELINE_MISSING)
    else if at - observedAt.value > SOURCE_FRESHNESS_DAYS * DAY then
      Plainly(STALE_OR_UNTRUSTWORTHY_SOURCE, CANONICAL_SOURCE_TOO_OLD)
    else
      var evidence := EvidenceOf(f, baseline.value, observedAt.value);
      var value := f.commercial.value;
      if IsClosedStage(f.stage) then Evaluation(ELIGIBLE_NO_LEAK, OPPORTUNITY_CLOSED, evidence, value, None)
      else if at < baseline.value.at + STALE_AFTER_DAYS * DAY then
        Evaluation(ELIGIBLE_NO_LEAK, RECENT_MEANINGFUL_ACTIVITY, evidence, value, None)
      else if f.nextAction.present then Evaluation(ELIGIBLE_NO_LEAK, NEXT_ACTION_PRESENT, evidence, value, None)
      else
        Evaluation(ELIGIBLE_LEAK_DETECTED, STALE_WITHOUT_NEXT_ACTION, evidence, value,
          Some(DetectionOf(f, baseline.value, observedAt.value, hash)))
  }

  /** evaluateStalledOpportunity */
  function Evaluate(o: RawOpportunity, activities: Option<seq<RawActivity>>, tasks: Option<seq<RawTask>>, at: int,
                    hash: Json -> string): Evaluation {
    match GatherFacts(o, activities, tasks)
    case Suppressed(outcome, reason) => Plainly(outcome, reason)
    case Gathered(facts) => Judge(facts, at, hash)
  }
}

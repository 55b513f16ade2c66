/** Revenue actions: lifecycle, collections, and the service calls with their stops. */
module RevenueActions {
  import opened Text
  import opened Lists
  import opened Deals

  datatype Status = RECOMMENDED | PREPARED | APPROVED | EXECUTING | FAILED | EXECUTED | REJECTED | CANCELLED

  datatype Operation = PREPARE | APPROVE | EXECUTE

  datatype Transition =
    | CreatedAsRecommended
    | Prepared
    | Approved
    | Rejected(reason: Option<string>)
    | Cancelled
    | ExecutionStarted(attempt: nat)
    | Executed(mode: Mode, taskId: Option<string>, activityId: Option<string>)
    | ExecutionFailed
    | SupersededByCurrent(replacementType: ActionType, replacement: Basis)
    | SupersededClosed(stage: Stage, operation: Operation)
    | SupersededAsStale(current: Basis)

  datatype Entry = Entry(transition: Transition, at: int)

  /** The fields of an action that its audit log accounts for. */
  datatype Life = Life(
    status: Status, attempts: nat,
    preparedAt: Option<int>, approvedAt: Option<int>, rejectedAt: Option<int>, cancelledAt: Option<int>,
    executedAt: Option<int>, failedAt: Option<int>, rejectionReason: Option<string>,
    taskId: Option<string>, activityId: Option<string>)

  datatype Proposal =
    | Draft(channel: string, subject: string, body: string)
    | TaskProposal(title: string, normalizedTitle: string, semanticKey: string,
                   description: string, priority: Priority)

  datatype Request = Request(mode: Mode, at: int)

  datatype Verdict =
    | USER_CONFIRMED_COMPLETION | TASK_CREATED | TASK_REUSED | RECOVERED_LINKED_EFFECTS | EFFECT_FAILED

  datatype Result = Result(mode: Mode, verdict: Verdict)

  /** The snapshots of recommendation and evidence that an action keeps are those of its basis. */
  datatype Action = Action(
    id: string, opportunityId: string, actionType: ActionType, executionType: ExecutionType,
    basis: Basis, createdAt: int,
    proposed: Option<Proposal>, request: Option<Request>, result: Option<Result>,
    life: Life, audit: seq<Entry>)

  datatype Store = Store(
    actions: seq<Action>, tasks: seq<Task>, activities: seq<Activity>,
    opportunities: seq<Opportunity>, prospects: seq<Prospect>)

  // ------------------------------------------------------------------ lifecycle

  predicate IsActive(status: Status) {
    status in {RECOMMENDED, PREPARED, APPROVED, EXECUTING, FAILED}
  }

  predicate IsTerminal(status: Status) {
    status in {EXECUTED, REJECTED, CANCELLED}
  }

  const NEW_LIFE := Life(RECOMMENDED, 0, None, None, None, None, None, None, None, None, None)

  /** The life after one more audit entry; None when the lifecycle does not allow the entry. */
  function Advance(life: Life, e: Entry): Option<Life> {
    match e.transition
    case CreatedAsRecommended => None
    case Prepared =>
      if life.status == RECOMMENDED then Some(life.(status := PREPARED, preparedAt := Some(e.at))) else None
    case Approved =>
      if life.status == PREPARED then Some(life.(status := APPROVED, approvedAt := Some(e.at))) else None
    case Rejected(reason) =>
      if life.status == PREPARED
      then Some(life.(status := REJECTED, rejectedAt := Some(e.at), rejectionReason := reason)) else None
    case Cancelled =>
      if life.status in {RECOMMENDED, PREPARED}
      then Some(life.(status := CANCELLED, cancelledAt := Some(e.at))) else None
    case ExecutionStarted(attempt) =>
      if life.status in {APPROVED, EXECUTING, FAILED} && attempt == life.attempts + 1
      then Some(life.(status := EXECUTING, attempts := attempt)) else None
    case Executed(_, taskId, activityId) =>
      if life.status in {EXECUTING, FAILED}
      then Some(life.(status := EXECUTED, executedAt := Some(e.at), failedAt := None,
                      taskId := taskId, activityId := activityId))
      else None
    case ExecutionFailed =>
      if life.status == EXECUTING then Some(life.(status := FAILED, failedAt := Some(e.at))) else None
    case _ =>
      if IsActive(life.status) then Some(life.(status := CANCELLED, cancelledAt := Some(e.at))) else None
  }

  /** The life that an audit log tells, None when it is no log of an action. */
  function Replay(audit: seq<Entry>): Option<Life> {
    if audit == [] then None
    else if |audit| == 1 then
      if audit[0].transition == CreatedAsRecommended then Some(NEW_LIFE) else None
    else
      var before := Replay(audit[..|audit| - 1]);
      if before.None? then None else Advance(before.value, audit[|audit| - 1])
  }

  function ExpectedExecutionType(t: ActionType): ExecutionType {
    if t == FOLLOW_UP then COMMUNICATION_DRAFT else INTERNAL_TASK
  }

  function ExpectedMode(a: Action): Mode {
    if a.executionType == COMMUNICATION_DRAFT then MANUAL_CONFIRMED else SYSTEM_INTERNAL
  }

  function TypeName(t: ActionType): string {
    match t
    case FOLLOW_UP => "FOLLOW_UP"
    case CREATE_TASK => "CREATE_TASK"
    case RESEARCH => "RESEARCH"
    case QUALIFY => "QUALIFY"
    case ADVANCE => "ADVANCE"
  }

  /** A record with one more audit entry and the fields that go with it. */
  function Move(a: Action, life: Life, transition: Transition, at: int): Action {
    a.(life := life, audit := a.audit + [Entry(transition, at)])
  }

  function Superseded(a: Action, transition: Transition, at: int): Action {
    Move(a, a.life.(status := CANCELLED, cancelledAt := Some(at)), transition, at)
  }

  function FollowUpSubject(facts: Facts): string {
    var business := facts.business;
    if facts.stage == PROPOSAL then
      "Following up" + if business.Some? then " on the " + business.value + " proposal" else " on the proposal"
    else
      "Following up" + if business.Some? then " on " + business.value else " on the opportunity"
  }

  function FollowUpBody(facts: Facts): string {
    var greeting := if facts.contact.Some? then "Hi " + facts.contact.value + "," else "Hello,";
    var whom := if facts.business.Some? then " for " + facts.business.value else "";
    var context :=
      (if facts.service.Some? then "the " + facts.service.value + " opportunity" else "the opportunity") + whom;
    greeting + "\n\nI\U{2019}m following up regarding " + context + ".\n"
    + "Please let me know if you have any questions or if anything is needed to progress the next step.\n\n"
    + "Kind regards"
  }

  function BuildProposedExecution(a: Action): Proposal {
    if a.executionType == COMMUNICATION_DRAFT then
      Draft("EMAIL", FollowUpSubject(a.basis.facts), FollowUpBody(a.basis.facts))
    else
      var title := TextOr(a.basis.recommendation.taskTitle, a.basis.recommendation.title);
      var normalized := ToLower(NormalizeText(title));
      TaskProposal(title, normalized, a.opportunityId + ":" + TypeName(a.actionType) + ":" + normalized,
        a.basis.recommendation.reason, a.basis.recommendation.priority)
  }

  // ------------------------------------------------------------------ collections

  function HasId(id: string): Action -> bool {
    (a: Action) => a.id == id
  }

  function ActionIndex(s: Store, id: string): Option<nat> {
    FirstIndex(s.actions, HasId(id))
  }

  function LinkedTo(actionId: string): Task -> bool {
    (t: Task) => t.metadata.revenueActionId == Some(actionId)
  }

  function EffectOf(actionId: string): Activity -> bool {
    (v: Activity) => v.metadata.revenueActionId == Some(actionId)
  }

  function LinkedTasks(s: Store, actionId: string): seq<Task> {
    Filter(s.tasks, LinkedTo(actionId))
  }

  function LinkedActivities(s: Store, actionId: string): seq<Activity> {
    Filter(s.activities, EffectOf(actionId))
  }

  function OpportunityWithId(id: string): Opportunity -> bool {
    (o: Opportunity) => o.id == id
  }

  function OpportunityIndex(s: Store, id: string): Option<nat> {
    FirstIndex(s.opportunities, OpportunityWithId(id))
  }

  /** replaceRevenueAction */
  function WithAction(s: Store, a: Action): Store {
    var i := ActionIndex(s, a.id);
    if i.None? then s else s.(actions := s.actions[i.value := a])
  }

  /** What the current recommendation of an opportunity would be fingerprinted on. */
  function CurrentBasis(s: Store, opportunityId: string, exclude: Option<string>, now: int): Option<Basis> {
    var i := OpportunityIndex(s, opportunityId);
    if i.None? then None
    else
      var activities :=
        if exclude.Some? then WithoutEffectsOf(s.activities, exclude.value) else s.activities;
      Some(BasisOf(s.opportunities[i.value], s.prospects, activities, now))
  }

  // ------------------------------------------------------------------ results

  datatype Error =
    | ACTION_NOT_FOUND | OPPORTUNITY_NOT_FOUND | OPPORTUNITY_CLOSED | INVALID_TRANSITION | STALE
    | RECOVERY_REQUIRED(actionId: string) | EFFECT_CONFLICT(reason: Conflict)
    | MANUAL_CONFIRMATION_REQUIRED | EXECUTION_FAILED

  datatype Conflict =
    | MULTIPLE_LINKED_EFFECTS | UNEXPECTED_LINKED_TASK | INVALID_LINKED_ACTIVITY
    | INVALID_LINKED_INTERNAL_EFFECT | EFFECTS_EXIST_BEFORE_EXECUTION_STARTED

  /** Interrupted: the call did not answer. */
  datatype Outcome = Success(action: Action, duplicate: bool) | Failure(error: Error) | Interrupted

  datatype Step = Step(store: Store, outcome: Outcome)

  // ------------------------------------------------------------------ materialisation

  predicate IsIncompatible(a: Action, basis: Basis) {
    && a.opportunityId == basis.opportunityId
    && IsActive(a.life.status)
    && !(a.actionType == basis.recommendation.actionType && a.basis == basis)
  }

  predicate NeedsRecovery(s: Store, a: Action) {
    && a.life.status in {EXECUTING, FAILED}
    && (LinkedTasks(s, a.id) != [] || LinkedActivities(s, a.id) != [])
  }

  function Blocks(s: Store, basis: Basis): Action -> bool {
    (a: Action) => IsIncompatible(a, basis) && NeedsRecovery(s, a)
  }

  function IsDuplicateFor(basis: Basis): Action -> bool {
    (a: Action) =>
      && a.opportunityId == basis.opportunityId && a.actionType == basis.recommendation.actionType
      && a.basis == basis && IsActive(a.life.status)
  }

  function CancelIncompatible(actions: seq<Action>, basis: Basis, at: int): (r: seq<Action>)
    ensures |r| == |actions|
    ensures forall i | 0 <= i < |actions| :: r[i] ==
              if IsIncompatible(actions[i], basis)
              then Superseded(actions[i], SupersededByCurrent(basis.recommendation.actionType, basis), at)
              else actions[i]
  {
    if actions == [] then []
    else
      [if IsIncompatible(actions[0], basis)
       then Superseded(actions[0], SupersededByCurrent(basis.recommendation.actionType, basis), at)
       else actions[0]] + CancelIncompatible(actions[1..], basis, at)
  }

  function NewAction(id: string, basis: Basis, at: int): Action {
    var t := basis.recommendation.actionType;
    Action(id, basis.opportunityId, t, ExpectedExecutionType(t), basis, at,
      None, None, None, NEW_LIFE, [Entry(CreatedAsRecommended, at)])
  }

  /** materializeRevenueAction; interrupted: the process stops between its two writes. */
  function Materialize(s: Store, opportunityId: string, newId: string, at: int, interrupted: bool): Step {
    var o := OpportunityIndex(s, opportunityId);
    if o.None? then Step(s, Failure(OPPORTUNITY_NOT_FOUND))
    else if IsClosed(s.opportunities[o.value].stage) then Step(s, Failure(OPPORTUNITY_CLOSED))
    else
      var basis := CurrentBasis(s, opportunityId, None, at).value;
      var blocking := FirstIndex(s.actions, Blocks(s, basis));
      if blocking.Some? then Step(s, Failure(RECOVERY_REQUIRED(s.actions[blocking.value].id)))
      else
        var cleared := s.(actions := CancelIncompatible(s.actions, basis, at));
        if interrupted then Step(cleared, Interrupted)
        else
          var duplicate := FirstIndex(cleared.actions, IsDuplicateFor(basis));
          if duplicate.Some? then Step(cleared, Success(cleared.actions[duplicate.value], true))
          else
            var a := NewAction(newId, basis, at);
            Step(cleared.(actions := cleared.actions + [a]), Success(a, false))
  }

  // ------------------------------------------------------------------ preparation and approval

  /** Refuses, and cancels the action, when the opportunity closed or its evidence changed. */
  function Validate(s: Store, a: Action, operation: Operation, exclude: Option<string>, at: int): Option<Step> {
    var o := OpportunityIndex(s, a.opportunityId);
    if o.None? then Some(Step(s, Failure(OPPORTUNITY_NOT_FOUND)))
    else
      var stage := s.opportunities[o.value].stage;
      var current := CurrentBasis(s, a.opportunityId, exclude, at).value;
      if IsClosed(stage) then
        Some(Step(WithAction(s, Superseded(a, SupersededClosed(stage, operation), at)),
          Failure(OPPORTUNITY_CLOSED)))
      else if current != a.basis then
        Some(Step(WithAction(s, Superseded(a, SupersededAsStale(current), at)), Failure(STALE)))
      else None
  }

  function PreparedAction(a: Action, at: int): Action {
    Move(a, a.life.(status := PREPARED, preparedAt := Some(at)), Prepared, at)
      .(proposed := Some(BuildProposedExecution(a)))
  }

  function ApprovedAction(a: Action, at: int): Action {
    Move(a, a.life.(status := APPROVED, approvedAt := Some(at)), Approved, at)
  }

  function RejectedAction(a: Action, reason: string, at: int): Action {
    var text := if NormalizeText(reason) == "" then None else Some(NormalizeText(reason));
    Move(a, a.life.(status := REJECTED, rejectedAt := Some(at), rejectionReason := text), Rejected(text), at)
  }

  function CancelledAction(a: Action, at: int): Action {
    Move(a, a.life.(status := CANCELLED, cancelledAt := Some(at)), Cancelled, at)
  }

  function Prepare(s: Store, id: string, at: int): Step {
    var i := ActionIndex(s, id);
    if i.None? then Step(s, Failure(ACTION_NOT_FOUND))
    else
      var a := s.actions[i.value];
      if a.life.status !in {RECOMMENDED, PREPARED} then Step(s, Failure(INVALID_TRANSITION))
      else
        var refused := Validate(s, a, PREPARE, None, at);
        if refused.Some? then refused.value
        else if a.life.status == PREPARED then Step(s, Success(a, true))
        else Step(WithAction(s, PreparedAction(a, at)), Success(PreparedAction(a, at), false))
  }

  function Approve(s: Store, id: string, at: int): Step {
    var i := ActionIndex(s, id);
    if i.None? then Step(s, Failure(ACTION_NOT_FOUND))
    else
      var a := s.actions[i.value];
      if a.life.status !in {PREPARED, APPROVED} then Step(s, Failure(INVALID_TRANSITION))
      else
        var refused := Validate(s, a, APPROVE, None, at);
        if refused.Some? then refused.value
        else if a.life.status == APPROVED then Step(s, Success(a, true))
        else Step(WithAction(s, ApprovedAction(a, at)), Success(ApprovedAction(a, at), false))
  }

  function Reject(s: Store, id: string, reason: string, at: int): Step {
    var i := ActionIndex(s, id);
    if i.None? then Step(s, Failure(ACTION_NOT_FOUND))
    else
      var a := s.actions[i.value];
      if a.life.status == REJECTED then Step(s, Success(a, true))
      else if a.life.status != PREPARED then Step(s, Failure(INVALID_TRANSITION))
      else Step(WithAction(s, RejectedAction(a, reason, at)), Success(RejectedAction(a, reason, at), false))
  }

  function Cancel(s: Store, id: string, at: int): Step {
    var i := ActionIndex(s, id);
    if i.None? then Step(s, Failure(ACTION_NOT_FOUND))
    else
      var a := s.actions[i.value];
      if a.life.status == CANCELLED then Step(s, Success(a, true))
      else if a.life.status !in {RECOMMENDED, PREPARED} then Step(s, Failure(INVALID_TRANSITION))
      else Step(WithAction(s, CancelledAction(a, at)), Success(CancelledAction(a, at), false))
  }

  // ------------------------------------------------------------------ effects

  predicate TaskMatches(t: Task, a: Action) {
    && a.proposed.Some? && a.proposed.value.TaskProposal?
    && t.opportunityId == a.opportunityId
    && t.open
    && t.metadata.source in {REVENUE_ACTION, DEAL_INTELLIGENCE}
    && t.metadata.revenueActionId == Some(a.id)
    && t.metadata.actionType == Some(a.actionType)
    && t.metadata.effectType == Some(INTERNAL_TASK)
    && t.metadata.normalizedTitle == Some(a.proposed.value.normalizedTitle)
    && t.metadata.semanticKey == Some(a.proposed.value.semanticKey)
    && t.priority == Some(a.proposed.value.priority)
    && t.dueAt == None
  }

  predicate IsEquivalentOpenTask(t: Task, a: Action) {
    && a.proposed.Some? && a.proposed.value.TaskProposal?
    && t.opportunityId == a.opportunityId
    && t.open
    && t.metadata.revenueActionId.None?
    && t.metadata.source == DEAL_INTELLIGENCE
    && t.metadata.actionType == Some(a.actionType)
    && t.metadata.normalizedTitle == Some(a.proposed.value.normalizedTitle)
    && t.priority == Some(a.proposed.value.priority)
    && t.dueAt == None
  }

  function EquivalentOpenTask(a: Action): Task -> bool {
    (t: Task) => IsEquivalentOpenTask(t, a)
  }

  predicate ProposesTask(a: Action) {
    a.executionType == INTERNAL_TASK && a.proposed.Some? && a.proposed.value.TaskProposal?
  }

  predicate ProposesMessage(a: Action) {
    a.executionType == COMMUNICATION_DRAFT && a.proposed.Some? && a.proposed.value.Draft?
  }

  function LinkedTask(t: Task, a: Action): Task
    requires ProposesTask(a)
  {
    t.(metadata := t.metadata.(
      revenueActionId := Some(a.id), actionType := Some(a.actionType), effectType := Some(INTERNAL_TASK),
      normalizedTitle := Some(a.proposed.value.normalizedTitle),
      semanticKey := Some(a.proposed.value.semanticKey)))
  }

  function NewTask(a: Action, taskId: string, at: int): Task
    requires ProposesTask(a)
  {
    var p := a.proposed.value;
    Task(taskId, a.opportunityId, p.title, Some(p.priority), None, true, at,
      TaskMetadata(REVENUE_ACTION, Some(a.id), Some(a.actionType), Some(INTERNAL_TASK),
        Some(p.normalizedTitle), Some(p.semanticKey)))
  }

  function TaskIndex(tasks: seq<Task>, id: string): (r: Option<nat>)
    ensures r.Some? <==> exists i | 0 <= i < |tasks| :: tasks[i].id == id
    ensures r.Some? ==> r.value < |tasks| && tasks[r.value].id == id
  {
    FirstIndex(tasks, (t: Task) => t.id == id)
  }

  datatype TaskEffect = TaskEffect(tasks: seq<Task>, task: Task, created: bool)

  /** createTaskForRevenueAction: the task already linked, else an equivalent open one, else a new one. */
  function EnsureTask(tasks: seq<Task>, a: Action, taskId: string, at: int): TaskEffect
    requires ProposesTask(a)
  {
    var own := FirstIndex(tasks, LinkedTo(a.id));
    if own.Some? then TaskEffect(tasks, tasks[own.value], false)
    else
      var equivalent := FirstIndex(tasks, EquivalentOpenTask(a));
      if equivalent.Some? then
        var i := TaskIndex(tasks, tasks[equivalent.value].id).value;
        var t := LinkedTask(tasks[i], a);
        TaskEffect(tasks[i := t], t, false)
      else
        var t := NewTask(a, taskId, at);
        TaskEffect(tasks + [t], t, true)
  }

  function CommunicationRecord(a: Action, activityId: string, at: int): Activity
    requires ProposesMessage(a)
  {
    Activity(activityId, a.opportunityId, "REVENUE_ACTION_MANUALLY_CONFIRMED", at,
      ActivityMetadata(REVENUE_ACTION, Some(a.id), Some(a.actionType), Some(COMMUNICATION_DRAFT),
        Some(MANUAL_CONFIRMED), Some(a.proposed.value.channel), None))
  }

  function TaskRecord(a: Action, task: Task, activityId: string, at: int): Activity {
    Activity(activityId, a.opportunityId, "REVENUE_ACTION_TASK_EXECUTED", at,
      ActivityMetadata(REVENUE_ACTION, Some(a.id), Some(a.actionType), Some(INTERNAL_TASK),
        Some(SYSTEM_INTERNAL), None, Some(task.id)))
  }

  /** createActivityForRevenueAction: the activity already there, else the given one. */
  function EnsureActivity(activities: seq<Activity>, record: Activity, actionId: string)
    : (seq<Activity>, Activity)
  {
    var own := FirstIndex(activities, EffectOf(actionId));
    if own.Some? then (activities, activities[own.value]) else (activities + [record], record)
  }

  /** setOpportunityNextAction */
  function SetNextAction(opportunities: seq<Opportunity>, id: string, title: string): seq<Opportunity> {
    var i := FirstIndex(opportunities, OpportunityWithId(id));
    if i.None? then opportunities
    else opportunities[i.value := opportunities[i.value].(nextAction := Some(title))]
  }

  datatype Inspection =
    | Conflicting(reason: Conflict)
    | Consistent(complete: bool, task: Option<Task>, activity: Option<Activity>)
  {
    predicate HasEffects() { Consistent? && (task.Some? || activity.Some?) }
  }

  predicate IsValidMessageRecord(v: Activity, a: Action) {
    && v.opportunityId == a.opportunityId
    && v.kind == "REVENUE_ACTION_MANUALLY_CONFIRMED"
    && v.metadata.source == REVENUE_ACTION
    && v.metadata.revenueActionId == Some(a.id)
    && v.metadata.actionType == Some(a.actionType)
    && v.metadata.effectType == Some(COMMUNICATION_DRAFT)
    && v.metadata.mode == Some(MANUAL_CONFIRMED)
    && a.proposed.Some? && a.proposed.value.Draft?
    && v.metadata.channel == Some(a.proposed.value.channel)
  }

  predicate IsValidTaskRecord(v: Activity, a: Action, task: Task) {
    && v.opportunityId == a.opportunityId
    && v.kind == "REVENUE_ACTION_TASK_EXECUTED"
    && v.metadata.source == REVENUE_ACTION
    && v.metadata.revenueActionId == Some(a.id)
    && v.metadata.actionType == Some(a.actionType)
    && v.metadata.effectType == Some(INTERNAL_TASK)
    && v.metadata.mode == Some(SYSTEM_INTERNAL)
    && v.metadata.taskId == Some(task.id)
  }

  /** The next action that a completed CREATE_TASK leaves at its opportunity. */
  predicate NextActionIsSet(s: Store, a: Action) {
    a.actionType == CREATE_TASK ==>
      var o := OpportunityIndex(s, a.opportunityId);
      && o.Some? && a.proposed.Some? && a.proposed.value.TaskProposal?
      && s.opportunities[o.value].nextAction == Some(a.proposed.value.title)
  }

  function HeadOf<T>(s: seq<T>): Option<T> {
    if s == [] then None else Some(s[0])
  }

  /** inspectExecutionEffects */
  function Inspect(s: Store, a: Action): Inspection {
    var tasks := LinkedTasks(s, a.id);
    var activities := LinkedActivities(s, a.id);
    var task := HeadOf(tasks);
    var activity := HeadOf(activities);
    if |tasks| > 1 || |activities| > 1 then Conflicting(MULTIPLE_LINKED_EFFECTS)
    else if a.executionType == COMMUNICATION_DRAFT then
      if task.Some? then Conflicting(UNEXPECTED_LINKED_TASK)
      else if activity.None? then Consistent(false, None, None)
      else if IsValidMessageRecord(activity.value, a) then Consistent(true, None, activity)
      else Conflicting(INVALID_LINKED_ACTIVITY)
    else if (task.Some? && !TaskMatches(task.value, a))
         || (activity.Some? && !(task.Some? && IsValidTaskRecord(activity.value, a, task.value))) then
      Conflicting(INVALID_LINKED_INTERNAL_EFFECT)
    else
      Consistent(task.Some? && activity.Some? && NextActionIsSet(s, a), task, activity)
  }

  // ------------------------------------------------------------------ execution

  /** The points of an execution between two of its writes, in order. */
  datatype Point = BeforeStart | Started | TaskDone | ActivityDone | OpportunityDone | Finished

  /** Where, if anywhere, the process stops or a write throws. */
  datatype Fault = NoFault | Crash(point: Point) | Throw(point: Point)

  function StartedAction(a: Action, at: int): Action {
    Move(a, a.life.(status := EXECUTING, attempts := a.life.attempts + 1),
      ExecutionStarted(a.life.attempts + 1), at)
      .(request := Some(Request(ExpectedMode(a), at)))
  }

  function ExecutedAction(a: Action, result: Result, taskId: Option<string>, activityId: Option<string>, at: int)
    : Action
  {
    Move(a, a.life.(status := EXECUTED, executedAt := Some(at), failedAt := None,
                    taskId := taskId, activityId := activityId),
      Executed(result.mode, taskId, activityId), at)
      .(result := Some(result))
  }

  function FailedAction(a: Action, at: int): Action {
    Move(a, a.life.(status := FAILED, failedAt := Some(at)), ExecutionFailed, at)
      .(result := Some(Result(ExpectedMode(a), EFFECT_FAILED)))
  }

  /** Fresh identifiers for the records that one execution may create. */
  datatype FreshIds = FreshIds(taskId: string, activityId: string)

  predicate HasProposal(a: Action) {
    ProposesTask(a) || ProposesMessage(a)
  }

  /** The task an execution ends up with; a message has none. */
  function TaskOf(s: Store, a: Action, ids: FreshIds, at: int): Option<TaskEffect>
    requires HasProposal(a)
  {
    if ProposesTask(a) then Some(EnsureTask(s.tasks, a, ids.taskId, at)) else None
  }

  function AfterTask(s: Store, a: Action, ids: FreshIds, at: int): Store
    requires HasProposal(a)
  {
    var e := TaskOf(s, a, ids, at);
    if e.Some? then s.(tasks := e.value.tasks) else s
  }

  function ActivityOf(s: Store, a: Action, ids: FreshIds, at: int): (seq<Activity>, Activity)
    requires HasProposal(a)
  {
    var record :=
      if ProposesTask(a) then TaskRecord(a, EnsureTask(s.tasks, a, ids.taskId, at).task, ids.activityId, at)
      else CommunicationRecord(a, ids.activityId, at);
    EnsureActivity(s.activities, record, a.id)
  }

  function AfterActivity(s: Store, a: Action, ids: FreshIds, at: int): Store
    requires HasProposal(a)
  {
    AfterTask(s, a, ids, at).(activities := ActivityOf(s, a, ids, at).0)
  }

  function AfterOpportunity(s: Store, a: Action, ids: FreshIds, at: int): Store
    requires HasProposal(a)
  {
    var t := AfterActivity(s, a, ids, at);
    if ProposesTask(a) && a.actionType == CREATE_TASK then
      t.(opportunities :=
        SetNextAction(s.opportunities, a.opportunityId, EnsureTask(s.tasks, a, ids.taskId, at).task.title))
    else t
  }

  function ResultOf(s: Store, a: Action, ids: FreshIds, at: int): Result
    requires HasProposal(a)
  {
    if ProposesTask(a) then
      Result(SYSTEM_INTERNAL,
        if EnsureTask(s.tasks, a, ids.taskId, at).created then TASK_CREATED else TASK_REUSED)
    else Result(MANUAL_CONFIRMED, USER_CONFIRMED_COMPLETION)
  }

  /** The record that finalizeExecution writes; s is the store once a is EXECUTING. */
  function Finalized(s: Store, a: Action, ids: FreshIds, at: int): Action
    requires HasProposal(a)
  {
    var task := TaskOf(s, a, ids, at);
    ExecutedAction(a, ResultOf(s, a, ids, at), if task.Some? then Some(task.value.task.id) else None,
      Some(ActivityOf(s, a, ids, at).1.id), at)
  }

  /** The store at a point of the attempt that starts action a in store s. */
  function StoreAt(s: Store, a: Action, ids: FreshIds, at: int, point: Point): Store
    requires HasProposal(a)
  {
    var started := StartedAction(a, at);
    var s1 := WithAction(s, started);
    match point
    case BeforeStart => s
    case Started => s1
    case TaskDone => AfterTask(s1, started, ids, at)
    case ActivityDone => AfterActivity(s1, started, ids, at)
    case OpportunityDone => AfterOpportunity(s1, started, ids, at)
    case Finished => WithAction(AfterOpportunity(s1, started, ids, at), Finalized(s1, started, ids, at))
  }

  /** One attempt from the EXECUTION_STARTED record on, with the failure record of the catch block. */
  function Attempt(s: Store, a: Action, ids: FreshIds, at: int, fault: Fault): Step
    requires HasProposal(a)
  {
    match fault
    case NoFault =>
      var started := StartedAction(a, at);
      Step(StoreAt(s, a, ids, at, Finished), Success(Finalized(WithAction(s, started), started, ids, at), false))
    case Crash(point) => Step(StoreAt(s, a, ids, at, point), Interrupted)
    case Throw(point) =>
      if point == BeforeStart then Step(s, Interrupted)
      else
        Step(WithAction(StoreAt(s, a, ids, at, point), FailedAction(StartedAction(a, at), at)),
          Failure(EXECUTION_FAILED))
  }

  predicate InRecovery(a: Action) {
    a.life.status in {EXECUTING, FAILED}
  }

  /** reconcileExecution on complete effects */
  function Recovered(a: Action, effects: Inspection, at: int): Action
    requires effects.Consistent?
  {
    ExecutedAction(a, Result(ExpectedMode(a), RECOVERED_LINKED_EFFECTS),
      if effects.task.Some? then Some(effects.task.value.id) else None,
      if effects.activity.Some? then Some(effects.activity.value.id) else None, at)
  }

  /** The checks of executeRevenueAction before it looks at effects. */
  function Refusal(a: Action, confirmed: bool): Option<Error> {
    if a.life.status !in {APPROVED, FAILED, EXECUTING} || a.life.approvedAt.None? then Some(INVALID_TRANSITION)
    else if a.executionType == COMMUNICATION_DRAFT && !confirmed then Some(MANUAL_CONFIRMATION_REQUIRED)
    else if InRecovery(a) && !(a.request.Some? && a.request.value.mode == ExpectedMode(a)) then
      Some(INVALID_TRANSITION)
    else None
  }

  /** What executeRevenueAction does with an action that passed those checks. */
  function Proceed(s: Store, a: Action, ids: FreshIds, at: int, fault: Fault): Step
    requires HasProposal(a)
  {
    var effects := Inspect(s, a);
    if effects.Conflicting? then Step(s, Failure(EFFECT_CONFLICT(effects.reason)))
    else if !InRecovery(a) && effects.HasEffects() then
      Step(s, Failure(EFFECT_CONFLICT(EFFECTS_EXIST_BEFORE_EXECUTION_STARTED)))
    else if effects.complete then
      Step(WithAction(s, Recovered(a, effects, at)), Success(Recovered(a, effects, at), false))
    else
      var refused :=
        Validate(s, a, EXECUTE, if effects.HasEffects() then Some(a.id) else None, at);
      if refused.Some? then refused.value else Attempt(s, a, ids, at, fault)
  }

  /** executeRevenueAction; the actions of the store carry the proposal their type asks for. */
  function Execute(s: Store, id: string, confirmed: bool, ids: FreshIds, at: int, fault: Fault): Step
    requires forall a | a in s.actions :: a.life.approvedAt.Some? ==> HasProposal(a)
  {
    var i := ActionIndex(s, id);
    if i.None? then Step(s, Failure(ACTION_NOT_FOUND))
    else
      var a := s.actions[i.value];
      if a.life.status == EXECUTED then Step(s, Success(a, true))
      else
        var refusal := Refusal(a, confirmed);
        if refusal.Some? then Step(s, Failure(refusal.value)) else Proceed(s, a, ids, at, fault)
  }
}

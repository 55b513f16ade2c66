/** The revenue action service: each method is the call's writes, proved against its step. */
module RevenueActionService {
  import opened Text
  import opened Lists
  import opened Deals
  import RA = RevenueActions
  import opened RevenueActions
  import RI = RevenueActionInvariant
  import RR = RevenueActionRuns

  class LocalService {
    var actions: seq<Action>
    var tasks: seq<Task>
    var activities: seq<Activity>
    var opportunities: seq<Opportunity>
    var prospects: seq<Prospect>

    function State(): Store
      reads this
    {
      Store(actions, tasks, activities, opportunities, prospects)
    }

    constructor (s: Store)
      ensures State() == s
    {
      actions, tasks, activities := s.actions, s.tasks, s.activities;
      opportunities, prospects := s.opportunities, s.prospects;
    }

    method ReplaceRevenueAction(a: Action)
      modifies `actions
      ensures State() == WithAction(old(State()), a)
    {
      var i := ActionIndex(State(), a.id);
      if i.Some? {
        actions := actions[i.value := a];
      }
    }

    method Materialize(opportunityId: string, newId: string, at: int, interrupted: bool)
      returns (outcome: Outcome)
      modifies `actions
      ensures Step(State(), outcome) == RA.Materialize(old(State()), opportunityId, newId, at, interrupted)
      ensures RI.Inv(old(State())) && ActionIndex(old(State()), newId).None? ==> RR.GoodStep(old(State()), State())
    {
      hide RR.GoodStep, RI.Inv;
      MaterializeKept(State(), opportunityId, newId, at, interrupted);
      var o := OpportunityIndex(State(), opportunityId);
      if o.None? {
        return Failure(OPPORTUNITY_NOT_FOUND);
      }
      if IsClosed(opportunities[o.value].stage) {
        return Failure(OPPORTUNITY_CLOSED);
      }
      var s := State();
      var basis := CurrentBasis(s, opportunityId, None, at).value;
      var blocking := FirstIndex(actions, Blocks(s, basis));
      if blocking.Some? {
        return Failure(RECOVERY_REQUIRED(actions[blocking.value].id));
      }
      actions := CancelIncompatible(actions, basis, at);
      if interrupted {
        return Interrupted;
      }
      var duplicate := FirstIndex(actions, IsDuplicateFor(basis));
      if duplicate.Some? {
        return Success(actions[duplicate.value], true);
      }
      var a := NewAction(newId, basis, at);
      actions := actions + [a];
      return Success(a, false);
    }

    method ValidateCurrent(a: Action, operation: Operation, exclude: Option<string>, at: int)
      returns (refused: Option<Outcome>)
      modifies `actions
      ensures var r := Validate(old(State()), a, operation, exclude, at);
              if r.None? then refused.None? && State() == old(State())
              else refused == Some(r.value.outcome) && State() == r.value.store
    {
      var o := OpportunityIndex(State(), a.opportunityId);
      if o.None? {
        return Some(Failure(OPPORTUNITY_NOT_FOUND));
      }
      var stage := opportunities[o.value].stage;
      var current := CurrentBasis(State(), a.opportunityId, exclude, at).value;
      if IsClosed(stage) {
        ReplaceRevenueAction(Superseded(a, SupersededClosed(stage, operation), at));
        return Some(Failure(OPPORTUNITY_CLOSED));
      }
      if current != a.basis {
        ReplaceRevenueAction(Superseded(a, SupersededAsStale(current), at));
        return Some(Failure(STALE));
      }
      return None;
    }

    method Prepare(id: string, at: int) returns (outcome: Outcome)
      modifies `actions
      ensures Step(State(), outcome) == RA.Prepare(old(State()), id, at)
      ensures RI.Inv(old(State())) ==> RR.GoodStep(old(State()), State())
    {
      hide RR.GoodStep, RI.Inv;
      PrepareKept(State(), id, at);
      var i := ActionIndex(State(), id);
      if i.None? {
        return Failure(ACTION_NOT_FOUND);
      }
      var a := actions[i.value];
      if a.life.status !in {RECOMMENDED, PREPARED} {
        return Failure(INVALID_TRANSITION);
      }
      var refused := ValidateCurrent(a, PREPARE, None, at);
      if refused.Some? {
        return refused.value;
      }
      if a.life.status == PREPARED {
        return Success(a, true);
      }
      ReplaceRevenueAction(PreparedAction(a, at));
      return Success(PreparedAction(a, at), false);
    }

    method Approve(id: string, at: int) returns (outcome: Outcome)
      modifies `actions
      ensures Step(State(), outcome) == RA.Approve(old(State()), id, at)
      ensures RI.Inv(old(State())) ==> RR.GoodStep(old(State()), State())
    {
      hide RR.GoodStep, RI.Inv;
      ApproveKept(State(), id, at);
      var i := ActionIndex(State(), id);
      if i.None? {
        return Failure(ACTION_NOT_FOUND);
      }
      var a := actions[i.value];
      if a.life.status !in {PREPARED, APPROVED} {
        return Failure(INVALID_TRANSITION);
      }
      var refused := ValidateCurrent(a, APPROVE, None, at);
      if refused.Some? {
        return refused.value;
      }
      if a.life.status == APPROVED {
        return Success(a, true);
      }
      ReplaceRevenueAction(ApprovedAction(a, at));
      return Success(ApprovedAction(a, at), false);
    }

    method Reject(id: string, reason: string, at: int) returns (outcome: Outcome)
      modifies `actions
      ensures Step(State(), outcome) == RA.Reject(old(State()), id, reason, at)
      ensures RI.Inv(old(State())) ==> RR.GoodStep(old(State()), State())
    {
      hide RR.GoodStep, RI.Inv;
      RejectKept(State(), id, reason, at);
      var i := ActionIndex(State(), id);
      if i.None? {
        return Failure(ACTION_NOT_FOUND);
      }
      var a := actions[i.value];
      if a.life.status == REJECTED {
        return Success(a, true);
      }
      if a.life.status != PREPARED {
        return Failure(INVALID_TRANSITION);
      }
      ReplaceRevenueAction(RejectedAction(a, reason, at));
      return Success(RejectedAction(a, reason, at), false);
    }

    method Cancel(id: string, at: int) returns (outcome: Outcome)
      modifies `actions
      ensures Step(State(), outcome) == RA.Cancel(old(State()), id, at)
      ensures RI.Inv(old(State())) ==> RR.GoodStep(old(State()), State())
    {
      hide RR.GoodStep, RI.Inv;
      CancelKept(State(), id, at);
      var i := ActionIndex(State(), id);
      if i.None? {
        return Failure(ACTION_NOT_FOUND);
      }
      var a := actions[i.value];
      if a.life.status == CANCELLED {
        return Success(a, true);
      }
      if a.life.status !in {RECOMMENDED, PREPARED} {
        return Failure(INVALID_TRANSITION);
      }
      ReplaceRevenueAction(CancelledAction(a, at));
      return Success(CancelledAction(a, at), false);
    }

    method CreateTask(a: Action, taskId: string, at: int) returns (task: Task, created: bool)
      requires ProposesTask(a)
      modifies `tasks
      ensures TaskEffect(tasks, task, created) == EnsureTask(old(tasks), a, taskId, at)
    {
      var own := FirstIndex(tasks, LinkedTo(a.id));
      if own.Some? {
        return tasks[own.value], false;
      }
      var equivalent := FirstIndex(tasks, EquivalentOpenTask(a));
      if equivalent.Some? {
        var i := TaskIndex(tasks, tasks[equivalent.value].id).value;
        task := LinkedTask(tasks[i], a);
        tasks := tasks[i := task];
        return task, false;
      }
      task := NewTask(a, taskId, at);
      tasks := tasks + [task];
      created := true;
    }

    method CreateActivity(record: Activity, actionId: string) returns (activity: Activity)
      modifies `activities
      ensures (activities, activity) == EnsureActivity(old(activities), record, actionId)
    {
      var own := FirstIndex(activities, EffectOf(actionId));
      if own.Some? {
        return activities[own.value];
      }
      activities := activities + [record];
      return record;
    }

    method SetOpportunityNextAction(id: string, title: string)
      modifies `opportunities
      ensures opportunities == SetNextAction(old(opportunities), id, title)
    {
      var i := FirstIndex(opportunities, OpportunityWithId(id));
      if i.None? {
        return;
      }
      if opportunities[i.value].nextAction == Some(title) {
        return;
      }
      opportunities := opportunities[i.value := opportunities[i.value].(nextAction := Some(title))];
    }

    /** The catch block after a throw; a stopped process writes nothing more. */
    method StopAt(fault: Fault, started: Action, at: int) returns (outcome: Outcome)
      requires fault != NoFault
      modifies `actions
      ensures outcome == if fault.Crash? then Interrupted else Failure(EXECUTION_FAILED)
      ensures State() ==
              if fault.Crash? then old(State()) else WithAction(old(State()), FailedAction(started, at))
    {
      if fault.Crash? {
        return Interrupted;
      }
      ReplaceRevenueAction(FailedAction(started, at));
      return Failure(EXECUTION_FAILED);
    }

    /** The task step of an execution; a message has none. */
    method DoTask(a: Action, ids: FreshIds, at: int) returns (task: Option<Task>, result: Result)
      requires HasProposal(a)
      modifies `tasks
      ensures State() == AfterTask(old(State()), a, ids, at)
      ensures result == ResultOf(old(State()), a, ids, at)
      ensures task == if ProposesTask(a) then Some(EnsureTask(old(tasks), a, ids.taskId, at).task) else None
    {
      if !ProposesTask(a) {
        return None, Result(MANUAL_CONFIRMED, USER_CONFIRMED_COMPLETION);
      }
      var t, created := CreateTask(a, ids.taskId, at);
      return Some(t), Result(SYSTEM_INTERNAL, if created then TASK_CREATED else TASK_REUSED);
    }

    method DoActivity(a: Action, task: Option<Task>, ids: FreshIds, at: int, ghost s: Store)
      returns (activity: Activity)
      requires HasProposal(a) && State() == AfterTask(s, a, ids, at)
      requires task == if ProposesTask(a) then Some(EnsureTask(s.tasks, a, ids.taskId, at).task) else None
      modifies `activities
      ensures State() == AfterActivity(s, a, ids, at) && activity == ActivityOf(s, a, ids, at).1
    {
      hide EnsureTask, EnsureActivity;
      var record :=
        if task.Some? then TaskRecord(a, task.value, ids.activityId, at)
        else CommunicationRecord(a, ids.activityId, at);
      activity := CreateActivity(record, a.id);
    }

    method DoOpportunity(a: Action, task: Option<Task>, ids: FreshIds, at: int, ghost s: Store)
      requires HasProposal(a) && State() == AfterActivity(s, a, ids, at)
      requires task == if ProposesTask(a) then Some(EnsureTask(s.tasks, a, ids.taskId, at).task) else None
      modifies `opportunities
      ensures State() == AfterOpportunity(s, a, ids, at)
    {
      hide EnsureTask, EnsureActivity, SetNextAction;
      if task.Some? && a.actionType == CREATE_TASK {
        SetOpportunityNextAction(a.opportunityId, task.value.title);
      }
    }

    method Attempt(a: Action, ids: FreshIds, at: int, fault: Fault) returns (outcome: Outcome)
      requires HasProposal(a)
      modifies this
      ensures Step(State(), outcome) == RA.Attempt(old(State()), a, ids, at, fault)
    {
      hide AfterTask, AfterActivity, AfterOpportunity, WithAction, EnsureTask, ActivityOf, ResultOf;
      if fault in {Crash(BeforeStart), Throw(BeforeStart)} {
        return Interrupted;
      }
      var started := StartedAction(a, at);
      ReplaceRevenueAction(started);
      ghost var s1 := State();
      if fault in {Crash(Started), Throw(Started)} {
        outcome := StopAt(fault, started, at);
        return;
      }
      var task, result := DoTask(started, ids, at);
      if fault in {Crash(TaskDone), Throw(TaskDone)} {
        outcome := StopAt(fault, started, at);
        return;
      }
      var activity := DoActivity(started, task, ids, at, s1);
      if fault in {Crash(ActivityDone), Throw(ActivityDone)} {
        outcome := StopAt(fault, started, at);
        return;
      }
      DoOpportunity(started, task, ids, at, s1);
      if fault in {Crash(OpportunityDone), Throw(OpportunityDone)} {
        outcome := StopAt(fault, started, at);
        return;
      }
      var done := ExecutedAction(started, result,
        if task.Some? then Some(task.value.id) else None, Some(activity.id), at);
      ReplaceRevenueAction(done);
      if fault != NoFault {
        outcome := StopAt(fault, started, at);
        return;
      }
      return Success(done, false);
    }

    method Execute(id: string, confirmed: bool, ids: FreshIds, at: int, fault: Fault) returns (outcome: Outcome)
      requires forall a | a in actions :: a.life.approvedAt.Some? ==> HasProposal(a)
      modifies this
      ensures Step(State(), outcome) == RA.Execute(old(State()), id, confirmed, ids, at, fault)
      ensures RI.Inv(old(State())) && RI.AreFresh(old(State()), ids) ==> RR.GoodStep(old(State()), State())
    {
      hide RR.GoodStep, RI.Inv;
      ExecuteKept(State(), id, confirmed, ids, at, fault);
      hide Inspect, CurrentBasis, RA.Attempt, Recovered;
      var i := ActionIndex(State(), id);
      if i.None? {
        return Failure(ACTION_NOT_FOUND);
      }
      var a := actions[i.value];
      if a.life.status == EXECUTED {
        return Success(a, true);
      }
      var refusal := Refusal(a, confirmed);
      if refusal.Some? {
        return Failure(refusal.value);
      }
      var effects := Inspect(State(), a);
      if effects.Conflicting? {
        return Failure(EFFECT_CONFLICT(effects.reason));
      }
      if !InRecovery(a) && effects.HasEffects() {
        return Failure(EFFECT_CONFLICT(EFFECTS_EXIST_BEFORE_EXECUTION_STARTED));
      }
      if effects.complete {
        ReplaceRevenueAction(Recovered(a, effects, at));
        return Success(Recovered(a, effects, at), false);
      }
      var refused := ValidateCurrent(a, EXECUTE, if effects.HasEffects() then Some(a.id) else None, at);
      if refused.Some? {
        return refused.value;
      }
      outcome := Attempt(a, ids, at, fault);
    }
  }

  // ------------------------------------------------------------------ what the steps keep

  lemma MaterializeKept(s: Store, opportunityId: string, newId: string, at: int, interrupted: bool)
    ensures RI.Inv(s) && ActionIndex(s, newId).None? ==>
              RR.GoodStep(s, RA.Materialize(s, opportunityId, newId, at, interrupted).store)
  {
    hide RI.Inv, RR.GoodStep, RA.Materialize, ActionIndex;
    if RI.Inv(s) && ActionIndex(s, newId).None? { RR.MaterializeIsGood(s, opportunityId, newId, at, interrupted); }
  }

  lemma PrepareKept(s: Store, id: string, at: int)
    ensures RI.Inv(s) ==> RR.GoodStep(s, RA.Prepare(s, id, at).store)
  {
    hide RI.Inv, RR.GoodStep, RA.Prepare;
    if RI.Inv(s) { RR.PrepareIsGood(s, id, at); }
  }

  lemma ApproveKept(s: Store, id: string, at: int)
    ensures RI.Inv(s) ==> RR.GoodStep(s, RA.Approve(s, id, at).store)
  {
    hide RI.Inv, RR.GoodStep, RA.Approve;
    if RI.Inv(s) { RR.ApproveIsGood(s, id, at); }
  }

  lemma RejectKept(s: Store, id: string, reason: string, at: int)
    ensures RI.Inv(s) ==> RR.GoodStep(s, RA.Reject(s, id, reason, at).store)
  {
    hide RI.Inv, RR.GoodStep, RA.Reject;
    if RI.Inv(s) { RR.RejectIsGood(s, id, reason, at); }
  }

  lemma CancelKept(s: Store, id: string, at: int)
    ensures RI.Inv(s) ==> RR.GoodStep(s, RA.Cancel(s, id, at).store)
  {
    hide RI.Inv, RR.GoodStep, RA.Cancel;
    if RI.Inv(s) { RR.CancelIsGood(s, id, at); }
  }

  lemma ExecuteKept(s: Store, id: string, confirmed: bool, ids: FreshIds, at: int, fault: Fault)
    requires forall a | a in s.actions :: a.life.approvedAt.Some? ==> HasProposal(a)
    ensures RI.Inv(s) && RI.AreFresh(s, ids) ==> RR.GoodStep(s, RA.Execute(s, id, confirmed, ids, at, fault).store)
  {
    hide RI.Inv, RR.GoodStep, RA.Execute, RI.AreFresh, HasProposal;
    if RI.Inv(s) && RI.AreFresh(s, ids) { RR.ExecuteIsGood(s, id, confirmed, ids, at, fault); }
  }
}

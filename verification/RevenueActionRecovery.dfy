/** Crash recovery: executing again completes an interrupted execution with the same effects. */
module RevenueActionRecovery {
  import opened Text
  import opened Lists
  import opened Deals
  import opened RevenueActions
  import opened RevenueActionInvariant
  import opened RevenueActionRuns

  // ------------------------------------------------------------------ what the inspector accepts

  predicate AreValidEffects(t: seq<Task>, v: seq<Activity>, a: Action) {
    && |t| <= 1 && |v| <= 1
    && if a.executionType == COMMUNICATION_DRAFT then
         t == [] && (v != [] ==> IsValidMessageRecord(v[0], a))
       else
         && (t != [] ==> TaskMatches(t[0], a))
         && (v != [] ==> t != [] && IsValidTaskRecord(v[0], a, t[0]))
  }

  predicate HasValidEffects(s: Store, a: Action) {
    AreValidEffects(LinkedTasks(s, a.id), LinkedActivities(s, a.id), a)
  }

  predicate HasNoEffects(s: Store, a: Action) {
    LinkedTasks(s, a.id) == [] && LinkedActivities(s, a.id) == []
  }

  predicate IsComplete(s: Store, a: Action) {
    && LinkedActivities(s, a.id) != []
    && (a.executionType == INTERNAL_TASK ==> LinkedTasks(s, a.id) != [] && NextActionIsSet(s, a))
  }

  /** Why effects are not valid. */
  function ConflictOf(tasks: nat, activities: nat, isMessage: bool): Conflict {
    if tasks > 1 || activities > 1 then MULTIPLE_LINKED_EFFECTS
    else if !isMessage then INVALID_LINKED_INTERNAL_EFFECT
    else if tasks == 1 then UNEXPECTED_LINKED_TASK else INVALID_LINKED_ACTIVITY
  }

  lemma InspectorAccepts(s: Store, a: Action)
    ensures Inspect(s, a).Consistent? <==> HasValidEffects(s, a)
    ensures !HasValidEffects(s, a) ==>
              Inspect(s, a).reason == ConflictOf(|LinkedTasks(s, a.id)|, |LinkedActivities(s, a.id)|,
                                        a.executionType == COMMUNICATION_DRAFT)
    ensures HasValidEffects(s, a) ==>
              var e := Inspect(s, a);
              && (e.complete <==> IsComplete(s, a))
              && e.task == HeadOf(LinkedTasks(s, a.id)) && e.activity == HeadOf(LinkedActivities(s, a.id))
              && (!e.HasEffects() <==> HasNoEffects(s, a))
  {
    hide LinkedTasks, LinkedActivities, TaskMatches, IsValidMessageRecord, IsValidTaskRecord, NextActionIsSet;
  }

  /**
   * The inspector accepts exactly the records that executions of the action write, but for what it does not read: the
   * task of a message record, the channel of a task record, and the title and origin of a task.
   */
  lemma AcceptedAreWritten(a: Action, v: Activity, t: Task)
    requires HasProposal(a)
    ensures ProposesMessage(a) ==>
              (IsValidMessageRecord(v, a) <==>
               v.(metadata := v.metadata.(taskId := None)) == CommunicationRecord(a, v.id, v.createdAt))
    ensures IsValidTaskRecord(v, a, t) <==>
            v.(metadata := v.metadata.(channel := None)) == TaskRecord(a, t, v.id, v.createdAt)
    ensures ProposesTask(a) ==>
              (TaskMatches(t, a) <==>
               && t.metadata.source in {REVENUE_ACTION, DEAL_INTELLIGENCE}
               && t.(title := a.proposed.value.title, metadata := t.metadata.(source := REVENUE_ACTION))
                  == NewTask(a, t.id, t.createdAt))
  {
  }

  /** A task is taken over exactly when it is an unlinked one of the advice that matches once it is linked. */
  lemma TakenOverExactlyWhen(a: Action, t: Task)
    requires ProposesTask(a)
    ensures IsEquivalentOpenTask(t, a) <==>
            && t.metadata.revenueActionId.None? && t.metadata.source == DEAL_INTELLIGENCE
            && t.metadata.actionType == Some(a.actionType)
            && t.metadata.normalizedTitle == Some(a.proposed.value.normalizedTitle)
            && TaskMatches(LinkedTask(t, a), a)
  {
  }

  /** The records written say what they are the effect of. */
  lemma WrittenRecordsTell(a: Action, task: Task, id: string, at: int)
    ensures ProposesMessage(a) ==>
              var v := CommunicationRecord(a, id, at);
              && v.opportunityId == a.opportunityId && v.kind == "REVENUE_ACTION_MANUALLY_CONFIRMED"
              && v.createdAt == at && v.metadata.revenueActionId == Some(a.id)
              && v.metadata.actionType == Some(a.actionType) && v.metadata.mode == Some(MANUAL_CONFIRMED)
    ensures var v := TaskRecord(a, task, id, at);
            && v.opportunityId == a.opportunityId && v.kind == "REVENUE_ACTION_TASK_EXECUTED"
            && v.createdAt == at && v.metadata.revenueActionId == Some(a.id) && v.metadata.taskId == Some(task.id)
            && v.metadata.actionType == Some(a.actionType) && v.metadata.mode == Some(SYSTEM_INTERNAL)
    ensures ProposesTask(a) ==>
              var t := NewTask(a, id, at);
              && t.opportunityId == a.opportunityId && t.open && t.title == a.proposed.value.title
              && t.priority == Some(a.proposed.value.priority) && t.metadata.revenueActionId == Some(a.id)
  {
  }

  /** The parts of an action that its effects are checked against. */
  predicate HaveSameTarget(a: Action, b: Action) {
    && b.id == a.id && b.opportunityId == a.opportunityId && b.actionType == a.actionType
    && b.executionType == a.executionType && b.proposed == a.proposed && b.basis == a.basis
  }

  lemma SameTargetSameEffects(s: Store, a: Action, b: Action)
    requires HaveSameTarget(a, b)
    ensures HasValidEffects(s, a) == HasValidEffects(s, b)
    ensures IsComplete(s, a) == IsComplete(s, b)
  {
    hide LinkedTasks, LinkedActivities, OpportunityIndex;
  }

  // ------------------------------------------------------------------ the recommendation seen without own effects

  /** The advice the action was approved for is still the current one, its own effects left out. */
  predicate IsCurrent(s: Store, a: Action, now: int) {
    var o := OpportunityIndex(s, a.opportunityId);
    && o.Some? && !IsClosed(s.opportunities[o.value].stage)
    && CurrentBasis(s, a.opportunityId, Some(a.id), now) == Some(a.basis)
  }

  lemma NoEffectsNoExclusion(s: Store, a: Action, now: int)
    requires LinkedActivities(s, a.id) == []
    ensures CurrentBasis(s, a.opportunityId, None, now) == CurrentBasis(s, a.opportunityId, Some(a.id), now)
  {
    hide BasisOf, Filter, WithoutEffectsOf;
    forall i | 0 <= i < |s.activities| ensures s.activities[i].metadata.revenueActionId != Some(a.id) {
      FilterMembers(s.activities, EffectOf(a.id), s.activities[i]);
    }
    NothingIsLeftOut(s.activities, a.id);
  }

  /** The basis without own effects ignores actions, tasks and the action's own activity. */
  lemma OwnActivityIsLeftOut(s: Store, a: Action, record: Activity, now: int)
    requires EffectOf(a.id)(record)
    ensures var after := EnsureActivity(s.activities, record, a.id).0;
            WithoutEffectsOf(after, a.id) == WithoutEffectsOf(s.activities, a.id)
  {
    hide WithoutEffectsOf;
    EffectsAreLeftOut(s.activities, [record], [], a.id);
    assert s.activities + [record] + [] == s.activities + [record] && s.activities + [] == s.activities;
  }

  lemma CurrentAgrees(s: Store, t: Store, a: Action, b: Action, now: int)
    requires t.opportunities == s.opportunities && t.prospects == s.prospects && HaveSameTarget(a, b)
    requires WithoutEffectsOf(t.activities, a.id) == WithoutEffectsOf(s.activities, a.id)
    ensures IsCurrent(t, b, now) == IsCurrent(s, a, now)
  {
    hide BasisOf, WithoutEffectsOf;
  }

  // ------------------------------------------------------------------ the effects an attempt leaves

  lemma EnsuredTaskMatches(tasks: seq<Task>, a: Action, taskId: string, at: int)
    requires ProposesTask(a) && HaveDistinctTaskIds(tasks)
    requires var own := Filter(tasks, LinkedTo(a.id)); own != [] ==> TaskMatches(own[0], a)
    ensures TaskMatches(EnsureTask(tasks, a, taskId, at).task, a)
  {
    FirstIsFirstOfFilter(tasks, LinkedTo(a.id));
    var equivalent := FirstIndex(tasks, EquivalentOpenTask(a));
    if FirstIndex(tasks, LinkedTo(a.id)).None? && equivalent.Some? {
      assert IsEquivalentOpenTask(tasks[equivalent.value], a);
      assert TaskIndex(tasks, tasks[equivalent.value].id) == equivalent;
    }
  }

  lemma EnsuredActivityIsValid(s: Store, a: Action, ids: FreshIds, at: int)
    requires HasProposal(a) && HasValidEffects(s, a)
    requires ProposesTask(a) && LinkedActivities(s, a.id) != [] ==>
               LinkedTasks(s, a.id) == [EnsureTask(s.tasks, a, ids.taskId, at).task]
    ensures var v := ActivityOf(s, a, ids, at).1;
            if ProposesTask(a) then IsValidTaskRecord(v, a, EnsureTask(s.tasks, a, ids.taskId, at).task)
            else IsValidMessageRecord(v, a)
  {
    hide Filter, EnsureTask, TaskMatches;
    FirstIsFirstOfFilter(s.activities, EffectOf(a.id));
  }

  /** After the task step exactly the ensured task is linked, and it matches. */
  lemma AfterTaskIsValid(s: Store, i: nat, ids: FreshIds, at: int)
    requires Inv(s) && i < |s.actions| && s.actions[i].life.status == EXECUTING && AreFresh(s, ids)
    requires HasProposal(s.actions[i]) && HasValidEffects(s, s.actions[i])
    ensures HasValidEffects(AfterTask(s, s.actions[i], ids, at), s.actions[i])
  {
    hide Filter, Inv, EnsureTask, TaskMatches, IsValidTaskRecord, IsValidMessageRecord;
    var a := s.actions[i];
    ExecutingHasStarted(s, i);
    AfterTaskKeepsInv(s, i, ids, at);
    if ProposesTask(a) {
      InvHasDistinctTaskIds(s);
      EnsuredTaskMatches(s.tasks, a, ids.taskId, at);
    }
  }

  lemma InvHasDistinctTaskIds(s: Store)
    requires Inv(s)
    ensures HaveDistinctTaskIds(s.tasks)
  {
  }

  lemma AfterActivityIsValid(s: Store, i: nat, ids: FreshIds, at: int)
    requires Inv(s) && i < |s.actions| && s.actions[i].life.status == EXECUTING && AreFresh(s, ids)
    requires HasProposal(s.actions[i]) && HasValidEffects(s, s.actions[i])
    ensures var a := s.actions[i]; var t := AfterActivity(s, a, ids, at);
            && HasValidEffects(t, a) && LinkedActivities(t, a.id) != []
            && (ProposesTask(a) ==> LinkedTasks(t, a.id) == [EnsureTask(s.tasks, a, ids.taskId, at).task])
  {
    hide Filter, Inv, EnsureTask, TaskMatches, IsValidTaskRecord, IsValidMessageRecord, ActivityOf, AfterTask;
    var a := s.actions[i];
    ExecutingHasStarted(s, i);
    AfterTaskIsValid(s, i, ids, at);
    AfterTaskKeepsInv(s, i, ids, at);
    AfterActivityKeepsInv(s, i, ids, at);
    EffectStores(s, a, ids, at);
    EnsuredActivityIsValid(s, a, ids, at);
  }

  // ------------------------------------------------------------------ the title left at the opportunity

  /** The title of the task that an execution will end up with. */
  function TitleInUse(tasks: seq<Task>, a: Action): string
    requires ProposesTask(a)
  {
    var own := FirstIndex(tasks, LinkedTo(a.id));
    var equivalent := FirstIndex(tasks, EquivalentOpenTask(a));
    if own.Some? then tasks[own.value].title
    else if equivalent.Some? then tasks[equivalent.value].title
    else a.proposed.value.title
  }

  lemma TitleOfEnsuredTask(tasks: seq<Task>, a: Action, taskId: string, at: int)
    requires ProposesTask(a) && HaveDistinctTaskIds(tasks)
    ensures EnsureTask(tasks, a, taskId, at).task.title == TitleInUse(tasks, a)
    ensures TitleInUse(EnsureTask(tasks, a, taskId, at).tasks, a) == TitleInUse(tasks, a)
  {
    var own := FirstIndex(tasks, LinkedTo(a.id));
    if own.None? {
      var equivalent := FirstIndex(tasks, EquivalentOpenTask(a));
      if equivalent.Some? {
        assert TaskIndex(tasks, tasks[equivalent.value].id) == equivalent;
        var t := LinkedTask(tasks[equivalent.value], a);
        FirstIndexIs(tasks[equivalent.value := t], equivalent.value, LinkedTo(a.id));
      } else {
        FirstIndexIs(tasks + [NewTask(a, taskId, at)], |tasks|, LinkedTo(a.id));
      }
    }
  }

  predicate IsTaskCreation(a: Action) {
    a.actionType == CREATE_TASK && ProposesTask(a)
  }

  /** Recording the title as next action would leave the basis of the action as it is. */
  predicate LeavesBasis(a: Action, title: string) {
    !HasValue(Some(title)) && RecordedNextAction(Some(title)) == a.basis.facts.nextAction
  }

  /**
   * The condition for recovery, checkable before the execution: the task to be used carries the proposed
   * title to the letter, or its title does not count as a next action at all.
   */
  predicate TitleIsSafe(s: Store, a: Action) {
    IsTaskCreation(a) ==>
      TitleInUse(s.tasks, a) == a.proposed.value.title || LeavesBasis(a, TitleInUse(s.tasks, a))
  }

  /** Writing the next action keeps the advice current exactly when the title leaves the basis alone. */
  lemma CurrentAfterNextAction(s: Store, a: Action, title: string, now: int)
    requires IsCurrent(s, a, now) && a.basis.recommendation.actionType == CREATE_TASK
    ensures var t := s.(opportunities := SetNextAction(s.opportunities, a.opportunityId, title));
            && (IsCurrent(t, a, now) <==> LeavesBasis(a, title))
            && OpportunityIndex(t, a.opportunityId).Some?
            && t.opportunities[OpportunityIndex(t, a.opportunityId).value].nextAction == Some(title)
            && !IsClosed(t.opportunities[OpportunityIndex(t, a.opportunityId).value].stage)
  {
    hide WithoutEffectsOf, LatestActivity, FirstValue, FirstContact, FindProspect, NormalizeText, AmountFacts;
    var i := OpportunityIndex(s, a.opportunityId).value;
    var o := s.opportunities[i];
    var t := s.(opportunities := SetNextAction(s.opportunities, a.opportunityId, title));
    FirstIndexIs(t.opportunities, i, OpportunityWithId(a.opportunityId));
    BasisWithNextAction(o, o.(nextAction := Some(title)), s.prospects,
      WithoutEffectsOf(s.activities, a.id), now);
  }

  /** Two opportunities that differ in the next action only. */
  lemma BasisWithNextAction(o: Opportunity, n: Opportunity, prospects: seq<Prospect>, activities: seq<Activity>,
                            now: int)
    requires n == o.(nextAction := n.nextAction) && !HasValue(o.nextAction)
    ensures BasisOf(n, prospects, activities, now) == BasisOf(o, prospects, activities, now) <==>
            !HasValue(n.nextAction) && RecordedNextAction(n.nextAction) == RecordedNextAction(o.nextAction)
    ensures BasisOf(o, prospects, activities, now).facts.nextAction == RecordedNextAction(o.nextAction)
  {
    hide LatestActivity, FindProspect, RecordedNextAction, HasValue, AmountFacts, CurrencyFacts, FirstValue,
      FirstContact, IsNotPositive;
  }

  // ------------------------------------------------------------------ recoverable states

  ghost predicate IsCurrentAt(s: Store, a: Action, times: set<int>) {
    forall now | now in times :: IsCurrent(s, a, now)
  }

  /**
   * An execution of the action, first or repeated, will go through at each of the given times: its effects
   * so far are valid, the title in use is safe, and it is complete or the advice it stands on holds.
   */
  ghost predicate IsRecoverable(s: Store, a: Action, times: set<int>) {
    && IsRunnable(a) && HasProposal(a) && HasValidEffects(s, a)
    && (InRecovery(a) || HasNoEffects(s, a))
    && TitleIsSafe(s, a)
    && (IsComplete(s, a) || IsCurrentAt(s, a, times))
  }

  lemma TitleIsSafeFor(s: Store, t: Store, a: Action, b: Action)
    requires t.tasks == s.tasks && HaveSameTarget(a, b)
    ensures TitleIsSafe(t, b) == TitleIsSafe(s, a)
  {
    hide HasValue, RecordedNextAction;
    if IsTaskCreation(a) {
      forall k | 0 <= k < |s.tasks| ensures EquivalentOpenTask(a)(s.tasks[k]) == EquivalentOpenTask(b)(s.tasks[k]) {
      }
      SameFirstIndex(s.tasks, EquivalentOpenTask(a), EquivalentOpenTask(b));
    }
  }

  lemma {:induction false} SameFirstIndex<T>(s: seq<T>, p: T -> bool, q: T -> bool)
    requires forall k | 0 <= k < |s| :: p(s[k]) == q(s[k])
    ensures FirstIndex(s, p) == FirstIndex(s, q)
  {
    if s != [] && !p(s[0]) { SameFirstIndex(s[1..], p, q); }
  }

  lemma AllCurrentAgree(s: Store, t: Store, a: Action, b: Action, times: set<int>)
    requires t.opportunities == s.opportunities && t.prospects == s.prospects && HaveSameTarget(a, b)
    requires WithoutEffectsOf(t.activities, a.id) == WithoutEffectsOf(s.activities, a.id)
    ensures IsCurrentAt(t, b, times) == IsCurrentAt(s, a, times)
  {
    hide IsCurrent, WithoutEffectsOf;
    forall now | now in times ensures IsCurrent(t, b, now) == IsCurrent(s, a, now) {
      CurrentAgrees(s, t, a, b, now);
    }
  }

  /** A further record of the same action over the same effects. */
  lemma RecordChangeIsRecoverable(s: Store, t: Store, a: Action, b: Action, times: set<int>)
    requires IsRecoverable(s, a, times) && HaveSameTarget(a, b) && InRecovery(b)
    requires t == s.(actions := t.actions)
    ensures IsRecoverable(t, b, times)
  {
    hide TitleIsSafe, IsComplete, HasValidEffects, IsCurrentAt, WithoutEffectsOf;
    SameTargetSameEffects(s, a, b);
    AllCurrentAgree(s, t, a, b, times);
    TitleIsSafeFor(s, t, a, b);
    ActionsDoNotMatter(s, t, b);
  }

  lemma ActionsDoNotMatter(s: Store, t: Store, b: Action)
    requires t == s.(actions := t.actions)
    ensures HasValidEffects(t, b) == HasValidEffects(s, b) && IsComplete(t, b) == IsComplete(s, b)
  {
    hide Filter, AreValidEffects;
  }

  lemma TaskDoneIsRecoverable(s: Store, i: nat, ids: FreshIds, at: int, times: set<int>)
    requires Inv(s) && i < |s.actions| && s.actions[i].life.status == EXECUTING && AreFresh(s, ids)
    requires IsRecoverable(s, s.actions[i], times) && IsCurrentAt(s, s.actions[i], times)
    ensures var t := AfterTask(s, s.actions[i], ids, at);
            IsRecoverable(t, s.actions[i], times) && IsCurrentAt(t, s.actions[i], times)
  {
    hide Inv, IsComplete, HasValidEffects, IsCurrentAt, WithoutEffectsOf, EnsureTask, TitleInUse, LeavesBasis;
    var a := s.actions[i];
    var t := AfterTask(s, a, ids, at);
    AfterTaskIsValid(s, i, ids, at);
    AllCurrentAgree(s, t, a, a, times);
    if ProposesTask(a) {
      InvHasDistinctTaskIds(s);
      TitleOfEnsuredTask(s.tasks, a, ids.taskId, at);
    }
  }

  lemma ActivityDoneIsRecoverable(s: Store, i: nat, ids: FreshIds, at: int, times: set<int>)
    requires Inv(s) && i < |s.actions| && s.actions[i].life.status == EXECUTING && AreFresh(s, ids)
    requires IsRecoverable(s, s.actions[i], times) && IsCurrentAt(s, s.actions[i], times)
    ensures var t := AfterActivity(s, s.actions[i], ids, at);
            IsRecoverable(t, s.actions[i], times) && IsCurrentAt(t, s.actions[i], times)
  {
    hide Inv, IsComplete, HasValidEffects, IsCurrentAt, WithoutEffectsOf, EnsureTask, EnsureActivity, AfterTask,
      TitleIsSafe;
    var a := s.actions[i];
    var t := AfterTask(s, a, ids, at);
    var u := AfterActivity(s, a, ids, at);
    EffectStores(s, a, ids, at);
    TaskDoneIsRecoverable(s, i, ids, at, times);
    AfterActivityIsValid(s, i, ids, at);
    TitleIsSafeFor(t, u, a, a);
    var record :=
      if ProposesTask(a) then TaskRecord(a, EnsureTask(s.tasks, a, ids.taskId, at).task, ids.activityId, at)
      else CommunicationRecord(a, ids.activityId, at);
    OwnActivityIsLeftOut(s, a, record, at);
    AllCurrentAgree(s, u, a, a, times);
  }

  lemma OpportunityDoneIsRecoverable(s: Store, i: nat, ids: FreshIds, at: int, times: set<int>)
    requires Inv(s) && i < |s.actions| && s.actions[i].life.status == EXECUTING && AreFresh(s, ids)
    requires IsRecoverable(s, s.actions[i], times) && IsCurrentAt(s, s.actions[i], times + {at})
    requires s.actions[i].actionType == s.actions[i].basis.recommendation.actionType
    ensures IsRecoverable(AfterOpportunity(s, s.actions[i], ids, at), s.actions[i], times)
  {
    hide Inv, IsCurrent, WithoutEffectsOf, EnsureTask, AfterActivity, AfterTask, SetNextAction, TitleInUse,
      LeavesBasis, Filter, AreValidEffects, FirstIndex;
    var a := s.actions[i];
    var u := AfterActivity(s, a, ids, at);
    var o := AfterOpportunity(s, a, ids, at);
    ActivityDoneIsRecoverable(s, i, ids, at, times + {at});
    if IsTaskCreation(a) {
      InvHasDistinctTaskIds(s);
      AfterActivityIsValid(s, i, ids, at);
      TitleOfEnsuredTask(s.tasks, a, ids.taskId, at);
      EffectStores(s, a, ids, at);
      var title := TitleInUse(s.tasks, a);
      forall now | now in times + {at}
        ensures LeavesBasis(a, title) ==> IsCurrent(o, a, now)
        ensures OpportunityIndex(o, a.opportunityId).Some?
        ensures o.opportunities[OpportunityIndex(o, a.opportunityId).value].nextAction == Some(title)
      {
        CurrentAfterNextAction(u, a, title, now);
      }
      TitleIsSafeFor(u, o, a, a);
    }
  }

  // ------------------------------------------------------------------ one more attempt

  lemma PointIsRecoverable(s: Store, i: nat, ids: FreshIds, at: int, point: Point, times: set<int>)
    requires Inv(s) && i < |s.actions| && AreFresh(s, ids) && at in times
    requires IsRecoverable(s, s.actions[i], times) && IsCurrentAt(s, s.actions[i], times)
    requires point != BeforeStart && point != Finished
    ensures var t := StoreAt(s, s.actions[i], ids, at, point);
            && t.actions == s.actions[i := StartedAction(s.actions[i], at)]
            && IsRecoverable(t, t.actions[i], times)
  {
    hide Inv, IsCurrent, WithoutEffectsOf, AfterActivity, AfterTask, AfterOpportunity, HasValidEffects, IsComplete,
      TitleIsSafe, Finalized, Filter, FirstIndex;
    var a := s.actions[i];
    var started := StartedAction(a, at);
    var s1 := WithAction(s, started);
    StartIsGood(s, i, at);
    StartedRecordStands(s, i, ids, at, point);
    RecordChangeIsRecoverable(s, s1, a, started, times);
    AllCurrentAgree(s, s1, a, started, times);
    SoundTypes(s, i);
    assert times + {at} == times;
    TaskDoneIsRecoverable(s1, i, ids, at, times);
    ActivityDoneIsRecoverable(s1, i, ids, at, times);
    OpportunityDoneIsRecoverable(s1, i, ids, at, times);
  }

  lemma SoundTypes(s: Store, i: nat)
    requires Inv(s) && i < |s.actions|
    ensures s.actions[i].actionType == s.actions[i].basis.recommendation.actionType
    ensures InRecovery(s.actions[i]) ==>
              && s.actions[i].life.approvedAt.Some?
              && s.actions[i].request.Some? && s.actions[i].request.value.mode == ExpectedMode(s.actions[i])
    ensures s.actions[i].life.status == APPROVED ==> s.actions[i].life.approvedAt.Some?
  {
    hide Filter, Replay, BuildProposedExecution;
    assert IsSound(s, s.actions[i]);
    LoggedLifeIsLived(s.actions[i].audit);
  }

  /** An attempt, interrupted anywhere, leaves the action executed or recoverable. */
  lemma AttemptIsRecoverable(s: Store, i: nat, ids: FreshIds, at: int, fault: Fault, times: set<int>)
    requires Inv(s) && i < |s.actions| && AreFresh(s, ids) && at in times
    requires IsRecoverable(s, s.actions[i], times) && IsCurrentAt(s, s.actions[i], times)
    ensures var t := Attempt(s, s.actions[i], ids, at, fault).store;
            && |t.actions| == |s.actions| && t.actions[i].id == s.actions[i].id
            && (t.actions[i].life.status == EXECUTED || IsRecoverable(t, t.actions[i], times))
            && (fault == NoFault ==> t.actions[i].life.status == EXECUTED)
  {
    hide Inv, IsCurrentAt, StoreAt, HasValidEffects, IsComplete, TitleIsSafe, HasProposal, WithAction, Finalized,
      Filter, FirstIndex;
    var a := s.actions[i];
    FailureOverwritesExecuted(s, i, ids, at);
    FinishedKeepsIds(s, i, ids, at);
    if fault.Crash? && fault.point != BeforeStart && fault.point != Finished {
      PointIsRecoverable(s, i, ids, at, fault.point, times);
    } else if fault.Throw? && fault.point != BeforeStart {
      var p := if fault.point == Finished then OpportunityDone else fault.point;
      PointIsRecoverable(s, i, ids, at, p, times);
      FailureIsRecoverable(s, i, ids, at, p, times);
    }
    BeforeStartIsNothing(s, a, ids, at);
  }

  lemma BeforeStartIsNothing(s: Store, a: Action, ids: FreshIds, at: int)
    requires HasProposal(a)
    ensures StoreAt(s, a, ids, at, BeforeStart) == s
  {
  }

  lemma FinishedKeepsIds(s: Store, i: nat, ids: FreshIds, at: int)
    requires Inv(s) && i < |s.actions| && IsRunnable(s.actions[i]) && HasProposal(s.actions[i])
    ensures |StoreAt(s, s.actions[i], ids, at, Finished).actions| == |s.actions|
    ensures StoreAt(s, s.actions[i], ids, at, Finished).actions[i].id == s.actions[i].id
  {
    hide StoreAt, Finalized, WithAction, Inv, HaveDistinctIds, HasProposal;
    var a := s.actions[i];
    var started := StartedAction(a, at);
    StartedRecordStands(s, i, ids, at, OpportunityDone);
    InvHasDistinctIds(s);
    ReplacedKeepsDistinct(s.actions, i, started);
    FinishedStore(s, a, ids, at);
    var done := Finalized(WithAction(s, started), started, ids, at);
    FinalizedIsExecuted(WithAction(s, started), started, ids, at);
    SecondWriteWins(StoreAt(s, a, ids, at, OpportunityDone), i, done, done);
  }

  lemma FailureIsRecoverable(s: Store, i: nat, ids: FreshIds, at: int, point: Point, times: set<int>)
    requires Inv(s) && i < |s.actions| && IsRunnable(s.actions[i]) && HasProposal(s.actions[i])
    requires point != BeforeStart && point != Finished
    requires var t := StoreAt(s, s.actions[i], ids, at, point);
             && t.actions == s.actions[i := StartedAction(s.actions[i], at)]
             && IsRecoverable(t, t.actions[i], times)
    ensures var failed := FailedAction(StartedAction(s.actions[i], at), at);
            var u := WithAction(StoreAt(s, s.actions[i], ids, at, point), failed);
            |u.actions| == |s.actions| && u.actions[i] == failed && IsRecoverable(u, failed, times)
  {
    hide Inv, StoreAt, HasProposal, IsRecoverable, HaveDistinctIds, WithAction;
    var t := StoreAt(s, s.actions[i], ids, at, point);
    var started := StartedAction(s.actions[i], at);
    InvHasDistinctIds(s);
    ReplacedKeepsDistinct(s.actions, i, started);
    var failed := FailedAction(started, at);
    SecondWriteWins(t, i, failed, failed);
    RecordChangeIsRecoverable(t, WithAction(t, failed), started, failed, times);
  }

  // ------------------------------------------------------------------ one more call

  lemma ExecuteIsRecoverable(s: Store, i: nat, ids: FreshIds, at: int, fault: Fault, times: set<int>)
    requires Inv(s) && i < |s.actions| && AreFresh(s, ids) && at in times
    requires s.actions[i].life.status == EXECUTED || IsRecoverable(s, s.actions[i], times)
    requires forall a | a in s.actions :: a.life.approvedAt.Some? ==> HasProposal(a)
    ensures var t := Execute(s, s.actions[i].id, true, ids, at, fault).store;
            && |t.actions| == |s.actions| && t.actions[i].id == s.actions[i].id
            && (t.actions[i].life.status == EXECUTED || IsRecoverable(t, t.actions[i], times))
            && (fault == NoFault ==> t.actions[i].life.status == EXECUTED)
  {
    hide Inv, IsCurrent, HasValidEffects, IsComplete, TitleIsSafe, Inspect, Attempt, WithAction, Filter, FirstIndex,
      CurrentBasis, BuildProposedExecution, HasNoEffects;
    var a := s.actions[i];
    InvHasDistinctIds(s);
    IndexOfAction(s, i);
    if a.life.status != EXECUTED {
      SoundTypes(s, i);
      InspectorAccepts(s, a);
      if IsComplete(s, a) {
        CompleteHasEffects(s, a);
        SecondWriteWins(s, i, Recovered(a, Inspect(s, a), at), Recovered(a, Inspect(s, a), at));
      } else {
        CurrentPassesValidation(s, a, at);
        AttemptIsRecoverable(s, i, ids, at, fault, times);
      }
    }
  }

  lemma CurrentPassesValidation(s: Store, a: Action, at: int)
    requires IsCurrent(s, a, at)
    ensures Validate(s, a, EXECUTE, Some(a.id), at).None?
    ensures HasNoEffects(s, a) ==> Validate(s, a, EXECUTE, None, at).None?
  {
    hide BasisOf, WithoutEffectsOf, Filter, FirstIndex;
    if HasNoEffects(s, a) { NoEffectsNoExclusion(s, a, at); }
  }

  // ------------------------------------------------------------------ main results

  datatype Call = Call(ids: FreshIds, at: int, fault: Fault)

  /** A sequence of executions of one action, each possibly interrupted, with nothing written in between. */
  ghost predicate AreExecutions(stores: seq<Store>, calls: seq<Call>, id: string) {
    && |stores| == |calls| + 1
    && forall k | 0 <= k < |calls| ::
         && AreFresh(stores[k], calls[k].ids)
         && (forall a | a in stores[k].actions :: a.life.approvedAt.Some? ==> HasProposal(a))
         && stores[k + 1] == Execute(stores[k], id, true, calls[k].ids, calls[k].at, calls[k].fault).store
  }

  ghost function Times(calls: seq<Call>): set<int> {
    set c | c in calls :: c.at
  }

  /** An approved action starts out recoverable: its title is safe and the advice holds. */
  lemma ApprovedIsRecoverable(s: Store, i: nat, times: set<int>)
    requires Inv(s) && i < |s.actions| && s.actions[i].life.status == APPROVED
    requires TitleIsSafe(s, s.actions[i]) && IsCurrentAt(s, s.actions[i], times)
    ensures IsRecoverable(s, s.actions[i], times)
  {
    hide Filter, Replay, BuildProposedExecution, TitleIsSafe, IsCurrentAt;
    RunnableHasProposal(s, i);
    assert IsSound(s, s.actions[i]);
    LoggedLifeIsLived(s.actions[i].audit);
  }

  lemma {:induction false} ExecutionsStayRecoverable(stores: seq<Store>, calls: seq<Call>, i: nat, k: nat)
    requires |stores| > 0 && i < |stores[0].actions| && AreExecutions(stores, calls, stores[0].actions[i].id)
    requires Inv(stores[0]) && IsRecoverable(stores[0], stores[0].actions[i], Times(calls)) && k < |stores|
    ensures Inv(stores[k]) && Evolves(stores[0], stores[k]) && |stores[k].actions| == |stores[0].actions|
    ensures var a := stores[k].actions[i];
            a.id == stores[0].actions[i].id
            && (a.life.status == EXECUTED || IsRecoverable(stores[k], a, Times(calls)))
    ensures k > 0 && calls[k - 1].fault == NoFault ==> stores[k].actions[i].life.status == EXECUTED
  {
    hide Inv, Evolves, Execute, IsRecoverable, HasProposal, AreFresh;
    if k == 0 {
      StayIsGood(stores[0]);
    } else {
      ExecutionsStayRecoverable(stores, calls, i, k - 1);
      var c := calls[k - 1];
      assert c in calls;
      assert AreFresh(stores[k - 1], c.ids);
      assert stores[k - 1 + 1] == stores[k];
      ExecuteIsRecoverable(stores[k - 1], i, c.ids, c.at, c.fault, Times(calls));
      ExecuteIsGood(stores[k - 1], stores[0].actions[i].id, true, c.ids, c.at, c.fault);
      EvolvesTransitive(stores[0], stores[k - 1], stores[k]);
    }
  }

  /**
   * Crash recovery. Let an action be recoverable, for instance approved with a safe title and current
   * advice, and execute it any number of times, every call interrupted anywhere. The first call that runs
   * to its end leaves the action EXECUTED, with the task and the activity that any earlier call linked.
   */
  lemma RecoveryCompletes(stores: seq<Store>, calls: seq<Call>, i: nat, j: nat)
    requires |calls| > 0 && |stores| == |calls| + 1 && j < |stores| && i < |stores[0].actions|
    requires AreExecutions(stores, calls, stores[0].actions[i].id)
    requires Inv(stores[0]) && IsRecoverable(stores[0], stores[0].actions[i], Times(calls))
    requires calls[|calls| - 1].fault == NoFault
    ensures var end := stores[|calls|];
            var id := stores[0].actions[i].id;
            && i < |end.actions| && end.actions[i].id == id
            && end.actions[i].life.status == EXECUTED
            && |LinkedTasks(end, id)| <= 1 && |LinkedActivities(end, id)| == 1
            && (LinkedTasks(stores[j], id) != [] ==>
                  end.actions[i].life.taskId == Some(LinkedTasks(stores[j], id)[0].id))
            && (LinkedActivities(stores[j], id) != [] ==>
                  end.actions[i].life.activityId == Some(LinkedActivities(stores[j], id)[0].id))
  {
    hide Filter, Execute, IsRecoverable, Inv, Evolves, AreExecutions;
    var end := stores[|calls|];
    ExecutionsStayRecoverable(stores, calls, i, |calls|);
    LaterExecutionsEvolve(stores, calls, i, j, |calls|);
    LinksArrive(stores[j], end, i);
  }

  lemma {:induction false} LaterExecutionsEvolve(stores: seq<Store>, calls: seq<Call>, i: nat, j: nat, k: nat)
    requires |stores| > 0 && i < |stores[0].actions| && AreExecutions(stores, calls, stores[0].actions[i].id)
    requires Inv(stores[0]) && IsRecoverable(stores[0], stores[0].actions[i], Times(calls))
    requires j <= k < |stores|
    ensures Evolves(stores[j], stores[k])
    decreases k
  {
    hide Inv, Evolves, Execute, IsRecoverable, HasProposal, AreFresh;
    if j == k {
      ExecutionsStayRecoverable(stores, calls, i, j);
      StayIsGood(stores[j]);
    } else {
      LaterExecutionsEvolve(stores, calls, i, j, k - 1);
      ExecutionsStayRecoverable(stores, calls, i, k - 1);
      var c := calls[k - 1];
      assert AreFresh(stores[k - 1], c.ids);
      assert stores[k - 1 + 1] == stores[k];
      ExecuteIsGood(stores[k - 1], stores[0].actions[i].id, true, c.ids, c.at, c.fault);
      EvolvesTransitive(stores[j], stores[k - 1], stores[k]);
    }
  }

  lemma LinksArrive(s: Store, end: Store, i: nat)
    requires Evolves(s, end) && Inv(end) && i < |end.actions| && end.actions[i].life.status == EXECUTED
    ensures var id := end.actions[i].id;
            && |LinkedTasks(end, id)| <= 1 && |LinkedActivities(end, id)| == 1
            && (LinkedTasks(s, id) != [] ==> end.actions[i].life.taskId == Some(LinkedTasks(s, id)[0].id))
            && (LinkedActivities(s, id) != [] ==>
                  end.actions[i].life.activityId == Some(LinkedActivities(s, id)[0].id))
  {
    hide Filter, Replay, BuildProposedExecution;
    var id := end.actions[i].id;
    assert IsSound(end, end.actions[i]);
    assert SameFirst(LinkedTasks(s, id), LinkedTasks(end, id));
  }
}

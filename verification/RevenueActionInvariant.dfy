/** What every service call, wherever it is interrupted, keeps true of the stored revenue actions. */
module RevenueActionInvariant {
  import opened Text
  import opened Lists
  import opened Deals
  import opened RevenueActions

  // ------------------------------------------------------------------ what a log implies

  /** The facts about a life that hold because some audit log leads to it. */
  predicate IsLived(life: Life) {
    && (life.status == RECOMMENDED ==> life == NEW_LIFE)
    && (life.status in {PREPARED, APPROVED, REJECTED} ==> life.preparedAt.Some? && life.attempts == 0)
    && (life.status in {PREPARED, REJECTED} ==> life.approvedAt.None?)
    && (life.status == APPROVED ==> life.approvedAt.Some?)
    && (life.status in {EXECUTING, FAILED, EXECUTED} ==> life.attempts > 0)
    && (life.attempts > 0 ==> life.approvedAt.Some?)
    && (life.approvedAt.Some? ==> life.preparedAt.Some?)
    && (life.status == EXECUTED <==> life.executedAt.Some?)
    && (life.status == CANCELLED <==> life.cancelledAt.Some?)
    && (life.status == REJECTED <==> life.rejectedAt.Some?)
    && (life.status != EXECUTED ==> life.taskId.None? && life.activityId.None?)
  }

  lemma {:induction false} LoggedLifeIsLived(audit: seq<Entry>)
    requires Replay(audit).Some?
    ensures IsLived(Replay(audit).value)
  {
    if |audit| > 1 { LoggedLifeIsLived(audit[..|audit| - 1]); }
  }

  lemma ReplayAppend(audit: seq<Entry>, e: Entry)
    requires audit != []
    ensures Replay(audit + [e]) == if Replay(audit).None? then None else Advance(Replay(audit).value, e)
  {
    assert (audit + [e])[..|audit|] == audit;
  }

  /** The status that an audit entry leaves behind. */
  function StatusOf(t: Transition): Status {
    match t
    case CreatedAsRecommended => RECOMMENDED
    case Prepared => PREPARED
    case Approved => APPROVED
    case Rejected(_) => REJECTED
    case ExecutionStarted(_) => EXECUTING
    case Executed(_, _, _) => EXECUTED
    case ExecutionFailed => FAILED
    case _ => CANCELLED
  }

  function Attempts(audit: seq<Entry>): nat {
    if audit == [] then 0
    else Attempts(audit[..|audit| - 1]) + if audit[|audit| - 1].transition.ExecutionStarted? then 1 else 0
  }

  /** The status is that of the last entry and the attempts are counted by the starts in the log. */
  lemma {:induction false} LogTellsStatusAndAttempts(audit: seq<Entry>)
    requires Replay(audit).Some?
    ensures Replay(audit).value.status == StatusOf(audit[|audit| - 1].transition)
    ensures Replay(audit).value.attempts == Attempts(audit)
  {
    if |audit| > 1 {
      LogTellsStatusAndAttempts(audit[..|audit| - 1]);
    } else {
      assert audit[..0] == [];
    }
  }

  /** Every start in a log comes after an approval, and approvedAt is the time of that approval. */
  lemma {:induction false} StartsAreApproved(audit: seq<Entry>)
    requires Replay(audit).Some?
    ensures Replay(audit).value.approvedAt.Some? <==>
            exists k | 0 <= k < |audit| :: audit[k].transition == Approved
    ensures forall k | 0 <= k < |audit| && audit[k].transition == Approved ::
              Replay(audit).value.approvedAt == Some(audit[k].at)
    ensures forall j | 0 <= j < |audit| && audit[j].transition.ExecutionStarted? ::
              exists k | 0 <= k < j :: audit[k].transition == Approved
  {
    var n := |audit| - 1;
    if n > 0 {
      var front := audit[..n];
      StartsAreApproved(front);
      LoggedLifeIsLived(front);
      assert forall k | 0 <= k < n :: front[k] == audit[k];
    }
  }

  /** Nothing follows an entry that ends the lifecycle. */
  lemma {:induction false} TerminalEntriesAreLast(audit: seq<Entry>, k: nat)
    requires Replay(audit).Some? && k < |audit| && IsTerminal(StatusOf(audit[k].transition))
    ensures k == |audit| - 1
  {
    if k < |audit| - 1 {
      var front := audit[..|audit| - 1];
      assert front[k] == audit[k];
      TerminalEntriesAreLast(front, k);
      LogTellsStatusAndAttempts(front);
    }
  }

  // ------------------------------------------------------------------ the invariant

  predicate IsConsistent(a: Action) {
    && Replay(a.audit) == Some(a.life)
    && a.executionType == ExpectedExecutionType(a.actionType)
    && a.actionType == a.basis.recommendation.actionType
    && a.opportunityId == a.basis.opportunityId
    && a.proposed == (if a.life.preparedAt.Some? then Some(BuildProposedExecution(a)) else None)
    && (a.life.attempts > 0 ==> a.request.Some? && a.request.value.mode == ExpectedMode(a))
  }

  /** The linked tasks t and activities v are what at most one execution of the action left. */
  predicate AreEffectsOf(t: seq<Task>, v: seq<Activity>, a: Action) {
    && |t| <= 1 && |v| <= 1
    && (t != [] || v != [] ==> a.life.attempts > 0)
    && (a.executionType == COMMUNICATION_DRAFT ==> t == [])
    && (a.executionType == INTERNAL_TASK && v != [] ==> t != [] && v[0].metadata.taskId == Some(t[0].id))
    && (a.life.status == EXECUTED ==>
          && v != [] && a.life.activityId == Some(v[0].id)
          && a.life.taskId == if t == [] then None else Some(t[0].id))
  }

  predicate HaveDistinctIds(actions: seq<Action>) {
    forall i, j | 0 <= i < j < |actions| :: actions[i].id != actions[j].id
  }

  predicate HaveDistinctTaskIds(tasks: seq<Task>) {
    forall i, j | 0 <= i < j < |tasks| :: tasks[i].id != tasks[j].id
  }

  predicate OneActivePerOpportunity(actions: seq<Action>) {
    forall i, j | 0 <= i < j < |actions| && actions[i].opportunityId == actions[j].opportunityId ::
      !(IsActive(actions[i].life.status) && IsActive(actions[j].life.status))
  }

  predicate IsSound(s: Store, a: Action) {
    IsConsistent(a) && AreEffectsOf(LinkedTasks(s, a.id), LinkedActivities(s, a.id), a)
  }

  /** Nothing is linked to an action that does not exist. */
  ghost predicate LinksAreKnown(s: Store) {
    forall id: string :: ActionIndex(s, id).None? ==> LinkedTasks(s, id) == [] && LinkedActivities(s, id) == []
  }

  ghost predicate Inv(s: Store) {
    && HaveDistinctIds(s.actions)
    && HaveDistinctTaskIds(s.tasks)
    && (forall i | 0 <= i < |s.actions| :: IsSound(s, s.actions[i]))
    && LinksAreKnown(s)
    && OneActivePerOpportunity(s.actions)
  }

  /** The invariant looks at actions, tasks and activities only. */
  lemma InvIgnoresOpportunities(s: Store, opportunities: seq<Opportunity>)
    requires Inv(s)
    ensures Inv(s.(opportunities := opportunities))
  {
    var t := s.(opportunities := opportunities);
    assert forall i | 0 <= i < |s.actions| :: IsSound(s, s.actions[i]) ==> IsSound(t, t.actions[i]);
    forall id: string | ActionIndex(t, id).None?
      ensures LinkedTasks(t, id) == [] && LinkedActivities(t, id) == []
    {
      assert ActionIndex(s, id).None?;
    }
  }

  lemma IndexOfAction(s: Store, i: nat)
    requires HaveDistinctIds(s.actions) && i < |s.actions|
    ensures ActionIndex(s, s.actions[i].id) == Some(i)
  {
  }

  /** An approved action carries the proposal its type asks for. */
  lemma ApprovedHasProposal(a: Action)
    requires IsConsistent(a) && a.life.approvedAt.Some?
    ensures HasProposal(a) && a.proposed == Some(BuildProposedExecution(a))
  {
    LoggedLifeIsLived(a.audit);
  }

  lemma InvImpliesProposals(s: Store)
    requires Inv(s)
    ensures forall a | a in s.actions :: a.life.approvedAt.Some? ==> HasProposal(a)
  {
    forall a | a in s.actions && a.life.approvedAt.Some? ensures HasProposal(a) {
      var i :| 0 <= i < |s.actions| && s.actions[i] == a;
      assert IsSound(s, s.actions[i]);
      ApprovedHasProposal(a);
    }
  }

  // ------------------------------------------------------------------ one record replaced

  /** b is a with one more entry of its log. */
  predicate Follows(a: Action, b: Action) {
    && b.id == a.id && b.opportunityId == a.opportunityId && b.actionType == a.actionType
    && b.executionType == a.executionType && b.basis == a.basis && b.createdAt == a.createdAt
    && |b.audit| == |a.audit| + 1 && b.audit[..|a.audit|] == a.audit
    && Advance(a.life, b.audit[|a.audit|]) == Some(b.life)
    && (a.proposed.Some? ==> b.proposed == a.proposed)
  }

  lemma FollowerIsConsistent(a: Action, b: Action)
    requires IsConsistent(a) && Follows(a, b)
    requires b.proposed == if b.life.preparedAt.Some? then Some(BuildProposedExecution(a)) else None
    requires b.life.attempts > 0 ==> b.request.Some? && b.request.value.mode == ExpectedMode(a)
    ensures IsConsistent(b)
  {
    hide Advance, TypeName, FollowUpSubject, FollowUpBody;
    var e := b.audit[|a.audit|];
    assert b.audit == a.audit + [e];
    ReplayAppend(a.audit, e);
  }

  /** Any number of records replaced by sound followers. */
  lemma UpdateKeepsInv(s: Store, actions: seq<Action>)
    requires Inv(s) && |actions| == |s.actions|
    requires forall k | 0 <= k < |actions| ::
               actions[k] == s.actions[k] || (Follows(s.actions[k], actions[k]) && IsSound(s, actions[k]))
    ensures Inv(s.(actions := actions))
  {
    hide Replay, Advance, Filter, FirstIndex, IsConsistent, AreEffectsOf;
    var t := s.(actions := actions);
    forall k | 0 <= k < |t.actions|
      ensures IsSound(t, t.actions[k]) && t.actions[k].id == s.actions[k].id
      ensures t.actions[k].opportunityId == s.actions[k].opportunityId
      ensures IsActive(t.actions[k].life.status) ==> IsActive(s.actions[k].life.status)
    {
      assert IsSound(s, s.actions[k]);
      if t.actions[k] != s.actions[k] { ActiveOnlyFollowsActive(s.actions[k], t.actions[k]); }
    }
    SameIdsKnown(s, t);
  }

  lemma ReplaceKeepsInv(s: Store, i: nat, b: Action)
    requires Inv(s) && i < |s.actions| && Follows(s.actions[i], b) && IsSound(s, b)
    ensures WithAction(s, b) == s.(actions := s.actions[i := b]) && Inv(WithAction(s, b))
  {
    hide Replay, Advance, Filter, FirstIndex, IsSound, IsActive;
    IndexOfAction(s, i);
    UpdateKeepsInv(s, s.actions[i := b]);
  }

  lemma ActiveOnlyFollowsActive(a: Action, b: Action)
    requires Follows(a, b)
    ensures IsActive(b.life.status) ==> IsActive(a.life.status)
  {
  }

  /** Stores with the same ids and the same links know the same links. */
  lemma SameIdsKnown(s: Store, t: Store)
    requires LinksAreKnown(s) && |s.actions| <= |t.actions|
    requires forall k | 0 <= k < |s.actions| :: s.actions[k].id == t.actions[k].id
    requires s.tasks == t.tasks && s.activities == t.activities
    ensures LinksAreKnown(t)
  {
    hide Filter;
    forall id: string | ActionIndex(t, id).None?
      ensures LinkedTasks(t, id) == [] && LinkedActivities(t, id) == []
    {
      forall k | 0 <= k < |s.actions| ensures !HasId(id)(s.actions[k]) {
        assert !HasId(id)(t.actions[k]);
      }
      assert ActionIndex(s, id).None?;
    }
  }

  /** A step that changes neither proposal nor request, and does not end in EXECUTED. */
  lemma MoveKeepsInv(s: Store, i: nat, life: Life, transition: Transition, at: int)
    requires Inv(s) && i < |s.actions|
    requires Advance(s.actions[i].life, Entry(transition, at)) == Some(life)
    requires transition !in {Prepared} && !transition.ExecutionStarted? && !transition.Executed?
    ensures var b := Move(s.actions[i], life, transition, at);
            Follows(s.actions[i], b) && Inv(WithAction(s, b))
  {
    hide Filter, FirstIndex, WithAction, BuildProposedExecution, Replay;
    var a := s.actions[i];
    assert IsSound(s, a);
    var b := Move(a, life, transition, at);
    FollowerIsConsistent(a, b);
    ReplaceKeepsInv(s, i, b);
  }

  lemma PrepareKeepsInv(s: Store, i: nat, at: int)
    requires Inv(s) && i < |s.actions| && s.actions[i].life.status == RECOMMENDED
    ensures var b := PreparedAction(s.actions[i], at);
            Follows(s.actions[i], b) && Inv(WithAction(s, b))
  {
    hide Filter, FirstIndex, WithAction, BuildProposedExecution, Replay;
    var a := s.actions[i];
    assert IsSound(s, a);
    LoggedLifeIsLived(a.audit);
    var b := PreparedAction(a, at);
    FollowerIsConsistent(a, b);
    ReplaceKeepsInv(s, i, b);
  }

  lemma StartKeepsInv(s: Store, i: nat, at: int)
    requires Inv(s) && i < |s.actions| && s.actions[i].life.status in {APPROVED, EXECUTING, FAILED}
    ensures var b := StartedAction(s.actions[i], at);
            Follows(s.actions[i], b) && Inv(WithAction(s, b))
  {
    hide Filter, FirstIndex, WithAction, BuildProposedExecution, Replay;
    var a := s.actions[i];
    assert IsSound(s, a);
    var b := StartedAction(a, at);
    FollowerIsConsistent(a, b);
    ReplaceKeepsInv(s, i, b);
  }

  lemma FailKeepsInv(s: Store, i: nat, at: int)
    requires Inv(s) && i < |s.actions| && s.actions[i].life.status == EXECUTING
    ensures var b := FailedAction(s.actions[i], at);
            Follows(s.actions[i], b) && Inv(WithAction(s, b))
  {
    hide Filter, FirstIndex, WithAction, BuildProposedExecution, Replay;
    var a := s.actions[i];
    assert IsSound(s, a);
    var b := FailedAction(a, at);
    FollowerIsConsistent(a, b);
    ReplaceKeepsInv(s, i, b);
  }

  lemma FinishKeepsInv(s: Store, i: nat, result: Result, taskId: Option<string>, activityId: string, at: int)
    requires Inv(s) && i < |s.actions| && s.actions[i].life.status in {EXECUTING, FAILED}
    requires var v := LinkedActivities(s, s.actions[i].id); v != [] && v[0].id == activityId
    requires var t := LinkedTasks(s, s.actions[i].id); taskId == if t == [] then None else Some(t[0].id)
    ensures var b := ExecutedAction(s.actions[i], result, taskId, Some(activityId), at);
            Follows(s.actions[i], b) && Inv(WithAction(s, b))
  {
    hide Filter, FirstIndex, WithAction, BuildProposedExecution, Replay;
    var a := s.actions[i];
    assert IsSound(s, a);
    var b := ExecutedAction(a, result, taskId, Some(activityId), at);
    FollowerIsConsistent(a, b);
    ReplaceKeepsInv(s, i, b);
  }

  // ------------------------------------------------------------------ the effects of an execution

  predicate IsFreshTaskId(tasks: seq<Task>, id: string) {
    forall i | 0 <= i < |tasks| :: tasks[i].id != id
  }

  /** A linked task stays; otherwise exactly one task becomes linked, and no other action's links move. */
  lemma EnsureTaskLinks(tasks: seq<Task>, a: Action, taskId: string, at: int)
    requires ProposesTask(a) && HaveDistinctTaskIds(tasks) && IsFreshTaskId(tasks, taskId)
    ensures var e := EnsureTask(tasks, a, taskId, at);
            var own := Filter(tasks, LinkedTo(a.id));
            && (own != [] ==> e.tasks == tasks && e.task == own[0])
            && (own == [] ==> Filter(e.tasks, LinkedTo(a.id)) == [e.task] && LinkedTo(a.id)(e.task))
            && HaveDistinctTaskIds(e.tasks)
            && forall id: string | id != a.id :: Filter(e.tasks, LinkedTo(id)) == Filter(tasks, LinkedTo(id))
  {
    FirstIsFirstOfFilter(tasks, LinkedTo(a.id));
    var equivalent := FirstIndex(tasks, EquivalentOpenTask(a));
    if FirstIndex(tasks, LinkedTo(a.id)).None? {
      if equivalent.Some? {
        var i := equivalent.value;
        assert IsEquivalentOpenTask(tasks[i], a);
        assert TaskIndex(tasks, tasks[i].id) == Some(i);
        var t := LinkedTask(tasks[i], a);
        FilterReplaceNew(tasks, i, t, LinkedTo(a.id));
        forall id: string | id != a.id
          ensures Filter(tasks[i := t], LinkedTo(id)) == Filter(tasks, LinkedTo(id))
        {
          FilterReplaceSame(tasks, i, t, LinkedTo(id));
        }
      } else {
        var t := NewTask(a, taskId, at);
        FilterAppend(tasks, t, LinkedTo(a.id));
        forall id: string | id != a.id
          ensures Filter(tasks + [t], LinkedTo(id)) == Filter(tasks, LinkedTo(id))
        {
          FilterAppend(tasks, t, LinkedTo(id));
        }
      }
    }
  }

  lemma EnsureActivityLinks(activities: seq<Activity>, record: Activity, actionId: string)
    requires EffectOf(actionId)(record)
    ensures var (after, v) := EnsureActivity(activities, record, actionId);
            var own := Filter(activities, EffectOf(actionId));
            && (own != [] ==> after == activities && v == own[0])
            && (own == [] ==> after == activities + [record] && v == record && Filter(after, EffectOf(actionId)) == [v])
            && forall id: string | id != actionId ::
                 Filter(after, EffectOf(id)) == Filter(activities, EffectOf(id))
  {
    FirstIsFirstOfFilter(activities, EffectOf(actionId));
    FilterAppend(activities, record, EffectOf(actionId));
    forall id: string | id != actionId
      ensures Filter(activities + [record], EffectOf(id)) == Filter(activities, EffectOf(id))
    {
      FilterAppend(activities, record, EffectOf(id));
    }
  }

  /** Other links untouched and sound ones for one action: the invariant again. */
  lemma RelinkKeepsInv(s: Store, i: nat, tasks: seq<Task>, activities: seq<Activity>)
    requires Inv(s) && i < |s.actions| && HaveDistinctTaskIds(tasks)
    requires AreEffectsOf(Filter(tasks, LinkedTo(s.actions[i].id)),
               Filter(activities, EffectOf(s.actions[i].id)), s.actions[i])
    requires forall id: string | id != s.actions[i].id ::
               && Filter(tasks, LinkedTo(id)) == LinkedTasks(s, id)
               && Filter(activities, EffectOf(id)) == LinkedActivities(s, id)
    ensures Inv(s.(tasks := tasks, activities := activities))
  {
    hide Filter, FirstIndex, IsConsistent, AreEffectsOf;
    var t := s.(tasks := tasks, activities := activities);
    forall k | 0 <= k < |t.actions| ensures IsSound(t, t.actions[k]) {
      assert IsSound(s, s.actions[k]);
    }
    forall id: string | ActionIndex(t, id).None?
      ensures LinkedTasks(t, id) == [] && LinkedActivities(t, id) == []
    {
      assert ActionIndex(s, id).None?;
      assert HasId(s.actions[i].id)(s.actions[i]);
      assert id != s.actions[i].id;
    }
  }

  predicate AreFresh(s: Store, ids: FreshIds) {
    IsFreshTaskId(s.tasks, ids.taskId)
  }

  /** The first effect keeps the invariant and leaves at most one task, the one already there if any. */
  lemma AfterTaskKeepsInv(s: Store, i: nat, ids: FreshIds, at: int)
    requires Inv(s) && i < |s.actions| && s.actions[i].life.attempts > 0 && AreFresh(s, ids)
    requires s.actions[i].life.status != EXECUTED && HasProposal(s.actions[i])
    ensures var a := s.actions[i];
            var t := AfterTask(s, a, ids, at);
            && Inv(t) && t == s.(tasks := t.tasks)
            && LinkedTasks(t, a.id) == (if ProposesTask(a) then [EnsureTask(s.tasks, a, ids.taskId, at).task] else [])
            && LinkedTasks(s, a.id) <= LinkedTasks(t, a.id)
            && forall id: string | id != a.id :: LinkedTasks(t, id) == LinkedTasks(s, id)
  {
    hide Filter, FirstIndex, EnsureTask, IsConsistent;
    var a := s.actions[i];
    assert IsSound(s, a);
    if ProposesTask(a) {
      EnsureTaskLinks(s.tasks, a, ids.taskId, at);
      RelinkKeepsInv(s, i, EnsureTask(s.tasks, a, ids.taskId, at).tasks, s.activities);
    }
  }

  lemma AfterActivityKeepsInv(s: Store, i: nat, ids: FreshIds, at: int)
    requires Inv(s) && i < |s.actions| && s.actions[i].life.attempts > 0 && AreFresh(s, ids)
    requires s.actions[i].life.status != EXECUTED && HasProposal(s.actions[i])
    ensures var a := s.actions[i];
            var t := AfterActivity(s, a, ids, at);
            && Inv(t) && t == AfterTask(s, a, ids, at).(activities := t.activities)
            && LinkedActivities(t, a.id) == [ActivityOf(s, a, ids, at).1]
            && LinkedActivities(s, a.id) <= LinkedActivities(t, a.id)
            && forall id: string | id != a.id :: LinkedActivities(t, id) == LinkedActivities(s, id)
  {
    hide Filter, FirstIndex, EnsureTask, EnsureActivity, IsConsistent, AfterTask;
    var a := s.actions[i];
    assert IsSound(s, a);
    AfterTaskKeepsInv(s, i, ids, at);
    var s1 := AfterTask(s, a, ids, at);
    assert IsSound(s1, s1.actions[i]);
    var record :=
      if ProposesTask(a) then TaskRecord(a, EnsureTask(s.tasks, a, ids.taskId, at).task, ids.activityId, at)
      else CommunicationRecord(a, ids.activityId, at);
    EnsureActivityLinks(s.activities, record, a.id);
    RelinkKeepsInv(s1, i, s1.tasks, AfterActivity(s, a, ids, at).activities);
  }

  lemma AfterOpportunityKeepsInv(s: Store, i: nat, ids: FreshIds, at: int)
    requires Inv(s) && i < |s.actions| && s.actions[i].life.attempts > 0 && AreFresh(s, ids)
    requires s.actions[i].life.status != EXECUTED && HasProposal(s.actions[i])
    ensures var a := s.actions[i];
            var t := AfterOpportunity(s, a, ids, at);
            Inv(t) && t == AfterActivity(s, a, ids, at).(opportunities := t.opportunities)
  {
    hide Inv, AfterActivity, EnsureTask, SetNextAction;
    AfterActivityKeepsInv(s, i, ids, at);
    InvIgnoresOpportunities(AfterActivity(s, s.actions[i], ids, at),
      AfterOpportunity(s, s.actions[i], ids, at).opportunities);
  }
}

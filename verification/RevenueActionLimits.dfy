/** Where the recovery promise of revenue actions ends, exactly delimited. */
module RevenueActionLimits {
  import opened Text
  import opened Lists
  import opened Deals
  import opened RevenueActions
  import opened RevenueActionInvariant
  import opened RevenueActionRuns
  import opened RevenueActionRecovery

  // ------------------------------------------------------------------ EXECUTED taken back

  /** Whether the EXECUTED record was written before the attempt ended. */
  predicate WritesExecuted(fault: Fault) {
    fault == NoFault || fault.point == Finished
  }

  lemma ThrowLeavesFailure(s: Store, i: nat, ids: FreshIds, at: int, point: Point)
    requires Inv(s) && i < |s.actions| && IsRunnable(s.actions[i]) && HasProposal(s.actions[i])
    requires point != BeforeStart
    ensures var t := Attempt(s, s.actions[i], ids, at, Throw(point)).store;
            |t.actions| == |s.actions| && t.actions[i] == FailedAction(StartedAction(s.actions[i], at), at)
  {
    hide StoreAt, Finalized, WithAction, Inv, HaveDistinctIds, HasProposal, FailedAction;
    var a := s.actions[i];
    var started := StartedAction(a, at);
    var p := if point == Finished then OpportunityDone else point;
    StartedRecordStands(s, i, ids, at, p);
    FailureOverwritesExecuted(s, i, ids, at);
    InvHasDistinctIds(s);
    ReplacedKeepsDistinct(s.actions, i, started);
    var failed := FailedAction(started, at);
    FailureKeepsId(started, at);
    SecondWriteWins(StoreAt(s, a, ids, at, p), i, failed, failed);
  }

  /** After a throw at any write the record tells the attempt that was started and that its effects failed. */
  lemma FailureReports(s: Store, i: nat, ids: FreshIds, at: int, point: Point)
    requires Inv(s) && i < |s.actions| && IsRunnable(s.actions[i]) && HasProposal(s.actions[i])
    requires point != BeforeStart
    ensures var a := s.actions[i]; var r := Attempt(s, a, ids, at, Throw(point));
            var mode := if a.executionType == COMMUNICATION_DRAFT then MANUAL_CONFIRMED else SYSTEM_INTERNAL;
            && r.outcome == Failure(EXECUTION_FAILED) && |r.store.actions| == |s.actions|
            && r.store.actions[i] ==
               a.(life := a.life.(status := FAILED, failedAt := Some(at), attempts := a.life.attempts + 1),
                  audit := a.audit + [Entry(ExecutionStarted(a.life.attempts + 1), at), Entry(ExecutionFailed, at)],
                  request := Some(Request(mode, at)), result := Some(Result(mode, EFFECT_FAILED)))
  {
    hide StoreAt, Finalized, WithAction, Inv, HasProposal;
    var a := s.actions[i];
    ThrowLeavesFailure(s, i, ids, at, point);
    assert a.audit + [Entry(ExecutionStarted(a.life.attempts + 1), at)] + [Entry(ExecutionFailed, at)]
        == a.audit + [Entry(ExecutionStarted(a.life.attempts + 1), at), Entry(ExecutionFailed, at)];
  }

  lemma FailureKeepsId(a: Action, at: int)
    ensures FailedAction(a, at).id == a.id && FailedAction(a, at).life.status == FAILED
  {
  }

  /**
   * A throw after the EXECUTED record, by the refresh that answers the call, is caught like a failed
   * effect: the record EXECUTED that was stored becomes FAILED exactly for that fault. Its log then holds
   * no EXECUTED entry.
   */
  lemma ExecutedIsTakenBack(s: Store, i: nat, ids: FreshIds, at: int, fault: Fault)
    requires Inv(s) && i < |s.actions| && IsRunnable(s.actions[i]) && HasProposal(s.actions[i])
    requires WritesExecuted(fault)
    ensures var a := s.actions[i]; var t := Attempt(s, a, ids, at, fault).store;
            && |StoreAt(s, a, ids, at, Finished).actions| == |s.actions|
            && StoreAt(s, a, ids, at, Finished).actions[i].life.status == EXECUTED
            && |t.actions| == |s.actions|
            && (t.actions[i].life.status != EXECUTED <==> fault == Throw(Finished))
            && (fault == Throw(Finished) ==> t.actions[i] == FailedAction(StartedAction(a, at), at))
  {
    hide StoreAt, Finalized, WithAction, Inv, HasProposal, FailedAction, StartedAction;
    FailureOverwritesExecuted(s, i, ids, at);
    ThrowLeavesFailure(s, i, ids, at, Finished);
    FailureKeepsId(StartedAction(s.actions[i], at), at);
  }

  // ------------------------------------------------------------------ recovery lost

  /** The interruptions after the next action is written and before EXECUTED stands. */
  predicate LosesTheRecord(fault: Fault) {
    fault in {Crash(OpportunityDone), Throw(OpportunityDone), Throw(Finished)}
  }

  /** What such an interruption leaves, whichever record the action has. */
  ghost predicate IsStuck(s: Store, a: Action, now: int) {
    && HasValidEffects(s, a) && !HasNoEffects(s, a) && !IsComplete(s, a) && !IsCurrent(s, a, now)
    && (var o := OpportunityIndex(s, a.opportunityId); o.Some? && !IsClosed(s.opportunities[o.value].stage))
  }

  lemma NextActionOfUnsafeTitle(s: Store, i: nat, ids: FreshIds, at: int, now: int)
    requires Inv(s) && i < |s.actions| && s.actions[i].life.status == EXECUTING && AreFresh(s, ids)
    requires HasProposal(s.actions[i]) && HasValidEffects(s, s.actions[i]) && IsTaskCreation(s.actions[i])
    requires IsCurrent(s, s.actions[i], now) && !TitleIsSafe(s, s.actions[i])
    requires s.actions[i].actionType == s.actions[i].basis.recommendation.actionType
    ensures IsStuck(AfterOpportunity(s, s.actions[i], ids, at), s.actions[i], now)
  {
    hide Inv, WithoutEffectsOf, EnsureTask, AfterActivity, AfterTask, SetNextAction, TitleInUse, LeavesBasis, Filter,
      AreValidEffects, FirstIndex, EnsureActivity, IsCurrent;
    var a := s.actions[i];
    var u := AfterActivity(s, a, ids, at);
    var title := TitleInUse(s.tasks, a);
    EffectStores(s, a, ids, at);
    AfterActivityIsValid(s, i, ids, at);
    InvHasDistinctTaskIds(s);
    TitleOfEnsuredTask(s.tasks, a, ids.taskId, at);
    ActivityStoreIsCurrent(s, a, ids, at, now);
    CurrentAfterNextAction(u, a, title, now);
  }

  lemma ActivityStoreIsCurrent(s: Store, a: Action, ids: FreshIds, at: int, now: int)
    requires HasProposal(a)
    ensures IsCurrent(AfterActivity(s, a, ids, at), a, now) == IsCurrent(s, a, now)
  {
    hide WithoutEffectsOf, EnsureTask, EnsureActivity, AfterTask, IsCurrent, AfterActivity;
    EffectStores(s, a, ids, at);
    var record :=
      if ProposesTask(a) then TaskRecord(a, EnsureTask(s.tasks, a, ids.taskId, at).task, ids.activityId, at)
      else CommunicationRecord(a, ids.activityId, at);
    OwnActivityIsLeftOut(s, a, record, now);
    ActivitiesAfter(s, a, ids, at);
    CurrentAgrees(s, AfterActivity(s, a, ids, at), a, a, now);
  }

  lemma ActivitiesAfter(s: Store, a: Action, ids: FreshIds, at: int)
    requires HasProposal(a)
    ensures var record :=
              if ProposesTask(a) then TaskRecord(a, EnsureTask(s.tasks, a, ids.taskId, at).task, ids.activityId, at)
              else CommunicationRecord(a, ids.activityId, at);
            AfterActivity(s, a, ids, at).activities == EnsureActivity(s.activities, record, a.id).0
  {
    hide EnsureTask, EnsureActivity;
  }

  lemma StuckUnderAnyRecord(s: Store, t: Store, a: Action, b: Action, now: int)
    requires HaveSameTarget(a, b) && t == s.(actions := t.actions)
    ensures IsStuck(t, b, now) == IsStuck(s, a, now)
  {
    hide HasValidEffects, IsComplete, IsCurrent, Filter, FirstIndex, WithoutEffectsOf;
    SameTargetSameEffects(s, a, b);
    ActionsDoNotMatter(s, t, b);
    CurrentAgrees(s, t, a, b, now);
  }

  /** A stuck action is cancelled as stale by the next execution. */
  lemma StuckIsCancelled(s: Store, i: nat, ids: FreshIds, now: int, fault: Fault)
    requires Inv(s) && i < |s.actions| && InRecovery(s.actions[i]) && IsStuck(s, s.actions[i], now)
    requires forall a | a in s.actions :: a.life.approvedAt.Some? ==> HasProposal(a)
    ensures var r := Execute(s, s.actions[i].id, true, ids, now, fault);
            && r.outcome == Failure(STALE)
            && |r.store.actions| == |s.actions| && r.store.actions[i].life.status == CANCELLED
  {
    hide Inv, HasValidEffects, IsComplete, Inspect, Attempt, WithAction, Filter, FirstIndex, BasisOf,
      BuildProposedExecution, HasNoEffects, WithoutEffectsOf;
    var a := s.actions[i];
    InvHasDistinctIds(s);
    IndexOfAction(s, i);
    SoundTypes(s, i);
    InspectorAccepts(s, a);
    var current := CurrentBasis(s, a.opportunityId, Some(a.id), now).value;
    var b := Superseded(a, SupersededAsStale(current), now);
    SecondWriteWins(s, i, b, b);
  }

  /**
   * The exact limit of recovery. Interrupt a current CREATE_TASK execution after it wrote the next action
   * and before EXECUTED stands. The retry completes if and only if the title was safe before the call;
   * otherwise it cancels the action as stale although all its effects are in place.
   */
  lemma RecoveryNeedsSafeTitle(s: Store, i: nat, first: FreshIds, at: int, fault: Fault, second: FreshIds, now: int)
    requires Inv(s) && i < |s.actions| && AreFresh(s, first) && LosesTheRecord(fault)
    requires IsRunnable(s.actions[i]) && HasProposal(s.actions[i]) && IsTaskCreation(s.actions[i])
    requires HasValidEffects(s, s.actions[i]) && (InRecovery(s.actions[i]) || HasNoEffects(s, s.actions[i]))
    requires IsCurrentAt(s, s.actions[i], {at, now})
    requires AreFresh(Attempt(s, s.actions[i], first, at, fault).store, second)
    ensures var a := s.actions[i];
            var t := Attempt(s, a, first, at, fault).store;
            && (forall b | b in t.actions :: b.life.approvedAt.Some? ==> HasProposal(b))
            && var r := Execute(t, a.id, true, second, now, NoFault);
            && i < |r.store.actions|
            && (r.store.actions[i].life.status == EXECUTED <==> TitleIsSafe(s, a))
            && (!TitleIsSafe(s, a) ==>
                  r.outcome == Failure(STALE) && r.store.actions[i].life.status == CANCELLED)
  {
    hide Inv, StoreAt, HasValidEffects, IsComplete, TitleIsSafe, HasProposal, Attempt, Execute, IsCurrent,
      IsTaskCreation, HasNoEffects, AreFresh, Evolves;
    var a := s.actions[i];
    var t := Attempt(s, a, first, at, fault).store;
    AttemptIsGood(s, i, first, at, fault);
    InvImpliesProposals(t);
    if TitleIsSafe(s, a) {
      AttemptIsRecoverable(s, i, first, at, fault, {at, now});
      ExecuteIsRecoverable(t, i, second, now, NoFault, {at, now});
    } else {
      UnsafeAttemptIsStuck(s, i, first, at, fault, now);
      StuckIsCancelled(t, i, second, now, NoFault);
    }
  }

  lemma UnsafeAttemptIsStuck(s: Store, i: nat, ids: FreshIds, at: int, fault: Fault, now: int)
    requires Inv(s) && i < |s.actions| && AreFresh(s, ids) && LosesTheRecord(fault)
    requires IsRunnable(s.actions[i]) && HasProposal(s.actions[i]) && IsTaskCreation(s.actions[i])
    requires HasValidEffects(s, s.actions[i]) && IsCurrent(s, s.actions[i], now) && !TitleIsSafe(s, s.actions[i])
    ensures var t := Attempt(s, s.actions[i], ids, at, fault).store;
            && i < |t.actions| && t.actions[i].id == s.actions[i].id && InRecovery(t.actions[i])
            && IsStuck(t, t.actions[i], now)
  {
    hide Inv, StoreAt, HasValidEffects, TitleIsSafe, HasProposal, IsCurrent, IsTaskCreation, WithAction, IsStuck,
      HaveDistinctIds;
    var a := s.actions[i];
    var started := StartedAction(a, at);
    var o := StoreAt(s, a, ids, at, OpportunityDone);
    StartedRecordStands(s, i, ids, at, OpportunityDone);
    UnsafePointIsStuck(s, i, ids, at, now);
    FailureOverwritesExecuted(s, i, ids, at);
    if fault != Crash(OpportunityDone) {
      var failed := FailedAction(started, at);
      InvHasDistinctIds(s);
      ReplacedKeepsDistinct(s.actions, i, started);
      SecondWriteWins(o, i, failed, failed);
      StuckUnderAnyRecord(o, WithAction(o, failed), started, failed, now);
    }
  }

  lemma UnsafePointIsStuck(s: Store, i: nat, ids: FreshIds, at: int, now: int)
    requires Inv(s) && i < |s.actions| && AreFresh(s, ids)
    requires IsRunnable(s.actions[i]) && HasProposal(s.actions[i]) && IsTaskCreation(s.actions[i])
    requires HasValidEffects(s, s.actions[i]) && IsCurrent(s, s.actions[i], now) && !TitleIsSafe(s, s.actions[i])
    ensures IsStuck(StoreAt(s, s.actions[i], ids, at, OpportunityDone), StartedAction(s.actions[i], at), now)
  {
    hide Inv, HasValidEffects, TitleIsSafe, IsCurrent, WithAction, IsStuck, AfterOpportunity, Evolves,
      WithoutEffectsOf;
    var a := s.actions[i];
    var started := StartedAction(a, at);
    var s1 := WithAction(s, started);
    StartIsGood(s, i, at);
    SoundTypes(s, i);
    SameTargetSameEffects(s, a, started);
    ActionsDoNotMatter(s, s1, started);
    TitleIsSafeFor(s, s1, a, started);
    CurrentAgrees(s, s1, a, started, now);
    NextActionOfUnsafeTitle(s1, i, ids, at, now);
  }

  // ------------------------------------------------------------------ a concrete loss

  const OPPORTUNITY := Opportunity("o", None, NEW, None, NoAmount, None, [], [], [], [])

  const BASIS := BasisOf(OPPORTUNITY, [], [], 0)

  /** An approved action for an opportunity without next action. */
  const APPROVED_ACTION := ApprovedAction(PreparedAction(NewAction("a", BASIS, 0), 0), 0)

  /** An open task that the action will reuse, retitled since it was recorded. */
  function RetitledTask(): Task {
    Task("t", "o", "Call", Some(HIGH), None, true, 0,
      TaskMetadata(DEAL_INTELLIGENCE, None, Some(CREATE_TASK), None,
        Some(ToLower(NormalizeText(TextOr(BASIS.recommendation.taskTitle, BASIS.recommendation.title)))), None))
  }

  function ExampleStore(): Store {
    Store([APPROVED_ACTION], [RetitledTask()], [], [OPPORTUNITY], [])
  }

  lemma ExampleBasis()
    ensures BASIS.recommendation.actionType == CREATE_TASK && BASIS.opportunityId == "o"
    ensures BASIS.recommendation.priority == HIGH
    ensures BASIS.facts.nextAction == None
    ensures BASIS.recommendation.taskTitle.Some? && |BASIS.recommendation.taskTitle.value| > 4
  {
    hide FirstValue, FirstContact, LatestActivity;
  }

  lemma ExampleAction()
    ensures var a := APPROVED_ACTION;
            && a.id == "a" && a.opportunityId == "o" && a.actionType == CREATE_TASK && a.executionType == INTERNAL_TASK
            && a.life.status == APPROVED && a.basis == BASIS && IsTaskCreation(a) && IsConsistent(a)
            && a.proposed.value.priority == HIGH
            && a.proposed.value.title == TextOr(BASIS.recommendation.taskTitle, BASIS.recommendation.title)
            && a.proposed.value.normalizedTitle == ToLower(NormalizeText(a.proposed.value.title))
  {
    hide NormalizeText, ToLower, BasisOf;
    ExampleBasis();
    var a := NewAction("a", BASIS, 0);
    var b := PreparedAction(a, 0);
    assert IsConsistent(a);
    FollowerIsConsistent(a, b);
    FollowerIsConsistent(b, ApprovedAction(b, 0));
  }

  lemma ExampleIsSound()
    ensures Inv(ExampleStore()) && HasNoEffects(ExampleStore(), APPROVED_ACTION)
  {
    hide BasisOf, NormalizeText, ToLower, Replay, BuildProposedExecution;
    ExampleAction();
    var s := ExampleStore();
    forall id: string ensures LinkedTasks(s, id) == [] && LinkedActivities(s, id) == [] {
      FilterNone(s.tasks, LinkedTo(id));
    }
    LoggedLifeIsLived(APPROVED_ACTION.audit);
    assert IsSound(s, APPROVED_ACTION);
  }

  lemma ExampleTitleIsUnsafe()
    ensures !TitleIsSafe(ExampleStore(), APPROVED_ACTION)
  {
    hide BasisOf, NormalizeText, ToLower, Replay, Trim;
    ExampleBasis();
    ExampleAction();
    var a := APPROVED_ACTION;
    var tasks := [RetitledTask()];
    assert IsEquivalentOpenTask(tasks[0], a);
    FirstIndexIs(tasks, 0, EquivalentOpenTask(a));
    assert TitleInUse(tasks, a) == "Call";
    assert |a.proposed.value.title| > 4;
    CallIsValue();
  }

  lemma CallIsValue()
    ensures HasValue(Some("Call"))
  {
    TrimKeepsTrimmed("Call");
    assert ToLower("Call")[0] == 'c';
  }

  lemma ExampleIsCurrent(now: int)
    ensures IsCurrent(ExampleStore(), APPROVED_ACTION, now)
  {
    hide NormalizeText, ToLower, BuildProposedExecution;
    ExampleAction();
  }

  /** Executing the first action twice, the first time stopped before EXECUTED, ends in a stale refusal. */
  ghost predicate RetryIsRefused(s: Store, first: FreshIds, at: int, second: FreshIds, now: int) {
    && s.actions != [] && HasProposal(s.actions[0])
    && var t := Attempt(s, s.actions[0], first, at, Crash(OpportunityDone)).store;
       && (forall b | b in t.actions :: b.life.approvedAt.Some? ==> HasProposal(b))
       && Execute(t, s.actions[0].id, true, second, now, NoFault).outcome == Failure(STALE)
  }

  /**
   * Approved for an opportunity without next action, interrupted after it reused the retitled task and
   * recorded its title: the retry cancels the action as stale.
   */
  lemma RetitledTaskLosesRecovery(at: int, now: int)
    ensures RetryIsRefused(ExampleStore(), FreshIds("t2", "v"), at, FreshIds("t3", "v2"), now)
  {
    hide Attempt, Execute, TitleIsSafe, IsCurrent, Inv, BasisOf, NormalizeText, ToLower, HasValidEffects,
      HasNoEffects, StoreAt;
    var s := ExampleStore();
    var a := APPROVED_ACTION;
    ExampleAction();
    ExampleIsSound();
    ExampleTitleIsUnsafe();
    ExampleIsCurrent(at);
    ExampleIsCurrent(now);
    NoEffectsAreValid(s, a);
    ExampleFreshness(at);
    RecoveryNeedsSafeTitle(s, 0, FreshIds("t2", "v"), at, Crash(OpportunityDone), FreshIds("t3", "v2"), now);
  }

  lemma NoEffectsAreValid(s: Store, a: Action)
    requires HasNoEffects(s, a)
    ensures HasValidEffects(s, a)
  {
  }

  lemma ExampleFreshness(at: int)
    ensures HasProposal(APPROVED_ACTION) && AreFresh(ExampleStore(), FreshIds("t2", "v"))
    ensures AreFresh(Attempt(ExampleStore(), APPROVED_ACTION, FreshIds("t2", "v"), at, Crash(OpportunityDone)).store,
              FreshIds("t3", "v2"))
  {
    hide BasisOf, NormalizeText, ToLower, EnsureActivity, SetNextAction;
    ExampleAction();
    assert "t3"[1] != "t2"[1] && "t"[..1] == "t" && |"t"| != |"t3"|;
  }
}

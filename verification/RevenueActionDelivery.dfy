/** What an execution that runs to its end delivers, and that complete effects are enough. */
module RevenueActionDelivery {
  import opened Text
  import opened Lists
  import opened Deals
  import opened RevenueActions
  import opened RevenueActionInvariant
  import opened RevenueActionRuns
  import opened RevenueActionRecovery

  /**
   * The effects stand: one activity of the right kind; for internal work one task as proposed; and after a
   * CREATE_TASK the title of that task as the next action of the opportunity.
   */
  predicate IsDelivered(s: Store, a: Action) {
    && HasValidEffects(s, a)
    && |LinkedActivities(s, a.id)| == 1
    && (ProposesTask(a) ==> |LinkedTasks(s, a.id)| == 1)
    && (IsTaskCreation(a) && |LinkedTasks(s, a.id)| == 1 ==>
          NextActionOf(s, a.opportunityId) == Some(LinkedTasks(s, a.id)[0].title))
  }

  function NextActionOf(s: Store, opportunityId: string): Option<string> {
    var o := OpportunityIndex(s, opportunityId);
    if o.None? then None else s.opportunities[o.value].nextAction
  }

  lemma NextActionIsWritten(s: Store, id: string, title: string)
    requires OpportunityIndex(s, id).Some?
    ensures NextActionOf(s.(opportunities := SetNextAction(s.opportunities, id, title)), id) == Some(title)
  {
    var i := OpportunityIndex(s, id).value;
    var after := SetNextAction(s.opportunities, id, title);
    FirstIndexIs(after, i, OpportunityWithId(id));
  }

  /** The three effect writes deliver, whatever part of the effects an earlier attempt had left. */
  lemma WritesDeliver(s: Store, i: nat, ids: FreshIds, at: int)
    requires Inv(s) && i < |s.actions| && s.actions[i].life.status == EXECUTING && AreFresh(s, ids)
    requires HasProposal(s.actions[i]) && HasValidEffects(s, s.actions[i])
    requires OpportunityIndex(s, s.actions[i].opportunityId).Some?
    ensures IsDelivered(AfterOpportunity(s, s.actions[i], ids, at), s.actions[i])
  {
    hide Inv, Filter, EnsureTask, AfterActivity, AfterTask, SetNextAction, FirstIndex, NextActionOf, TaskMatches,
      IsValidTaskRecord, IsValidMessageRecord;
    var a := s.actions[i];
    var t := AfterActivity(s, a, ids, at);
    var o := AfterOpportunity(s, a, ids, at);
    AfterActivityIsValid(s, i, ids, at);
    EffectStores(s, a, ids, at);
    if IsTaskCreation(a) {
      NextActionIsWritten(t, a.opportunityId, EnsureTask(s.tasks, a, ids.taskId, at).task.title);
    }
  }

  lemma DeliveryIgnoresActions(s: Store, t: Store, a: Action, b: Action)
    requires t == s.(actions := t.actions) && HaveSameTarget(a, b)
    ensures IsDelivered(t, b) == IsDelivered(s, a)
  {
    hide Filter, FirstIndex;
    ActionsDoNotMatter(s, t, b);
    SameTargetSameEffects(s, a, b);
  }

  /**
   * Delivery: an attempt that runs to its end leaves the action EXECUTED and naming the one task and the one
   * activity that are linked to it; these are valid effects, and the opportunity has its next action.
   */
  lemma ExecutionDelivers(s: Store, i: nat, ids: FreshIds, at: int)
    requires Inv(s) && i < |s.actions| && IsRunnable(s.actions[i]) && AreFresh(s, ids)
    requires HasProposal(s.actions[i]) && HasValidEffects(s, s.actions[i])
    requires OpportunityIndex(s, s.actions[i].opportunityId).Some?
    ensures var t := Attempt(s, s.actions[i], ids, at, NoFault).store;
            && |t.actions| == |s.actions|
            && var b := t.actions[i];
               && b.id == s.actions[i].id && b.life.status == EXECUTED && IsDelivered(t, b)
               && b.life.activityId == Some(LinkedActivities(t, b.id)[0].id)
               && b.life.taskId == if ProposesTask(b) then Some(LinkedTasks(t, b.id)[0].id) else None
  {
    hide Inv, Filter, StoreAt, Finalized, WithAction, HaveDistinctIds, HasProposal, HasValidEffects, FirstIndex,
      IsDelivered, ExecutedAction;
    var a := s.actions[i];
    var started := StartedAction(a, at);
    var s1 := WithAction(s, started);
    StartIsGood(s, i, at);
    InvHasDistinctIds(s);
    ReplacedKeepsDistinct(s.actions, i, started);
    FinishedStore(s, a, ids, at);
    EveryPointIsGood(s, i, ids, at, Finished);
    StartedRecordStands(s, i, ids, at, OpportunityDone);
    var done := Finalized(s1, started, ids, at);
    var before := StoreAt(s, a, ids, at, OpportunityDone);
    FinalizedIsExecuted(s1, started, ids, at);
    SecondWriteWins(before, i, done, done);
    SameEffectsOfStarted(s, s1, a, started);
    DoneHasTarget(s, s1, a, started, ids, at);
    WritesDeliver(s1, i, ids, at);
    BeforeFinish(s, a, ids, at);
    DeliveryIgnoresActions(before, WithAction(before, done), started, done);
    ExecutedNamesEffects(WithAction(before, done), i);
  }

  /**
   * What a completed attempt reports: a message was confirmed by the user; internal work created its task exactly when
   * there is one task more than before, and else reused one. The request carries the mode and time of the start.
   */
  lemma ExecutionReports(s: Store, i: nat, ids: FreshIds, at: int)
    requires Inv(s) && i < |s.actions| && IsRunnable(s.actions[i]) && HasProposal(s.actions[i])
    ensures var a := s.actions[i]; var t := Attempt(s, a, ids, at, NoFault).store;
            var mode := if a.executionType == COMMUNICATION_DRAFT then MANUAL_CONFIRMED else SYSTEM_INTERNAL;
            && |t.actions| == |s.actions| && |s.tasks| <= |t.tasks| <= |s.tasks| + 1
            && Attempt(s, a, ids, at, NoFault).outcome == Success(t.actions[i], false)
            && t.actions[i].request == Some(Request(mode, at))
            && t.actions[i].result == Some(Result(mode,
                 if a.executionType == COMMUNICATION_DRAFT then USER_CONFIRMED_COMPLETION
                 else if |t.tasks| > |s.tasks| then TASK_CREATED else TASK_REUSED))
  {
    hide Inv, Filter, StoreAt, Finalized, WithAction, HaveDistinctIds, HasProposal, FirstIndex, StartedAction;
    var a := s.actions[i];
    var started := StartedAction(a, at);
    var s1 := WithAction(s, started);
    StartIsGood(s, i, at);
    InvHasDistinctIds(s);
    StartedSays(a, at);
    SameProposal(a, started);
    ReplacedKeepsDistinct(s.actions, i, started);
    FinishedStore(s, a, ids, at);
    StartedRecordStands(s, i, ids, at, OpportunityDone);
    BeforeFinish(s, a, ids, at);
    var done := Finalized(s1, started, ids, at);
    var before := StoreAt(s, a, ids, at, OpportunityDone);
    FinalizedIsExecuted(s1, started, ids, at);
    SecondWriteWins(before, i, done, done);
    ResultIsReported(s1, started, ids, at);
  }

  lemma StartedSays(a: Action, at: int)
    ensures var b := StartedAction(a, at);
            && b.executionType == a.executionType && b.proposed == a.proposed && b.id == a.id
            && b.request == Some(Request(if a.executionType == COMMUNICATION_DRAFT then MANUAL_CONFIRMED
                                         else SYSTEM_INTERNAL, at))
  {
  }

  lemma ResultIsReported(s: Store, a: Action, ids: FreshIds, at: int)
    requires HasProposal(a)
    ensures var t := AfterOpportunity(s, a, ids, at);
            var b := Finalized(s, a, ids, at);
            && |s.tasks| <= |t.tasks| <= |s.tasks| + 1 && b.request == a.request
            && b.result == Some(
                 if a.executionType == COMMUNICATION_DRAFT then Result(MANUAL_CONFIRMED, USER_CONFIRMED_COMPLETION)
                 else Result(SYSTEM_INTERNAL, if |t.tasks| > |s.tasks| then TASK_CREATED else TASK_REUSED))
  {
    hide FirstIndex, EnsureActivity, SetNextAction, IsEquivalentOpenTask, Filter, TaskIndex;
    EffectStores(s, a, ids, at);
  }

  lemma SameEffectsOfStarted(s: Store, s1: Store, a: Action, started: Action)
    requires s1 == s.(actions := s1.actions) && HaveSameTarget(a, started) && HasValidEffects(s, a)
    requires OpportunityIndex(s, a.opportunityId).Some?
    ensures HasValidEffects(s1, started) && OpportunityIndex(s1, started.opportunityId).Some?
  {
    hide Filter, FirstIndex;
    ActionsDoNotMatter(s, s1, started);
    SameTargetSameEffects(s, a, started);
  }

  lemma DoneHasTarget(s: Store, s1: Store, a: Action, started: Action, ids: FreshIds, at: int)
    requires HasProposal(a) && started == StartedAction(a, at)
    ensures HasProposal(started) && HaveSameTarget(started, Finalized(s1, started, ids, at))
    ensures HaveSameTarget(a, started)
  {
    hide TaskOf, ActivityOf, ResultOf;
  }

  lemma BeforeFinish(s: Store, a: Action, ids: FreshIds, at: int)
    requires HasProposal(a)
    ensures HasProposal(StartedAction(a, at))
    ensures StoreAt(s, a, ids, at, OpportunityDone)
            == AfterOpportunity(WithAction(s, StartedAction(a, at)), StartedAction(a, at), ids, at)
  {
    hide AfterOpportunity, WithAction;
  }

  /** An EXECUTED action of a sound store names its effects. */
  lemma ExecutedNamesEffects(t: Store, i: nat)
    requires Inv(t) && i < |t.actions| && t.actions[i].life.status == EXECUTED && IsDelivered(t, t.actions[i])
    ensures var b := t.actions[i];
            && |LinkedActivities(t, b.id)| == 1 && b.life.activityId == Some(LinkedActivities(t, b.id)[0].id)
            && (ProposesTask(b) ==> |LinkedTasks(t, b.id)| == 1 && b.life.taskId == Some(LinkedTasks(t, b.id)[0].id))
            && (!ProposesTask(b) ==> b.life.taskId == None)
  {
    hide Filter, Replay, NextActionOf;
    assert IsSound(t, t.actions[i]);
    LoggedLifeIsLived(t.actions[i].audit);
    ApprovedHasProposal(t.actions[i]);
  }

  // ------------------------------------------------------------------ complete effects are enough

  /**
   * Whatever the advice has become, executing an action in recovery whose effects are complete records them: the
   * action is EXECUTED, it names the linked task and activity, and nothing else changes.
   */
  lemma CompleteIsReconciled(s: Store, i: nat, ids: FreshIds, now: int, fault: Fault)
    requires Inv(s) && i < |s.actions| && InRecovery(s.actions[i])
    requires HasValidEffects(s, s.actions[i]) && IsComplete(s, s.actions[i])
    requires forall a | a in s.actions :: a.life.approvedAt.Some? ==> HasProposal(a)
    ensures var a := s.actions[i]; var r := Execute(s, a.id, true, ids, now, fault);
            && |r.store.actions| == |s.actions| && r.store == s.(actions := r.store.actions)
            && var b := r.store.actions[i];
               && r.outcome == Success(b, false) && b.id == a.id && b.life.status == EXECUTED
               && |LinkedActivities(s, a.id)| == 1 && b.life.activityId == Some(LinkedActivities(s, a.id)[0].id)
               && |LinkedTasks(s, a.id)| <= 1
               && b.life.taskId == (if LinkedTasks(s, a.id) == [] then None else Some(LinkedTasks(s, a.id)[0].id))
               && b.result == Some(Result(if a.executionType == COMMUNICATION_DRAFT then MANUAL_CONFIRMED
                                          else SYSTEM_INTERNAL, RECOVERED_LINKED_EFFECTS))
  {
    hide Inv, Inspect, Filter, WithAction, HaveDistinctIds, TaskMatches, IsValidTaskRecord, IsValidMessageRecord,
      Proceed, HasProposal, FirstIndex, NextActionIsSet;
    var a := s.actions[i];
    InvHasDistinctIds(s);
    IndexOfAction(s, i);
    SoundTypes(s, i);
    InspectorAccepts(s, a);
    CompleteHasEffects(s, a);
    CompleteProceeds(s, a, ids, now, fault);
    var b := Recovered(a, Inspect(s, a), now);
    SecondWriteWins(s, i, b, b);
  }

  lemma CompleteProceeds(s: Store, a: Action, ids: FreshIds, now: int, fault: Fault)
    requires HasProposal(a) && InRecovery(a) && Inspect(s, a).Consistent? && Inspect(s, a).complete
    ensures var b := Recovered(a, Inspect(s, a), now);
            Proceed(s, a, ids, now, fault) == Step(WithAction(s, b), Success(b, false))
  {
    hide Inspect, WithAction, Recovered, Attempt, Validate;
  }

  /** An action whose EXECUTED record was overwritten still has all its effects, but for a title that differs. */
  lemma TakenBackIsComplete(s: Store, i: nat, ids: FreshIds, at: int)
    requires Inv(s) && i < |s.actions| && IsRunnable(s.actions[i]) && AreFresh(s, ids)
    requires HasProposal(s.actions[i]) && HasValidEffects(s, s.actions[i])
    requires OpportunityIndex(s, s.actions[i].opportunityId).Some?
    ensures var a := s.actions[i];
            var stored := StoreAt(s, a, ids, at, Finished);
            var t := Attempt(s, a, ids, at, Throw(Finished)).store;
            && |stored.actions| == |s.actions| && |t.actions| == |s.actions| && t == stored.(actions := t.actions)
            && stored.actions[i].life.status == EXECUTED
            && t.actions[i].id == a.id && t.actions[i].executionType == a.executionType
            && InRecovery(t.actions[i]) && HasValidEffects(t, t.actions[i])
            && |LinkedActivities(t, a.id)| == 1
            && stored.actions[i].life.activityId == Some(LinkedActivities(t, a.id)[0].id)
            && (ProposesTask(a) ==> |LinkedTasks(t, a.id)| == 1)
            && stored.actions[i].life.taskId == (if ProposesTask(a) then Some(LinkedTasks(t, a.id)[0].id) else None)
            && (IsComplete(t, t.actions[i]) <==>
                (IsTaskCreation(a) ==> TitleInUse(s.tasks, a) == a.proposed.value.title))
  {
    hide Inv, Filter, StoreAt, Finalized, WithAction, HaveDistinctIds, HasProposal, HasValidEffects, FirstIndex,
      IsComplete, TitleInUse, NextActionOf;
    var a := s.actions[i];
    var started := StartedAction(a, at);
    var failed := FailedAction(started, at);
    var stored := StoreAt(s, a, ids, at, Finished);
    ExecutionDelivers(s, i, ids, at);
    FailureOverwritesExecuted(s, i, ids, at);
    EveryPointIsGood(s, i, ids, at, Finished);
    InvHasDistinctIds(stored);
    FinishedKeepsIds(s, i, ids, at);
    SecondWriteWins(stored, i, failed, failed);
    var t := Attempt(s, a, ids, at, Throw(Finished)).store;
    FinishedTarget(s, i, ids, at);
    DeliveryIgnoresActions(stored, t, stored.actions[i], failed);
    SameTargetSameLinks(stored, t, a.id);
    TitleInStore(s, i, ids, at);
    SameProposal(a, failed);
    DeliveredIsComplete(t, failed);
  }

  /**
   * EXECUTED taken back is restored. After a throw behind the EXECUTED record, let anybody else write until effects of
   * the action are found complete: executing again restores EXECUTED with the very links that had been recorded,
   * whether or not the advice is still current.
   */
  lemma TakenBackIsRestored(s: Store, i: nat, ids: FreshIds, at: int, u: Store, second: FreshIds, now: int,
                            fault: Fault)
    requires Inv(s) && i < |s.actions| && IsRunnable(s.actions[i]) && AreFresh(s, ids)
    requires HasProposal(s.actions[i]) && HasValidEffects(s, s.actions[i])
    requires OpportunityIndex(s, s.actions[i].opportunityId).Some?
    requires IsForeign(Attempt(s, s.actions[i], ids, at, Throw(Finished)).store, u)
    requires i < |u.actions| && HasValidEffects(u, u.actions[i]) && IsComplete(u, u.actions[i])
    requires forall a | a in u.actions :: a.life.approvedAt.Some? ==> HasProposal(a)
    ensures var a := s.actions[i];
            var stored := StoreAt(s, a, ids, at, Finished);
            var r := Execute(u, a.id, true, second, now, fault);
            && i < |stored.actions| && i < |r.store.actions| && r.store == u.(actions := r.store.actions)
            && r.outcome == Success(r.store.actions[i], false) && r.store.actions[i].life.status == EXECUTED
            && r.store.actions[i].life.taskId == stored.actions[i].life.taskId
            && r.store.actions[i].life.activityId == stored.actions[i].life.activityId
  {
    hide Inv, Filter, StoreAt, WithAction, HaveDistinctIds, HasProposal, HasValidEffects, FirstIndex, IsComplete,
      Execute, Attempt, TitleInUse, Evolves;
    var a := s.actions[i];
    var t := Attempt(s, a, ids, at, Throw(Finished)).store;
    TakenBackIsComplete(s, i, ids, at);
    AttemptIsGood(s, i, ids, at, Throw(Finished));
    ForeignIsGood(t, u);
    CompleteIsReconciled(u, i, second, now, fault);
    assert |LinkedTasks(u, a.id)| == |LinkedTasks(t, a.id)| && LinkedActivities(u, a.id) == LinkedActivities(t, a.id);
    assert SameFirst(LinkedTasks(t, a.id), LinkedTasks(u, a.id));
    if !ProposesTask(a) { NoTaskForMessage(t, t.actions[i], a); }
  }

  lemma NoTaskForMessage(t: Store, b: Action, a: Action)
    requires HasValidEffects(t, b) && b.id == a.id && HasProposal(a) && !ProposesTask(a)
             && b.executionType == a.executionType
    ensures LinkedTasks(t, a.id) == []
  {
    hide Filter;
  }

  lemma SameProposal(a: Action, b: Action)
    requires HasProposal(a) && b.executionType == a.executionType && b.proposed == a.proposed
    ensures HasProposal(b)
  {
  }

  lemma SameTargetSameLinks(s: Store, t: Store, id: string)
    requires t == s.(actions := t.actions)
    ensures LinkedTasks(t, id) == LinkedTasks(s, id) && LinkedActivities(t, id) == LinkedActivities(s, id)
  {
  }

  lemma FinishedTarget(s: Store, i: nat, ids: FreshIds, at: int)
    requires Inv(s) && i < |s.actions| && IsRunnable(s.actions[i]) && HasProposal(s.actions[i])
    ensures var stored := StoreAt(s, s.actions[i], ids, at, Finished);
            && |stored.actions| == |s.actions|
            && HaveSameTarget(stored.actions[i], FailedAction(StartedAction(s.actions[i], at), at))
  {
    hide Inv, Filter, StoreAt, Finalized, WithAction, HaveDistinctIds, HasProposal, FirstIndex;
    var a := s.actions[i];
    var started := StartedAction(a, at);
    InvHasDistinctIds(s);
    ReplacedKeepsDistinct(s.actions, i, started);
    StartedRecordStands(s, i, ids, at, OpportunityDone);
    FinishedStore(s, a, ids, at);
    var done := Finalized(WithAction(s, started), started, ids, at);
    DoneHasTarget(s, WithAction(s, started), a, started, ids, at);
    SecondWriteWins(StoreAt(s, a, ids, at, OpportunityDone), i, done, done);
  }

  /** The task linked in the end carries the title in use before. */
  lemma TitleInStore(s: Store, i: nat, ids: FreshIds, at: int)
    requires Inv(s) && i < |s.actions| && IsRunnable(s.actions[i]) && AreFresh(s, ids)
    requires ProposesTask(s.actions[i]) ==> HasValidEffects(s, s.actions[i])
    requires HasProposal(s.actions[i]) && OpportunityIndex(s, s.actions[i].opportunityId).Some?
    ensures ProposesTask(s.actions[i]) ==>
              var t := LinkedTasks(StoreAt(s, s.actions[i], ids, at, Finished), s.actions[i].id);
              t != [] && t[0].title == TitleInUse(s.tasks, s.actions[i])
  {
    hide Inv, Filter, StoreAt, Finalized, HasValidEffects, FirstIndex, TitleInUse, EnsureTask, AfterActivity,
      SetNextAction;
    var a := s.actions[i];
    if ProposesTask(a) {
      var started := StartedAction(a, at);
      var s1 := WithAction(s, started);
      StartIsGood(s, i, at);
      SameEffectsOfStarted(s, s1, a, started);
      AfterActivityIsValid(s1, i, ids, at);
      InvHasDistinctTaskIds(s1);
      TitleOfEnsuredTask(s1.tasks, started, ids.taskId, at);
      SameTitleInUse(s.tasks, a, started);
      EffectStores(s1, started, ids, at);
      BeforeFinish(s, a, ids, at);
      FinishedStore(s, a, ids, at);
      SameTargetSameLinks(StoreAt(s, a, ids, at, OpportunityDone), StoreAt(s, a, ids, at, Finished), a.id);
    }
  }

  lemma SameTitleInUse(tasks: seq<Task>, a: Action, b: Action)
    requires HaveSameTarget(a, b) && ProposesTask(a)
    ensures ProposesTask(b) && TitleInUse(tasks, b) == TitleInUse(tasks, a)
  {
    SameFirstIndex(tasks, EquivalentOpenTask(a), EquivalentOpenTask(b));
  }

  /** Delivered effects are complete exactly when the title written is the proposed one. */
  lemma DeliveredIsComplete(t: Store, a: Action)
    requires IsDelivered(t, a) && HasProposal(a)
    ensures IsTaskCreation(a) ==> |LinkedTasks(t, a.id)| == 1
    ensures IsComplete(t, a) <==> (IsTaskCreation(a) ==> LinkedTasks(t, a.id)[0].title == a.proposed.value.title)
  {
    hide Filter, FirstIndex, HasValidEffects;
  }
}

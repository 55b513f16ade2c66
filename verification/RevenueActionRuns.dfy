/** Runs of service calls, interrupted anywhere, mixed with what the rest of the program writes. */
module RevenueActionRuns {
  import opened Text
  import opened Lists
  import opened Deals
  import opened RevenueActions
  import opened RevenueActionInvariant

  // ------------------------------------------------------------------ what a step may change

  /** An action keeps its identity, only gains audit entries, and is frozen once terminal. */
  predicate Persists(a: Action, b: Action) {
    && b.id == a.id && b.opportunityId == a.opportunityId && b.actionType == a.actionType
    && b.executionType == a.executionType && b.basis == a.basis && b.createdAt == a.createdAt
    && a.audit <= b.audit
    && (a.proposed.Some? ==> b.proposed == a.proposed)
    && (IsTerminal(a.life.status) ==> b == a)
  }

  predicate SameFirst(u: seq<Task>, v: seq<Task>) {
    u != [] ==> v != [] && v[0].id == u[0].id
  }

  /** Linked effects stay linked, and stay the first ones. */
  ghost predicate KeepsLinks(s: Store, t: Store) {
    forall id: string ::
      SameFirst(LinkedTasks(s, id), LinkedTasks(t, id)) && LinkedActivities(s, id) <= LinkedActivities(t, id)
  }

  ghost predicate Evolves(s: Store, t: Store) {
    && |s.actions| <= |t.actions|
    && (forall k | 0 <= k < |s.actions| :: Persists(s.actions[k], t.actions[k]))
    && KeepsLinks(s, t)
  }

  lemma EvolvesTransitive(s: Store, t: Store, u: Store)
    requires Evolves(s, t) && Evolves(t, u)
    ensures Evolves(s, u)
  {
    hide LinkedTasks, LinkedActivities;
    forall k | 0 <= k < |s.actions| ensures Persists(s.actions[k], u.actions[k]) {
      assert Persists(s.actions[k], t.actions[k]) && Persists(t.actions[k], u.actions[k]);
    }
    forall id: string
      ensures SameFirst(LinkedTasks(s, id), LinkedTasks(u, id))
      ensures LinkedActivities(s, id) <= LinkedActivities(u, id)
    {
      assert SameFirst(LinkedTasks(s, id), LinkedTasks(t, id));
      assert SameFirst(LinkedTasks(t, id), LinkedTasks(u, id));
    }
  }

  lemma FollowingPersists(a: Action, b: Action)
    requires Follows(a, b)
    ensures Persists(a, b)
  {
  }

  lemma UpdateEvolves(s: Store, actions: seq<Action>)
    requires |actions| == |s.actions|
    requires forall k | 0 <= k < |actions| :: actions[k] == s.actions[k] || Follows(s.actions[k], actions[k])
    ensures Evolves(s, s.(actions := actions))
  {
    hide Filter, Advance;
    forall k | 0 <= k < |s.actions| ensures Persists(s.actions[k], actions[k]) {
      if actions[k] != s.actions[k] { FollowingPersists(s.actions[k], actions[k]); }
    }
  }

  lemma ReplaceEvolves(s: Store, i: nat, b: Action)
    requires Inv(s) && i < |s.actions| && Follows(s.actions[i], b)
    ensures Evolves(s, WithAction(s, b))
  {
    hide Filter, Advance, Inv;
    assert HaveDistinctIds(s.actions) by { InvHasDistinctIds(s); }
    IndexOfAction(s, i);
    UpdateEvolves(s, s.actions[i := b]);
  }

  lemma InvHasDistinctIds(s: Store)
    requires Inv(s)
    ensures HaveDistinctIds(s.actions)
  {
  }

  /** What a step must deliver: the invariant, and nothing taken back. */
  ghost predicate GoodStep(s: Store, t: Store) {
    Inv(t) && Evolves(s, t)
  }

  // ------------------------------------------------------------------ preparation, approval, refusal

  lemma ReplaceIsGood(s: Store, i: nat, b: Action)
    requires Inv(s) && i < |s.actions| && Follows(s.actions[i], b) && Inv(WithAction(s, b))
    ensures GoodStep(s, WithAction(s, b))
  {
    hide Filter, Inv, WithAction, Evolves;
    ReplaceEvolves(s, i, b);
  }

  lemma MoveIsGood(s: Store, i: nat, life: Life, transition: Transition, at: int)
    requires Inv(s) && i < |s.actions|
    requires Advance(s.actions[i].life, Entry(transition, at)) == Some(life)
    requires transition != Prepared && !transition.ExecutionStarted? && !transition.Executed?
    ensures GoodStep(s, WithAction(s, Move(s.actions[i], life, transition, at)))
  {
    hide Filter, Inv, WithAction, GoodStep;
    MoveKeepsInv(s, i, life, transition, at);
    ReplaceIsGood(s, i, Move(s.actions[i], life, transition, at));
  }

  lemma StayIsGood(s: Store)
    requires Inv(s)
    ensures GoodStep(s, s)
  {
  }

  lemma ValidateIsGood(s: Store, i: nat, operation: Operation, exclude: Option<string>, at: int)
    requires Inv(s) && i < |s.actions| && IsActive(s.actions[i].life.status)
    ensures var r := Validate(s, s.actions[i], operation, exclude, at);
            r.Some? ==> GoodStep(s, r.value.store)
  {
    hide Filter, Inv, WithAction, Evolves, GoodStep, BasisOf;
    var a := s.actions[i];
    var r := Validate(s, a, operation, exclude, at);
    if r.Some? {
      StayIsGood(s);
      var life := a.life.(status := CANCELLED, cancelledAt := Some(at));
      if r.value.outcome == Failure(OPPORTUNITY_CLOSED) {
        var stage := s.opportunities[OpportunityIndex(s, a.opportunityId).value].stage;
        MoveIsGood(s, i, life, SupersededClosed(stage, operation), at);
      } else if r.value.outcome == Failure(STALE) {
        var current := CurrentBasis(s, a.opportunityId, exclude, at).value;
        MoveIsGood(s, i, life, SupersededAsStale(current), at);
      }
    }
  }

  lemma PrepareIsGood(s: Store, id: string, at: int)
    requires Inv(s)
    ensures GoodStep(s, Prepare(s, id, at).store)
  {
    hide Filter, Inv, WithAction, Evolves, GoodStep, Validate, BuildProposedExecution;
    StayIsGood(s);
    var i := ActionIndex(s, id);
    if i.Some? && s.actions[i.value].life.status in {RECOMMENDED, PREPARED} {
      var a := s.actions[i.value];
      ValidateIsGood(s, i.value, PREPARE, None, at);
      if a.life.status == RECOMMENDED {
        PrepareKeepsInv(s, i.value, at);
        ReplaceIsGood(s, i.value, PreparedAction(a, at));
      }
    }
  }

  lemma ApproveIsGood(s: Store, id: string, at: int)
    requires Inv(s)
    ensures GoodStep(s, Approve(s, id, at).store)
  {
    hide Filter, Inv, WithAction, Evolves, GoodStep, Validate;
    StayIsGood(s);
    var i := ActionIndex(s, id);
    if i.Some? && s.actions[i.value].life.status in {PREPARED, APPROVED} {
      var a := s.actions[i.value];
      ValidateIsGood(s, i.value, APPROVE, None, at);
      if a.life.status == PREPARED {
        MoveIsGood(s, i.value, a.life.(status := APPROVED, approvedAt := Some(at)), Approved, at);
      }
    }
  }

  lemma RejectIsGood(s: Store, id: string, reason: string, at: int)
    requires Inv(s)
    ensures GoodStep(s, Reject(s, id, reason, at).store)
  {
    hide Filter, Inv, WithAction, Evolves, GoodStep, NormalizeText;
    StayIsGood(s);
    var i := ActionIndex(s, id);
    if i.Some? && s.actions[i.value].life.status == PREPARED {
      var b := RejectedAction(s.actions[i.value], reason, at);
      MoveIsGood(s, i.value, b.life, Rejected(b.life.rejectionReason), at);
    }
  }

  lemma CancelIsGood(s: Store, id: string, at: int)
    requires Inv(s)
    ensures GoodStep(s, Cancel(s, id, at).store)
  {
    hide Filter, Inv, WithAction, Evolves, GoodStep;
    StayIsGood(s);
    var i := ActionIndex(s, id);
    if i.Some? && s.actions[i.value].life.status in {RECOMMENDED, PREPARED} {
      var a := s.actions[i.value];
      MoveIsGood(s, i.value, a.life.(status := CANCELLED, cancelledAt := Some(at)), Cancelled, at);
    }
  }

  // ------------------------------------------------------------------ materialisation

  /** Clearing the incompatible actions touches none that has linked effects. */
  lemma ClearingSparesEffects(s: Store, basis: Basis, k: nat)
    requires Inv(s) && FirstIndex(s.actions, Blocks(s, basis)).None? && k < |s.actions|
    requires LinkedTasks(s, s.actions[k].id) != [] || LinkedActivities(s, s.actions[k].id) != []
    ensures !IsIncompatible(s.actions[k], basis)
  {
    hide Filter, FirstIndex, Replay;
    var a := s.actions[k];
    assert IsSound(s, a) && !Blocks(s, basis)(a);
    LoggedLifeIsLived(a.audit);
  }

  lemma ClearingIsGood(s: Store, basis: Basis, at: int)
    requires Inv(s)
    ensures GoodStep(s, s.(actions := CancelIncompatible(s.actions, basis, at)))
  {
    hide Filter, WithAction, Replay, BuildProposedExecution, LinkedTasks, LinkedActivities, Evolves;
    var actions := CancelIncompatible(s.actions, basis, at);
    forall k | 0 <= k < |actions|
      ensures actions[k] == s.actions[k] || (Follows(s.actions[k], actions[k]) && IsSound(s, actions[k]))
    {
      var a := s.actions[k];
      assert IsSound(s, a);
      if IsIncompatible(a, basis) { FollowerIsConsistent(a, actions[k]); }
    }
    UpdateKeepsInv(s, actions);
    UpdateEvolves(s, actions);
  }

  /** Once cleared of incompatible actions, an opportunity has an active action only if it is a duplicate. */
  lemma ClearedOfAll(s: Store, basis: Basis, at: int, k: nat)
    requires var c := CancelIncompatible(s.actions, basis, at);
             FirstIndex(c, IsDuplicateFor(basis)).None? && k < |c|
    ensures var c := CancelIncompatible(s.actions, basis, at);
            c[k].opportunityId == basis.opportunityId ==> !IsActive(c[k].life.status)
  {
    hide FirstIndex;
    var c := CancelIncompatible(s.actions, basis, at);
    assert !IsDuplicateFor(basis)(c[k]);
  }

  lemma InsertIsGood(s: Store, basis: Basis, newId: string, at: int)
    requires Inv(s) && ActionIndex(s, newId).None?
    requires forall k | 0 <= k < |s.actions| ::
               s.actions[k].opportunityId == basis.opportunityId ==> !IsActive(s.actions[k].life.status)
    ensures GoodStep(s, s.(actions := s.actions + [NewAction(newId, basis, at)]))
  {
    hide Filter, FirstIndex, BuildProposedExecution;
    var a := NewAction(newId, basis, at);
    var t := s.(actions := s.actions + [a]);
    assert LinkedTasks(s, newId) == [] && LinkedActivities(s, newId) == [];
    forall k | 0 <= k < |s.actions| ensures t.actions[k].id != newId && IsSound(t, t.actions[k]) {
      assert IsSound(s, s.actions[k]) && !HasId(newId)(s.actions[k]);
    }
    assert IsSound(t, a);
    SameIdsKnown(s, t);
  }

  lemma MaterializeIsGood(s: Store, opportunityId: string, newId: string, at: int, interrupted: bool)
    requires Inv(s) && ActionIndex(s, newId).None?
    ensures GoodStep(s, Materialize(s, opportunityId, newId, at, interrupted).store)
  {
    hide Filter, Inv, Evolves, BasisOf;
    StayIsGood(s);
    var r := Materialize(s, opportunityId, newId, at, interrupted);
    if r.store != s {
      var basis := CurrentBasis(s, opportunityId, None, at).value;
      var cleared := s.(actions := CancelIncompatible(s.actions, basis, at));
      ClearingIsGood(s, basis, at);
      if r.store != cleared {
        forall k | 0 <= k < |cleared.actions|
          ensures cleared.actions[k].opportunityId == basis.opportunityId
                  ==> !IsActive(cleared.actions[k].life.status)
        {
          ClearedOfAll(s, basis, at, k);
        }
        ClearingKeepsIds(s, basis, at, newId);
        InsertIsGood(cleared, basis, newId, at);
        EvolvesTransitive(s, cleared, r.store);
      }
    }
  }

  lemma ClearingKeepsIds(s: Store, basis: Basis, at: int, id: string)
    requires ActionIndex(s, id).None?
    ensures ActionIndex(s.(actions := CancelIncompatible(s.actions, basis, at)), id).None?
  {
    hide FirstIndex;
    var c := CancelIncompatible(s.actions, basis, at);
    forall k | 0 <= k < |c| ensures !HasId(id)(c[k]) {
      assert !HasId(id)(s.actions[k]);
    }
  }

  // ------------------------------------------------------------------ execution

  predicate IsRunnable(a: Action) {
    a.life.status in {APPROVED, EXECUTING, FAILED}
  }

  lemma RunnableHasProposal(s: Store, i: nat)
    requires Inv(s) && i < |s.actions| && IsRunnable(s.actions[i])
    ensures HasProposal(s.actions[i])
  {
    hide Replay, BuildProposedExecution, Filter;
    assert IsSound(s, s.actions[i]);
    LoggedLifeIsLived(s.actions[i].audit);
    ApprovedHasProposal(s.actions[i]);
  }

  /** The store right after EXECUTION_STARTED is written. */
  lemma StartIsGood(s: Store, i: nat, at: int)
    requires Inv(s) && i < |s.actions| && IsRunnable(s.actions[i])
    ensures var b := StartedAction(s.actions[i], at);
            WithAction(s, b) == s.(actions := s.actions[i := b]) && GoodStep(s, WithAction(s, b))
  {
    hide Filter, Evolves, FirstIndex, Replay;
    StartKeepsInv(s, i, at);
    IndexOfAction(s, i);
    ReplaceIsGood(s, i, StartedAction(s.actions[i], at));
  }

  lemma LinksGrow(s: Store, t: Store, actionId: string)
    requires t.actions == s.actions
    requires LinkedTasks(s, actionId) <= LinkedTasks(t, actionId)
    requires LinkedActivities(s, actionId) <= LinkedActivities(t, actionId)
    requires forall id: string | id != actionId ::
               LinkedTasks(t, id) == LinkedTasks(s, id) && LinkedActivities(t, id) == LinkedActivities(s, id)
    ensures Evolves(s, t)
  {
    hide LinkedTasks, LinkedActivities;
    forall id: string
      ensures SameFirst(LinkedTasks(s, id), LinkedTasks(t, id))
      ensures LinkedActivities(s, id) <= LinkedActivities(t, id)
    {
      if id == actionId { assert LinkedTasks(s, id) <= LinkedTasks(t, id); }
    }
  }

  /** Which collections each effect write replaces. */
  lemma EffectStores(s: Store, a: Action, ids: FreshIds, at: int)
    requires HasProposal(a)
    ensures var t := AfterTask(s, a, ids, at); t == s.(tasks := t.tasks)
    ensures var t := AfterTask(s, a, ids, at); var v := AfterActivity(s, a, ids, at);
            v == t.(activities := v.activities)
    ensures var v := AfterActivity(s, a, ids, at); var o := AfterOpportunity(s, a, ids, at);
            o == v.(opportunities := o.opportunities)
  {
    hide EnsureTask, EnsureActivity, SetNextAction;
  }

  lemma TaskEffectIsGood(s: Store, i: nat, ids: FreshIds, at: int)
    requires Inv(s) && i < |s.actions| && s.actions[i].life.status == EXECUTING && AreFresh(s, ids)
    requires HasProposal(s.actions[i]) && s.actions[i].life.attempts > 0
    ensures GoodStep(s, AfterTask(s, s.actions[i], ids, at))
  {
    hide Filter, Evolves, AfterTask, EnsureTask, HasProposal;
    var a := s.actions[i];
    EffectStores(s, a, ids, at);
    AfterTaskKeepsInv(s, i, ids, at);
    LinksGrow(s, AfterTask(s, a, ids, at), a.id);
  }

  lemma ActivityEffectIsGood(s: Store, i: nat, ids: FreshIds, at: int)
    requires Inv(s) && i < |s.actions| && s.actions[i].life.status == EXECUTING && AreFresh(s, ids)
    requires HasProposal(s.actions[i]) && s.actions[i].life.attempts > 0
    ensures GoodStep(s, AfterActivity(s, s.actions[i], ids, at))
  {
    hide Filter, Evolves, AfterTask, AfterActivity, EnsureTask, ActivityOf, HasProposal;
    var a := s.actions[i];
    EffectStores(s, a, ids, at);
    AfterTaskKeepsInv(s, i, ids, at);
    AfterActivityKeepsInv(s, i, ids, at);
    LinksGrow(s, AfterActivity(s, a, ids, at), a.id);
  }

  lemma OpportunityEffectIsGood(s: Store, i: nat, ids: FreshIds, at: int)
    requires Inv(s) && i < |s.actions| && s.actions[i].life.status == EXECUTING && AreFresh(s, ids)
    requires HasProposal(s.actions[i]) && s.actions[i].life.attempts > 0
    ensures GoodStep(s, AfterOpportunity(s, s.actions[i], ids, at))
  {
    hide Filter, Inv, AfterActivity, AfterOpportunity, HasProposal;
    var a := s.actions[i];
    EffectStores(s, a, ids, at);
    ActivityEffectIsGood(s, i, ids, at);
    AfterOpportunityKeepsInv(s, i, ids, at);
  }

  lemma ExecutingHasStarted(s: Store, i: nat)
    requires Inv(s) && i < |s.actions| && s.actions[i].life.status == EXECUTING
    ensures s.actions[i].life.attempts > 0
  {
    hide Filter, Replay, BuildProposedExecution;
    assert IsSound(s, s.actions[i]);
    LoggedLifeIsLived(s.actions[i].audit);
  }

  lemma FinishIsGood(s: Store, i: nat, ids: FreshIds, at: int)
    requires Inv(s) && i < |s.actions| && s.actions[i].life.status == EXECUTING && AreFresh(s, ids)
    requires HasProposal(s.actions[i])
    ensures var t := AfterOpportunity(s, s.actions[i], ids, at);
            GoodStep(t, WithAction(t, Finalized(s, s.actions[i], ids, at)))
  {
    hide Filter, Evolves, AfterTask, AfterActivity, AfterOpportunity, EnsureTask, ActivityOf, WithAction, Inv;
    var a := s.actions[i];
    ExecutingHasStarted(s, i);
    EffectStores(s, a, ids, at);
    AfterTaskKeepsInv(s, i, ids, at);
    AfterActivityKeepsInv(s, i, ids, at);
    AfterOpportunityKeepsInv(s, i, ids, at);
    var t := AfterOpportunity(s, a, ids, at);
    var taskId := if ProposesTask(a) then Some(EnsureTask(s.tasks, a, ids.taskId, at).task.id) else None;
    FinishKeepsInv(t, i, ResultOf(s, a, ids, at), taskId, ActivityOf(s, a, ids, at).1.id, at);
    ReplaceIsGood(t, i, Finalized(s, a, ids, at));
  }

  lemma GoodStepsCompose(s: Store, t: Store, u: Store)
    requires GoodStep(s, t) && GoodStep(t, u)
    ensures GoodStep(s, u)
  {
    hide Inv, Evolves;
    EvolvesTransitive(s, t, u);
  }

  /** The invariant holds at every point at which an attempt can be interrupted. */
  lemma EveryPointIsGood(s: Store, i: nat, ids: FreshIds, at: int, point: Point)
    requires Inv(s) && i < |s.actions| && IsRunnable(s.actions[i]) && AreFresh(s, ids)
    requires HasProposal(s.actions[i])
    ensures GoodStep(s, StoreAt(s, s.actions[i], ids, at, point))
  {
    hide Filter, Inv, Evolves, AfterTask, AfterActivity, AfterOpportunity, Finalized;
    var started := StartedAction(s.actions[i], at);
    var s1 := WithAction(s, started);
    StayIsGood(s);
    StartIsGood(s, i, at);
    ExecutingHasStarted(s1, i);
    TaskEffectIsGood(s1, i, ids, at);
    ActivityEffectIsGood(s1, i, ids, at);
    OpportunityEffectIsGood(s1, i, ids, at);
    FinishIsGood(s1, i, ids, at);
    GoodStepsCompose(s, s1, AfterTask(s1, started, ids, at));
    GoodStepsCompose(s, s1, AfterActivity(s1, started, ids, at));
    GoodStepsCompose(s, s1, AfterOpportunity(s1, started, ids, at));
    GoodStepsCompose(s, AfterOpportunity(s1, started, ids, at), StoreAt(s, s.actions[i], ids, at, Finished));
  }

  /** Where the started record stands during an attempt, and what a later write of the record sees. */
  lemma StartedRecordStands(s: Store, i: nat, ids: FreshIds, at: int, point: Point)
    requires Inv(s) && i < |s.actions| && IsRunnable(s.actions[i]) && HasProposal(s.actions[i])
    requires point != BeforeStart && point != Finished
    ensures var t := StoreAt(s, s.actions[i], ids, at, point);
            t.actions == s.actions[i := StartedAction(s.actions[i], at)]
  {
    hide Filter, Inv, Evolves, AfterTask, AfterActivity, AfterOpportunity, Finalized, WithAction;
    var started := StartedAction(s.actions[i], at);
    StartIsGood(s, i, at);
    EffectStores(WithAction(s, started), started, ids, at);
  }

  lemma SecondWriteWins(t: Store, i: nat, b: Action, c: Action)
    requires HaveDistinctIds(t.actions) && i < |t.actions| && b.id == t.actions[i].id && c.id == b.id
    ensures WithAction(WithAction(t, b), c) == WithAction(t, c)
    ensures WithAction(t, b) == t.(actions := t.actions[i := b])
  {
    IndexOfAction(t, i);
    var u := t.(actions := t.actions[i := b]);
    assert HaveDistinctIds(u.actions);
    IndexOfAction(u, i);
    assert u.actions[i := c] == t.actions[i := c];
  }

  lemma FinalizedIsExecuted(s: Store, a: Action, ids: FreshIds, at: int)
    requires HasProposal(a)
    ensures Finalized(s, a, ids, at).id == a.id && Finalized(s, a, ids, at).life.status == EXECUTED
  {
    hide TaskOf, ActivityOf, ResultOf;
  }

  lemma FinishedStore(s: Store, a: Action, ids: FreshIds, at: int)
    requires HasProposal(a)
    ensures HasProposal(StartedAction(a, at))
    ensures StoreAt(s, a, ids, at, Finished) ==
            WithAction(StoreAt(s, a, ids, at, OpportunityDone),
              Finalized(WithAction(s, StartedAction(a, at)), StartedAction(a, at), ids, at))
  {
    hide AfterOpportunity, Finalized, WithAction;
  }

  lemma ReplacedKeepsDistinct(actions: seq<Action>, i: nat, b: Action)
    requires HaveDistinctIds(actions) && i < |actions| && b.id == actions[i].id
    ensures HaveDistinctIds(actions[i := b])
  {
  }

  /** The failure record written after EXECUTED replaces it, as if EXECUTED had never been written. */
  lemma FailureOverwritesExecuted(s: Store, i: nat, ids: FreshIds, at: int)
    requires Inv(s) && i < |s.actions| && IsRunnable(s.actions[i]) && HasProposal(s.actions[i])
    ensures var failed := FailedAction(StartedAction(s.actions[i], at), at);
            && WithAction(StoreAt(s, s.actions[i], ids, at, Finished), failed)
               == WithAction(StoreAt(s, s.actions[i], ids, at, OpportunityDone), failed)
            && |StoreAt(s, s.actions[i], ids, at, Finished).actions| == |s.actions|
            && StoreAt(s, s.actions[i], ids, at, Finished).actions[i].life.status == EXECUTED
  {
    hide StoreAt, Finalized, WithAction, Inv, HaveDistinctIds, HasProposal;
    var a := s.actions[i];
    var started := StartedAction(a, at);
    StartedRecordStands(s, i, ids, at, OpportunityDone);
    InvHasDistinctIds(s);
    ReplacedKeepsDistinct(s.actions, i, started);
    FinishedStore(s, a, ids, at);
    FinalizedIsExecuted(WithAction(s, started), started, ids, at);
    SecondWriteWins(StoreAt(s, a, ids, at, OpportunityDone), i,
      Finalized(WithAction(s, started), started, ids, at), FailedAction(started, at));
  }

  lemma AttemptIsGood(s: Store, i: nat, ids: FreshIds, at: int, fault: Fault)
    requires Inv(s) && i < |s.actions| && IsRunnable(s.actions[i]) && AreFresh(s, ids)
    requires HasProposal(s.actions[i])
    ensures GoodStep(s, Attempt(s, s.actions[i], ids, at, fault).store)
  {
    hide Filter, Inv, Evolves, StoreAt, WithAction, Finalized, GoodStep;
    var a := s.actions[i];
    match fault {
      case NoFault => EveryPointIsGood(s, i, ids, at, Finished);
      case Crash(point) => EveryPointIsGood(s, i, ids, at, point);
      case Throw(point) =>
        if point == BeforeStart {
          StayIsGood(s);
        } else {
          var p := if point == Finished then OpportunityDone else point;
          FailureIsGood(s, i, ids, at, p);
          FailureOverwritesExecuted(s, i, ids, at);
        }
    }
  }

  lemma FailureIsGood(s: Store, i: nat, ids: FreshIds, at: int, point: Point)
    requires Inv(s) && i < |s.actions| && IsRunnable(s.actions[i]) && AreFresh(s, ids)
    requires HasProposal(s.actions[i]) && point != BeforeStart && point != Finished
    ensures GoodStep(s,
              WithAction(StoreAt(s, s.actions[i], ids, at, point), FailedAction(StartedAction(s.actions[i], at), at)))
  {
    hide Filter, Evolves, StoreAt, WithAction;
    var a := s.actions[i];
    var t := StoreAt(s, a, ids, at, point);
    EveryPointIsGood(s, i, ids, at, point);
    StartedRecordStands(s, i, ids, at, point);
    FailKeepsInv(t, i, at);
    ReplaceIsGood(t, i, FailedAction(t.actions[i], at));
    GoodStepsCompose(s, t, WithAction(t, FailedAction(t.actions[i], at)));
  }

  lemma ReconcileIsGood(s: Store, i: nat, at: int)
    requires Inv(s) && i < |s.actions| && InRecovery(s.actions[i])
    requires Inspect(s, s.actions[i]).Consistent? && Inspect(s, s.actions[i]).complete
    ensures GoodStep(s, WithAction(s, Recovered(s.actions[i], Inspect(s, s.actions[i]), at)))
  {
    hide Filter, Evolves, WithAction, Inv, GoodStep, NextActionIsSet, TaskMatches, IsValidTaskRecord,
      IsValidMessageRecord;
    var a := s.actions[i];
    var effects := Inspect(s, a);
    var taskId := if effects.task.Some? then Some(effects.task.value.id) else None;
    FinishKeepsInv(s, i, Result(ExpectedMode(a), RECOVERED_LINKED_EFFECTS), taskId, effects.activity.value.id, at);
    ReplaceIsGood(s, i, Recovered(a, effects, at));
  }

  lemma ProceedIsGood(s: Store, i: nat, ids: FreshIds, at: int, fault: Fault)
    requires Inv(s) && i < |s.actions| && IsRunnable(s.actions[i]) && AreFresh(s, ids)
    requires HasProposal(s.actions[i])
    ensures GoodStep(s, Proceed(s, s.actions[i], ids, at, fault).store)
  {
    hide Filter, Inv, Evolves, GoodStep, Inspect, Validate, WithAction, Attempt, Recovered;
    var a := s.actions[i];
    StayIsGood(s);
    var effects := Inspect(s, a);
    if effects.Consistent? && effects.complete {
      CompleteHasEffects(s, a);
      if InRecovery(a) { ReconcileIsGood(s, i, at); }
    } else {
      ValidateIsGood(s, i, EXECUTE, if effects.HasEffects() then Some(a.id) else None, at);
      AttemptIsGood(s, i, ids, at, fault);
    }
  }

  lemma CompleteHasEffects(s: Store, a: Action)
    requires Inspect(s, a).Consistent? && Inspect(s, a).complete
    ensures Inspect(s, a).HasEffects()
  {
  }

  lemma ExecuteIsGood(s: Store, id: string, confirmed: bool, ids: FreshIds, at: int, fault: Fault)
    requires Inv(s) && AreFresh(s, ids)
    requires forall a | a in s.actions :: a.life.approvedAt.Some? ==> HasProposal(a)
    ensures GoodStep(s, Execute(s, id, confirmed, ids, at, fault).store)
  {
    hide Filter, Inv, Evolves, GoodStep, Proceed;
    StayIsGood(s);
    var i := ActionIndex(s, id);
    if i.Some? && IsRunnable(s.actions[i.value]) {
      RunnableHasProposal(s, i.value);
      ProceedIsGood(s, i.value, ids, at, fault);
    }
  }

  // ------------------------------------------------------------------ runs

  datatype Event =
    | EMaterialize(opportunityId: string, newId: string, at: int, interrupted: bool)
    | EPrepare(id: string, at: int)
    | EApprove(id: string, at: int)
    | EReject(id: string, reason: string, at: int)
    | ECancel(id: string, at: int)
    | EExecute(id: string, confirmed: bool, ids: FreshIds, at: int, fault: Fault)
    | EOther

  /**
   * Whatever else the program writes: opportunities, prospects and unlinked records at will. It neither
   * adds nor removes links to revenue actions, nor rewrites a linked activity.
   */
  ghost predicate IsForeign(s: Store, t: Store) {
    && t.actions == s.actions
    && HaveDistinctTaskIds(t.tasks)
    && forall id: string ::
         && |LinkedTasks(t, id)| == |LinkedTasks(s, id)| && SameFirst(LinkedTasks(s, id), LinkedTasks(t, id))
         && LinkedActivities(t, id) == LinkedActivities(s, id)
  }

  /** One event leads from s to t; generated identifiers are fresh. */
  ghost predicate Next(s: Store, e: Event, t: Store) {
    match e
    case EMaterialize(opportunityId, newId, at, interrupted) =>
      ActionIndex(s, newId).None? && t == Materialize(s, opportunityId, newId, at, interrupted).store
    case EPrepare(id, at) => t == Prepare(s, id, at).store
    case EApprove(id, at) => t == Approve(s, id, at).store
    case EReject(id, reason, at) => t == Reject(s, id, reason, at).store
    case ECancel(id, at) => t == Cancel(s, id, at).store
    case EExecute(id, confirmed, ids, at, fault) =>
      && AreFresh(s, ids)
      && (forall a | a in s.actions :: a.life.approvedAt.Some? ==> HasProposal(a))
      && t == Execute(s, id, confirmed, ids, at, fault).store
    case EOther => IsForeign(s, t)
  }

  lemma ForeignIsGood(s: Store, t: Store)
    requires Inv(s) && IsForeign(s, t)
    ensures GoodStep(s, t)
  {
    hide Filter, FirstIndex, IsConsistent;
    forall k | 0 <= k < |t.actions| ensures IsSound(t, t.actions[k]) {
      assert IsSound(s, s.actions[k]);
      assert SameFirst(LinkedTasks(s, t.actions[k].id), LinkedTasks(t, t.actions[k].id));
    }
    forall id: string | ActionIndex(t, id).None?
      ensures LinkedTasks(t, id) == [] && LinkedActivities(t, id) == []
    {
      assert ActionIndex(s, id).None?;
      assert SameFirst(LinkedTasks(s, id), LinkedTasks(t, id));
    }
  }

  lemma EveryStepIsGood(s: Store, e: Event, t: Store)
    requires Inv(s) && Next(s, e, t)
    ensures GoodStep(s, t)
  {
    hide Inv, GoodStep, Materialize, Prepare, Approve, Reject, Cancel, Execute, IsForeign;
    match e {
      case EMaterialize(opportunityId, newId, at, interrupted) =>
        MaterializeIsGood(s, opportunityId, newId, at, interrupted);
      case EPrepare(id, at) => PrepareIsGood(s, id, at);
      case EApprove(id, at) => ApproveIsGood(s, id, at);
      case EReject(id, reason, at) => RejectIsGood(s, id, reason, at);
      case ECancel(id, at) => CancelIsGood(s, id, at);
      case EExecute(id, confirmed, ids, at, fault) => ExecuteIsGood(s, id, confirmed, ids, at, fault);
      case EOther => ForeignIsGood(s, t);
    }
  }

  /** A store without revenue actions and without links to any. */
  ghost predicate IsInitial(s: Store) {
    && s.actions == [] && HaveDistinctTaskIds(s.tasks)
    && forall id: string :: LinkedTasks(s, id) == [] && LinkedActivities(s, id) == []
  }

  ghost predicate IsRun(stores: seq<Store>, events: seq<Event>) {
    && |stores| == |events| + 1
    && IsInitial(stores[0])
    && forall k | 0 <= k < |events| :: Next(stores[k], events[k], stores[k + 1])
  }

  lemma {:induction false} InvHolds(stores: seq<Store>, events: seq<Event>, k: nat)
    requires IsRun(stores, events) && k < |stores|
    ensures Inv(stores[k])
  {
    hide Next, Filter, FirstIndex, Evolves;
    if k > 0 {
      InvHolds(stores, events, k - 1);
      assert Next(stores[k - 1], events[k - 1], stores[k - 1 + 1]);
      EveryStepIsGood(stores[k - 1], events[k - 1], stores[k]);
    }
  }

  lemma {:induction false} RunsEvolve(stores: seq<Store>, events: seq<Event>, j: nat, k: nat)
    requires IsRun(stores, events) && j <= k < |stores|
    ensures Evolves(stores[j], stores[k])
    decreases k - j
  {
    hide Next, Filter, FirstIndex, Inv;
    if j < k {
      RunsEvolve(stores, events, j, k - 1);
      InvHolds(stores, events, k - 1);
      assert Next(stores[k - 1], events[k - 1], stores[k - 1 + 1]);
      EveryStepIsGood(stores[k - 1], events[k - 1], stores[k]);
      EvolvesTransitive(stores[j], stores[k - 1], stores[k]);
    }
  }

  // ------------------------------------------------------------------ main results

  /**
   * Exactly-once effects: in every reachable store an action has at most one linked task and one linked
   * activity, an internal activity stands beside the task it names, and where there is any effect the
   * action was approved before an execution started, and is not in a status that precedes execution.
   */
  lemma EffectsHappenOnce(stores: seq<Store>, events: seq<Event>, k: nat, i: nat)
    requires IsRun(stores, events) && k < |stores| && i < |stores[k].actions|
    ensures var s := stores[k]; var a := s.actions[i];
            var t := LinkedTasks(s, a.id); var v := LinkedActivities(s, a.id);
            && |t| <= 1 && |v| <= 1
            && (a.executionType == INTERNAL_TASK && v != [] ==> t != [] && v[0].metadata.taskId == Some(t[0].id))
            && (t != [] || v != [] ==>
                  && a.life.approvedAt.Some?
                  && a.life.status in {EXECUTING, FAILED, EXECUTED, CANCELLED}
                  && (exists n | 0 <= n < |a.audit| :: a.audit[n].transition.ExecutionStarted?)
                  && (forall n | 0 <= n < |a.audit| && a.audit[n].transition.ExecutionStarted? ::
                        exists m | 0 <= m < n :: a.audit[m].transition == Approved))
            && (a.life.status == EXECUTED ==> v != [] && a.life.activityId == Some(v[0].id))
  {
    hide Filter, FirstIndex, Replay, Advance, OneActivePerOpportunity, LinksAreKnown, Next, BuildProposedExecution;
    InvHolds(stores, events, k);
    var s := stores[k];
    var a := s.actions[i];
    assert IsSound(s, a);
    StartsAreApproved(a.audit);
    LoggedLifeIsLived(a.audit);
    LogTellsStatusAndAttempts(a.audit);
    if a.life.attempts > 0 { SomeStart(a.audit); }
  }

  lemma {:induction false} SomeStart(audit: seq<Entry>)
    requires Attempts(audit) > 0
    ensures exists n | 0 <= n < |audit| :: audit[n].transition.ExecutionStarted?
  {
    var n := |audit| - 1;
    if !audit[n].transition.ExecutionStarted? {
      SomeStart(audit[..n]);
      var m :| 0 <= m < n && audit[..n][m].transition.ExecutionStarted?;
      assert audit[m].transition.ExecutionStarted?;
    }
  }

  /** The task and the activity linked at one moment of a run are the ones linked at every later moment. */
  lemma LinkedEffectsStay(stores: seq<Store>, events: seq<Event>, j: nat, k: nat, id: string)
    requires IsRun(stores, events) && j <= k < |stores|
    ensures LinkedTasks(stores[j], id) != [] ==>
              LinkedTasks(stores[k], id) != []
              && LinkedTasks(stores[k], id)[0].id == LinkedTasks(stores[j], id)[0].id
    ensures LinkedActivities(stores[j], id) <= LinkedActivities(stores[k], id)
  {
    hide Next, Filter, FirstIndex, Inv;
    RunsEvolve(stores, events, j, k);
    assert SameFirst(LinkedTasks(stores[j], id), LinkedTasks(stores[k], id));
  }

  /** One live action per opportunity; a status is that of the last audit entry; attempts count the starts. */
  lemma OneLiveAction(stores: seq<Store>, events: seq<Event>, k: nat)
    requires IsRun(stores, events) && k < |stores|
    ensures OneActivePerOpportunity(stores[k].actions)
    ensures forall i | 0 <= i < |stores[k].actions| ::
              var a := stores[k].actions[i];
              && a.audit != []
              && Replay(a.audit) == Some(a.life)
              && a.life.status == StatusOf(a.audit[|a.audit| - 1].transition)
              && a.life.attempts == Attempts(a.audit)
  {
    hide Filter, FirstIndex, Replay, Advance, LinksAreKnown, Next, BuildProposedExecution, OneActivePerOpportunity,
      StatusOf, Attempts;
    InvHolds(stores, events, k);
    forall i | 0 <= i < |stores[k].actions|
      ensures var a := stores[k].actions[i];
              && a.audit != []
              && Replay(a.audit) == Some(a.life)
              && a.life.status == StatusOf(a.audit[|a.audit| - 1].transition)
              && a.life.attempts == Attempts(a.audit)
    {
      var a := stores[k].actions[i];
      assert IsSound(stores[k], a);
      NonemptyLog(a.audit);
      LogTellsStatusAndAttempts(a.audit);
    }
  }

  lemma NonemptyLog(audit: seq<Entry>)
    requires Replay(audit).Some?
    ensures audit != []
  {
  }

  /** Terminal actions are frozen for the rest of the run, and logs only grow. */
  lemma TerminalIsAbsorbing(stores: seq<Store>, events: seq<Event>, j: nat, k: nat, i: nat)
    requires IsRun(stores, events) && j <= k < |stores| && i < |stores[j].actions|
    ensures i < |stores[k].actions|
    ensures var a := stores[j].actions[i]; var b := stores[k].actions[i];
            && b.id == a.id && a.audit <= b.audit
            && (a.life.status in {EXECUTED, REJECTED, CANCELLED} ==> b == a)
  {
    hide Next, Filter, FirstIndex, Inv;
    RunsEvolve(stores, events, j, k);
    assert Persists(stores[j].actions[i], stores[k].actions[i]);
  }

  /** A materialisation leaves every action with linked effects as it is. */
  lemma MaterializeSparesEffects(s: Store, opportunityId: string, newId: string, at: int, interrupted: bool, k: nat)
    requires Inv(s) && k < |s.actions|
    requires LinkedTasks(s, s.actions[k].id) != [] || LinkedActivities(s, s.actions[k].id) != []
    ensures var t := Materialize(s, opportunityId, newId, at, interrupted).store;
            k < |t.actions| && t.actions[k] == s.actions[k]
  {
    hide Filter, BasisOf, Inv;
    var t := Materialize(s, opportunityId, newId, at, interrupted).store;
    if t != s {
      ClearingSparesEffects(s, CurrentBasis(s, opportunityId, None, at).value, k);
    }
  }

  /** A store of a run is fit for the next execution. */
  lemma RunsAreReady(stores: seq<Store>, events: seq<Event>, k: nat)
    requires IsRun(stores, events) && k < |stores|
    ensures forall a | a in stores[k].actions :: a.life.approvedAt.Some? ==> HasProposal(a)
  {
    hide Next, Inv, HasProposal;
    InvHolds(stores, events, k);
    InvImpliesProposals(stores[k]);
  }
}

/** On what grounds actions are made, prepared, approved and executed. */
module RevenueActionGrounds {
  import opened Text
  import opened Lists
  import opened Deals
  import opened RevenueActions
  import opened RevenueActionInvariant
  import opened RevenueActionRuns
  import opened RevenueActionRecovery

  // ------------------------------------------------------------------ current evidence

  /** The opportunity of the action is there, is not closed, and still gives the advice the action was made from. */
  predicate EvidenceStands(s: Store, a: Action, exclude: Option<string>, at: int) {
    var o := OpportunityIndex(s, a.opportunityId);
    && o.Some? && s.opportunities[o.value].stage !in {WON, LOST}
    && CurrentBasis(s, a.opportunityId, exclude, at) == Some(a.basis)
  }

  predicate IsOver(s: Store, a: Action) {
    var o := OpportunityIndex(s, a.opportunityId);
    o.Some? && s.opportunities[o.value].stage in {WON, LOST}
  }

  /** Own effects are left out of the evidence once there are any. */
  function OwnEffects(s: Store, a: Action): Option<string> {
    if LinkedTasks(s, a.id) == [] && LinkedActivities(s, a.id) == [] then None else Some(a.id)
  }

  /** t is s, but for action i, whose record is b. */
  predicate Changes(s: Store, t: Store, i: nat, b: Action) {
    && i < |s.actions| && t == s.(actions := s.actions[i := b])
    && b.id == s.actions[i].id && b.opportunityId == s.actions[i].opportunityId && b.basis == s.actions[i].basis
  }

  /** t is s, but for action i, which is cancelled by one more log entry, written at the given time. */
  predicate Cancels(s: Store, t: Store, i: nat, at: int) {
    && i < |s.actions| && i < |t.actions| && Changes(s, t, i, t.actions[i])
    && t.actions[i].life.status == CANCELLED && t.actions[i].life.cancelledAt == Some(at)
    && |t.actions[i].audit| == |s.actions[i].audit| + 1 && s.actions[i].audit <= t.actions[i].audit
    && t.actions[i].audit[|s.actions[i].audit|].at == at
  }

  /** What an operation answers and leaves when the evidence of action i does not stand. */
  predicate IsRefusedFor(s: Store, r: Step, i: nat, at: int)
    requires i < |s.actions|
  {
    if OpportunityIndex(s, s.actions[i].opportunityId).None? then r == Step(s, Failure(OPPORTUNITY_NOT_FOUND))
    else
      && Cancels(s, r.store, i, at)
      && r.outcome == Failure(if IsOver(s, s.actions[i]) then OPPORTUNITY_CLOSED else STALE)
      && var entry := r.store.actions[i].audit[|s.actions[i].audit|];
         if IsOver(s, s.actions[i]) then entry.transition.SupersededClosed? else entry.transition.SupersededAsStale?
  }

  lemma ReplacedAt(s: Store, i: nat, b: Action)
    requires Inv(s) && i < |s.actions| && b.id == s.actions[i].id
    ensures WithAction(s, b) == s.(actions := s.actions[i := b])
  {
    hide Filter, FirstIndex, IsSound;
    IndexOfAction(s, i);
  }

  lemma ValidationIsExact(s: Store, i: nat, operation: Operation, exclude: Option<string>, at: int)
    requires Inv(s) && i < |s.actions|
    ensures var r := Validate(s, s.actions[i], operation, exclude, at);
            && (r.None? <==> EvidenceStands(s, s.actions[i], exclude, at))
            && (r.Some? ==> IsRefusedFor(s, r.value, i, at))
  {
    hide Inv, Filter, FirstIndex, WithAction, BasisOf, WithoutEffectsOf;
    var a := s.actions[i];
    var o := OpportunityIndex(s, a.opportunityId);
    if o.Some? {
      var stage := s.opportunities[o.value].stage;
      var current := CurrentBasis(s, a.opportunityId, exclude, at).value;
      ReplacedAt(s, i, Superseded(a, SupersededClosed(stage, operation), at));
      ReplacedAt(s, i, Superseded(a, SupersededAsStale(current), at));
    }
  }

  // ------------------------------------------------------------------ preparation, approval, refusal

  /** Answered with the changed record, which differs from the stored one by one log entry. */
  predicate Records(s: Store, r: Step, i: nat, entry: Entry)
    requires i < |s.actions|
  {
    && r.outcome.Success? && !r.outcome.duplicate && Changes(s, r.store, i, r.outcome.action)
    && r.outcome.action.audit == s.actions[i].audit + [entry]
  }

  /**
   * A preparation is granted exactly to a recommended action whose evidence stands, and confirmed to one that is
   * prepared already; failing evidence cancels the action, and any other status is refused.
   */
  lemma PreparedExactlyWhen(s: Store, i: nat, at: int)
    requires Inv(s) && i < |s.actions|
    ensures var a := s.actions[i]; var r := Prepare(s, a.id, at);
            && (a.life.status !in {RECOMMENDED, PREPARED} <==> r == Step(s, Failure(INVALID_TRANSITION)))
            && (a.life.status in {RECOMMENDED, PREPARED} ==>
                  if !EvidenceStands(s, a, None, at) then IsRefusedFor(s, r, i, at)
                  else if a.life.status == PREPARED then r == Step(s, Success(a, true))
                  else
                    && Records(s, r, i, Entry(Prepared, at))
                    && r.outcome.action.life == a.life.(status := PREPARED, preparedAt := Some(at))
                    && HasProposal(r.outcome.action))
  {
    hide Inv, Filter, FirstIndex, WithAction, Validate, EvidenceStands, IsRefusedFor, BuildProposedExecution,
      HasProposal;
    var a := s.actions[i];
    InvHasDistinctIds(s);
    IndexOfAction(s, i);
    ValidationIsExact(s, i, PREPARE, None, at);
    ReplacedAt(s, i, PreparedAction(a, at));
    SoundType(s, i);
    PreparedHasProposal(a, at);
    if IsRefusedFor(s, Prepare(s, a.id, at), i, at) { RefusedOtherwise(s, Prepare(s, a.id, at), i, at); }
  }

  lemma RefusedOtherwise(s: Store, r: Step, i: nat, at: int)
    requires i < |s.actions| && IsRefusedFor(s, r, i, at)
    ensures r.outcome in {Failure(OPPORTUNITY_NOT_FOUND), Failure(OPPORTUNITY_CLOSED), Failure(STALE)}
  {
  }

  lemma PreparedHasProposal(a: Action, at: int)
    requires a.executionType == ExpectedExecutionType(a.actionType)
    ensures HasProposal(PreparedAction(a, at))
  {
    hide FollowUpSubject, FollowUpBody, TypeName;
  }

  lemma SoundType(s: Store, i: nat)
    requires Inv(s) && i < |s.actions|
    ensures s.actions[i].executionType == ExpectedExecutionType(s.actions[i].actionType)
  {
    hide Filter, Replay;
    assert IsSound(s, s.actions[i]);
  }

  /** The same of an approval, from prepared to approved. */
  lemma ApprovedExactlyWhen(s: Store, i: nat, at: int)
    requires Inv(s) && i < |s.actions|
    ensures var a := s.actions[i]; var r := Approve(s, a.id, at);
            && (a.life.status !in {PREPARED, APPROVED} <==> r == Step(s, Failure(INVALID_TRANSITION)))
            && (a.life.status in {PREPARED, APPROVED} ==>
                  if !EvidenceStands(s, a, None, at) then IsRefusedFor(s, r, i, at)
                  else if a.life.status == APPROVED then r == Step(s, Success(a, true))
                  else
                    && Records(s, r, i, Entry(Approved, at))
                    && r.outcome.action.life == a.life.(status := APPROVED, approvedAt := Some(at)))
  {
    hide Inv, Filter, FirstIndex, WithAction, Validate, EvidenceStands, IsRefusedFor;
    var a := s.actions[i];
    InvHasDistinctIds(s);
    IndexOfAction(s, i);
    ValidationIsExact(s, i, APPROVE, None, at);
    ReplacedAt(s, i, ApprovedAction(a, at));
    if IsRefusedFor(s, Approve(s, a.id, at), i, at) { RefusedOtherwise(s, Approve(s, a.id, at), i, at); }
  }

  /** A rejection needs no evidence: it is granted exactly to a prepared action, and keeps the reason given. */
  lemma RejectedExactlyWhen(s: Store, i: nat, reason: string, at: int)
    requires Inv(s) && i < |s.actions|
    ensures var a := s.actions[i]; var r := Reject(s, a.id, reason, at);
            var text := if Trim(reason) == "" then None else Some(NormalizeText(reason));
            if a.life.status == REJECTED then r == Step(s, Success(a, true))
            else if a.life.status != PREPARED then r == Step(s, Failure(INVALID_TRANSITION))
            else
              && Records(s, r, i, Entry(Rejected(text), at))
              && r.outcome.action.life
                 == a.life.(status := REJECTED, rejectedAt := Some(at), rejectionReason := text)
  {
    hide Inv, Filter, FirstIndex, WithAction;
    InvHasDistinctIds(s);
    IndexOfAction(s, i);
    ReplacedAt(s, i, RejectedAction(s.actions[i], reason, at));
    BlankNormalizes(reason);
  }

  /** Nor does a cancellation, which is granted exactly before an approval. */
  lemma CancelledExactlyWhen(s: Store, i: nat, at: int)
    requires Inv(s) && i < |s.actions|
    ensures var a := s.actions[i]; var r := Cancel(s, a.id, at);
            if a.life.status == CANCELLED then r == Step(s, Success(a, true))
            else if a.life.status !in {RECOMMENDED, PREPARED} then r == Step(s, Failure(INVALID_TRANSITION))
            else
              && Records(s, r, i, Entry(Cancelled, at))
              && r.outcome.action.life == a.life.(status := CANCELLED, cancelledAt := Some(at))
  {
    hide Inv, Filter, FirstIndex, WithAction;
    InvHasDistinctIds(s);
    IndexOfAction(s, i);
    ReplacedAt(s, i, CancelledAction(s.actions[i], at));
  }

  // ------------------------------------------------------------------ execution

  predicate IsMessage(a: Action) {
    a.executionType == COMMUNICATION_DRAFT
  }

  /** Nobody confirmed: a message is not executed in any status, and nothing is written. */
  lemma UnconfirmedIsRefused(s: Store, i: nat, ids: FreshIds, at: int, fault: Fault)
    requires Inv(s) && i < |s.actions| && IsMessage(s.actions[i]) && IsRunnable(s.actions[i])
    requires forall a | a in s.actions :: a.life.approvedAt.Some? ==> HasProposal(a)
    ensures Execute(s, s.actions[i].id, false, ids, at, fault) == Step(s, Failure(MANUAL_CONFIRMATION_REQUIRED))
  {
    hide Inv, Filter, FirstIndex, Proceed, HasProposal;
    InvHasDistinctIds(s);
    IndexOfAction(s, i);
    RunnableWasApproved(s, i);
  }

  /** Internal work asks nobody: the confirmation makes no difference to it. */
  lemma InternalWorkNeedsNoConfirmation(s: Store, id: string, ids: FreshIds, at: int, fault: Fault)
    requires forall a | a in s.actions :: a.life.approvedAt.Some? ==> HasProposal(a)
    requires forall a | a in s.actions && a.id == id :: !IsMessage(a)
    ensures Execute(s, id, true, ids, at, fault) == Execute(s, id, false, ids, at, fault)
  {
    hide Filter, FirstIndex, Proceed, HasProposal;
    assert ActionIndex(s, id).Some? ==> HasId(id)(s.actions[ActionIndex(s, id).value]);
  }

  lemma RunnableWasApproved(s: Store, i: nat)
    requires Inv(s) && i < |s.actions| && IsRunnable(s.actions[i])
    ensures s.actions[i].life.approvedAt.Some?
    ensures InRecovery(s.actions[i]) ==>
              s.actions[i].request.Some? && s.actions[i].request.value.mode == ExpectedMode(s.actions[i])
  {
    hide Filter, Replay, BuildProposedExecution;
    assert IsSound(s, s.actions[i]);
    LoggedLifeIsLived(s.actions[i].audit);
  }

  /** Executing what is not to be executed: an EXECUTED action answers again as it is, any other status is refused. */
  lemma NotExecutedExactlyWhen(s: Store, i: nat, confirmed: bool, ids: FreshIds, at: int, fault: Fault)
    requires Inv(s) && i < |s.actions| && !IsRunnable(s.actions[i])
    requires forall a | a in s.actions :: a.life.approvedAt.Some? ==> HasProposal(a)
    ensures Execute(s, s.actions[i].id, confirmed, ids, at, fault)
            == Step(s, if s.actions[i].life.status == EXECUTED then Success(s.actions[i], true)
                       else Failure(INVALID_TRANSITION))
  {
    hide Inv, Filter, FirstIndex, Proceed, HasProposal;
    InvHasDistinctIds(s);
    IndexOfAction(s, i);
  }

  /** Linked records that are not those its executions write stop an action from any execution; nothing is written. */
  lemma ConflictsExactlyWhen(s: Store, i: nat, ids: FreshIds, at: int, fault: Fault)
    requires Inv(s) && i < |s.actions| && IsRunnable(s.actions[i])
    requires forall a | a in s.actions :: a.life.approvedAt.Some? ==> HasProposal(a)
    ensures var a := s.actions[i]; var r := Execute(s, a.id, true, ids, at, fault);
            && (!HasValidEffects(s, a) ==>
                  r == Step(s, Failure(EFFECT_CONFLICT(ConflictOf(|LinkedTasks(s, a.id)|,
                                                         |LinkedActivities(s, a.id)|, IsMessage(a))))))
            && (HasValidEffects(s, a) ==> !(r.outcome.Failure? && r.outcome.error.EFFECT_CONFLICT?))
  {
    hide Inv, Filter, FirstIndex, Inspect, Validate, Attempt, HasProposal, HasValidEffects, IsComplete, ConflictOf;
    var a := s.actions[i];
    InvHasDistinctIds(s);
    IndexOfAction(s, i);
    RunnableWasApproved(s, i);
    InspectorAccepts(s, a);
    if !InRecovery(a) { UnstartedHasNoEffects(s, i); }
    NoConflictLater(s, a, ids, at, fault);
  }

  lemma NoConflictLater(s: Store, a: Action, ids: FreshIds, at: int, fault: Fault)
    requires HasProposal(a)
    ensures var r := Attempt(s, a, ids, at, fault); r.outcome.Failure? ==> r.outcome.error == EXECUTION_FAILED
    ensures forall exclude ::
              var r := Validate(s, a, EXECUTE, exclude, at);
              r.Some? && r.value.outcome.Failure? ==> !r.value.outcome.error.EFFECT_CONFLICT?
  {
    hide StoreAt, Finalized, StartedAction, WithAction, CurrentBasis, FirstIndex;
  }

  /** An action whose effects are not complete starts exactly when its evidence stands, its own effects left out. */
  lemma StartsExactlyWhen(s: Store, i: nat, ids: FreshIds, at: int, fault: Fault)
    requires Inv(s) && i < |s.actions| && IsRunnable(s.actions[i])
    requires forall a | a in s.actions :: a.life.approvedAt.Some? ==> HasProposal(a)
    requires HasValidEffects(s, s.actions[i]) && !IsComplete(s, s.actions[i])
    ensures var a := s.actions[i]; var r := Execute(s, a.id, true, ids, at, fault);
            if EvidenceStands(s, a, OwnEffects(s, a), at) then HasProposal(a) && r == Attempt(s, a, ids, at, fault)
            else IsRefusedFor(s, r, i, at)
  {
    hide Inv, Filter, FirstIndex, Inspect, Validate, Attempt, HasProposal, HasValidEffects, IsComplete,
      EvidenceStands, IsRefusedFor;
    var a := s.actions[i];
    InvHasDistinctIds(s);
    IndexOfAction(s, i);
    RunnableWasApproved(s, i);
    InspectorAccepts(s, a);
    ValidationIsExact(s, i, EXECUTE, OwnEffects(s, a), at);
    if !InRecovery(a) { UnstartedHasNoEffects(s, i); }
  }

  lemma UnstartedHasNoEffects(s: Store, i: nat)
    requires Inv(s) && i < |s.actions| && s.actions[i].life.status in {RECOMMENDED, PREPARED, APPROVED}
    ensures OwnEffects(s, s.actions[i]) == None
  {
    hide Filter, Replay, BuildProposedExecution;
    assert IsSound(s, s.actions[i]);
    LoggedLifeIsLived(s.actions[i].audit);
  }

  // ------------------------------------------------------------------ what the entries of a log rest on

  /** The log of action k, empty before the action is there. */
  function LogAt(s: Store, k: nat): seq<Entry> {
    if k < |s.actions| then s.actions[k].audit else []
  }

  /** Event e, in store s, entitles action a to the log entry. */
  predicate Entitles(s: Store, e: Event, a: Action, entry: Entry) {
    match entry.transition
    case CreatedAsRecommended =>
      && e.EMaterialize? && e.opportunityId == a.opportunityId && EvidenceStands(s, a, None, entry.at)
    case Prepared => e.EPrepare? && e.id == a.id && EvidenceStands(s, a, None, entry.at)
    case Approved => e.EApprove? && e.id == a.id && EvidenceStands(s, a, None, entry.at)
    case Rejected(_) => e.EReject? && e.id == a.id
    case Cancelled => e.ECancel? && e.id == a.id
    case ExecutionStarted(_) =>
      && e.EExecute? && e.id == a.id && (IsMessage(a) ==> e.confirmed)
      && EvidenceStands(s, a, OwnEffects(s, a), entry.at)
    case Executed(_, _, _) => e.EExecute? && e.id == a.id && (IsMessage(a) ==> e.confirmed)
    case ExecutionFailed => e.EExecute? && e.id == a.id && (IsMessage(a) ==> e.confirmed)
    case SupersededByCurrent(_, _) =>
      e.EMaterialize? && e.opportunityId == a.opportunityId && !EvidenceStands(s, a, None, entry.at)
    case SupersededClosed(_, _) => IsOver(s, a)
    case SupersededAsStale(_) => !IsOver(s, a) && !EvidenceStands(s, a, OwnEffects(s, a), entry.at)
  }

  /** Every entry that actions gain from s to t is one that the event entitles them to. */
  ghost predicate AreEntitled(s: Store, e: Event, t: Store) {
    forall k, m | 0 <= k < |t.actions| && |LogAt(s, k)| <= m < |t.actions[k].audit| ::
      Entitles(s, e, t.actions[k], t.actions[k].audit[m])
  }

  lemma UnchangedIsEntitled(s: Store, e: Event, t: Store)
    requires t.actions == s.actions
    ensures AreEntitled(s, e, t)
  {
  }

  lemma ReplacedIsEntitled(s: Store, e: Event, t: Store, i: nat, b: Action)
    requires Changes(s, t, i, b)
    requires forall m | |s.actions[i].audit| <= m < |b.audit| :: Entitles(s, e, b, b.audit[m])
    ensures AreEntitled(s, e, t)
  {
    hide Entitles;
  }

  lemma RefusedIsEntitled(s: Store, e: Event, r: Step, i: nat, at: int)
    requires i < |s.actions| && IsRefusedFor(s, r, i, at)
    requires !EvidenceStands(s, s.actions[i], OwnEffects(s, s.actions[i]), at)
    ensures AreEntitled(s, e, r.store)
  {
    hide Filter, FirstIndex, BasisOf;
    if OpportunityIndex(s, s.actions[i].opportunityId).Some? {
      ReplacedIsEntitled(s, e, r.store, i, r.store.actions[i]);
    }
  }

  lemma SameEvidence(s: Store, a: Action, b: Action, exclude: Option<string>, at: int)
    requires b.opportunityId == a.opportunityId && b.basis == a.basis
    ensures EvidenceStands(s, a, exclude, at) == EvidenceStands(s, b, exclude, at)
  {
    hide FirstIndex, BasisOf, WithoutEffectsOf;
  }

  lemma PreparationIsEntitled(s: Store, id: string, at: int)
    requires Inv(s)
    ensures AreEntitled(s, EPrepare(id, at), Prepare(s, id, at).store)
  {
    hide Inv, Filter, FirstIndex, Prepare, AreEntitled, EvidenceStands, IsRefusedFor;
    var r := Prepare(s, id, at);
    var i := ActionIndex(s, id);
    if i.None? || r.store == s {
      if i.None? { UnknownIsRefused(s, id, "", at); }
      UnchangedIsEntitled(s, EPrepare(id, at), r.store);
    } else {
      FoundHasId(s, id);
      PreparedExactlyWhen(s, i.value, at);
      UnstartedHasNoEffects(s, i.value);
      if EvidenceStands(s, s.actions[i.value], None, at) {
        SameEvidence(s, s.actions[i.value], r.outcome.action, None, at);
        ReplacedIsEntitled(s, EPrepare(id, at), r.store, i.value, r.outcome.action);
      } else {
        RefusedIsEntitled(s, EPrepare(id, at), r, i.value, at);
      }
    }
  }

  lemma FoundHasId(s: Store, id: string)
    requires ActionIndex(s, id).Some?
    ensures s.actions[ActionIndex(s, id).value].id == id
  {
    hide FirstIndex;
    assert HasId(id)(s.actions[ActionIndex(s, id).value]);
  }

  lemma UnknownIsRefused(s: Store, id: string, reason: string, at: int)
    requires ActionIndex(s, id).None?
    ensures Prepare(s, id, at) == Approve(s, id, at) == Cancel(s, id, at) == Step(s, Failure(ACTION_NOT_FOUND))
    ensures Reject(s, id, reason, at) == Step(s, Failure(ACTION_NOT_FOUND))
  {
  }

  lemma ApprovalIsEntitled(s: Store, id: string, at: int)
    requires Inv(s)
    ensures AreEntitled(s, EApprove(id, at), Approve(s, id, at).store)
  {
    hide Inv, Filter, FirstIndex, Approve, AreEntitled, EvidenceStands, IsRefusedFor;
    var r := Approve(s, id, at);
    var i := ActionIndex(s, id);
    if i.None? || r.store == s {
      if i.None? { UnknownIsRefused(s, id, "", at); }
      UnchangedIsEntitled(s, EApprove(id, at), r.store);
    } else {
      FoundHasId(s, id);
      ApprovedExactlyWhen(s, i.value, at);
      UnstartedHasNoEffects(s, i.value);
      if EvidenceStands(s, s.actions[i.value], None, at) {
        SameEvidence(s, s.actions[i.value], r.outcome.action, None, at);
        ReplacedIsEntitled(s, EApprove(id, at), r.store, i.value, r.outcome.action);
      } else {
        RefusedIsEntitled(s, EApprove(id, at), r, i.value, at);
      }
    }
  }

  lemma RejectionIsEntitled(s: Store, id: string, reason: string, at: int)
    requires Inv(s)
    ensures AreEntitled(s, EReject(id, reason, at), Reject(s, id, reason, at).store)
  {
    hide Inv, Filter, FirstIndex, Reject, AreEntitled;
    var r := Reject(s, id, reason, at);
    var i := ActionIndex(s, id);
    if i.None? || r.store == s {
      if i.None? { UnknownIsRefused(s, id, reason, at); }
      UnchangedIsEntitled(s, EReject(id, reason, at), r.store);
    } else {
      FoundHasId(s, id);
      RejectedExactlyWhen(s, i.value, reason, at);
      ReplacedIsEntitled(s, EReject(id, reason, at), r.store, i.value, r.outcome.action);
    }
  }

  lemma CancellationIsEntitled(s: Store, id: string, at: int)
    requires Inv(s)
    ensures AreEntitled(s, ECancel(id, at), Cancel(s, id, at).store)
  {
    hide Inv, Filter, FirstIndex, Cancel, AreEntitled;
    var r := Cancel(s, id, at);
    var i := ActionIndex(s, id);
    if i.None? || r.store == s {
      if i.None? { UnknownIsRefused(s, id, "", at); }
      UnchangedIsEntitled(s, ECancel(id, at), r.store);
    } else {
      FoundHasId(s, id);
      CancelledExactlyWhen(s, i.value, at);
      ReplacedIsEntitled(s, ECancel(id, at), r.store, i.value, r.outcome.action);
    }
  }

  // ------------------------------------------------------------------ the entries of an attempt

  /** The record b has been written since a was started: it has the start, and perhaps how the attempt ended. */
  predicate IsAttempted(a: Action, b: Action, at: int) {
    && HaveSameTarget(a, b) && |a.audit| < |b.audit| <= |a.audit| + 2 && a.audit <= b.audit
    && b.audit[|a.audit|] == Entry(ExecutionStarted(a.life.attempts + 1), at)
    && (|b.audit| == |a.audit| + 2 ==>
          b.audit[|a.audit| + 1].transition.Executed? || b.audit[|a.audit| + 1].transition.ExecutionFailed?)
  }

  lemma FinalizedIsAttempted(s: Store, a: Action, ids: FreshIds, at: int)
    requires HasProposal(a)
    ensures var started := StartedAction(a, at);
            && HasProposal(started) && IsAttempted(a, started, at) && IsAttempted(a, Finalized(s, started, ids, at), at)
            && IsAttempted(a, FailedAction(started, at), at)
  {
    hide TaskOf, ActivityOf, ResultOf;
  }

  /** An attempt writes the record of its action and no other one. */
  lemma AttemptWrites(s: Store, i: nat, ids: FreshIds, at: int, fault: Fault)
    requires Inv(s) && i < |s.actions| && IsRunnable(s.actions[i]) && HasProposal(s.actions[i])
    ensures var t := Attempt(s, s.actions[i], ids, at, fault).store;
            && |t.actions| == |s.actions| && t.actions == s.actions[i := t.actions[i]]
            && (t.actions[i] == s.actions[i] || IsAttempted(s.actions[i], t.actions[i], at))
  {
    hide Inv, Filter, StoreAt, WithAction, Finalized, HaveDistinctIds, HasProposal, IsAttempted, StartedAction,
      FailedAction;
    var a := s.actions[i];
    var started := StartedAction(a, at);
    InvHasDistinctIds(s);
    FinalizedIsAttempted(WithAction(s, started), a, ids, at);
    StartedIsSame(a, at);
    ReplacedKeepsDistinct(s.actions, i, started);
    if fault != NoFault && fault.point != BeforeStart && fault.point != Finished {
      StartedRecordStands(s, i, ids, at, fault.point);
      SecondWriteWins(StoreAt(s, a, ids, at, fault.point), i, FailedAction(started, at), FailedAction(started, at));
    } else if fault == NoFault || fault.point == Finished {
      StartedRecordStands(s, i, ids, at, OpportunityDone);
      FinishedStore(s, a, ids, at);
      var done := Finalized(WithAction(s, started), started, ids, at);
      FinalizedIsExecuted(WithAction(s, started), started, ids, at);
      var before := StoreAt(s, a, ids, at, OpportunityDone);
      SecondWriteWins(before, i, done, FailedAction(started, at));
      SecondWriteWins(before, i, FailedAction(started, at), FailedAction(started, at));
      assert before.actions[i := done] == s.actions[i := done];
      assert before.actions[i := FailedAction(started, at)] == s.actions[i := FailedAction(started, at)];
    } else {
      StoreBeforeStart(s, a, ids, at);
    }
  }

  lemma StartedIsSame(a: Action, at: int)
    ensures StartedAction(a, at).id == a.id && FailedAction(StartedAction(a, at), at).id == a.id
  {
  }

  lemma StoreBeforeStart(s: Store, a: Action, ids: FreshIds, at: int)
    requires HasProposal(a)
    ensures StoreAt(s, a, ids, at, BeforeStart) == s
  {
  }

  lemma AttemptIsEntitled(s: Store, i: nat, confirmed: bool, ids: FreshIds, at: int, fault: Fault)
    requires Inv(s) && i < |s.actions| && IsRunnable(s.actions[i]) && HasProposal(s.actions[i])
    requires IsMessage(s.actions[i]) ==> confirmed
    requires EvidenceStands(s, s.actions[i], OwnEffects(s, s.actions[i]), at)
    ensures AreEntitled(s, EExecute(s.actions[i].id, confirmed, ids, at, fault),
              Attempt(s, s.actions[i], ids, at, fault).store)
  {
    hide Inv, Filter, Attempt, EvidenceStands, HasProposal;
    var a := s.actions[i];
    var e := EExecute(a.id, confirmed, ids, at, fault);
    var t := Attempt(s, a, ids, at, fault).store;
    AttemptWrites(s, i, ids, at, fault);
    SameEvidence(s, a, t.actions[i], OwnEffects(s, a), at);
    forall k, m | 0 <= k < |t.actions| && |LogAt(s, k)| <= m < |t.actions[k].audit|
      ensures Entitles(s, e, t.actions[k], t.actions[k].audit[m])
    {
      assert t.actions[k] == s.actions[i := t.actions[i]][k];
    }
  }

  lemma RecoveredIsEntitled(s: Store, i: nat, confirmed: bool, ids: FreshIds, at: int, fault: Fault)
    requires Inv(s) && i < |s.actions| && Inspect(s, s.actions[i]).Consistent?
    requires IsMessage(s.actions[i]) ==> confirmed
    ensures var a := s.actions[i];
            AreEntitled(s, EExecute(a.id, confirmed, ids, at, fault),
              WithAction(s, Recovered(a, Inspect(s, a), at)))
  {
    hide Inv, Filter, Inspect, WithAction, FirstIndex;
    var a := s.actions[i];
    var b := Recovered(a, Inspect(s, a), at);
    ReplacedAt(s, i, b);
    ReplacedIsEntitled(s, EExecute(a.id, confirmed, ids, at, fault), WithAction(s, b), i, b);
  }

  lemma ExecutionIsEntitled(s: Store, id: string, confirmed: bool, ids: FreshIds, at: int, fault: Fault)
    requires Inv(s)
    requires forall a | a in s.actions :: a.life.approvedAt.Some? ==> HasProposal(a)
    ensures AreEntitled(s, EExecute(id, confirmed, ids, at, fault), Execute(s, id, confirmed, ids, at, fault).store)
  {
    hide Inv, Filter, FirstIndex, AreEntitled, EvidenceStands, IsRefusedFor, Inspect, Validate, Attempt, WithAction,
      Recovered, HasProposal, Entitles;
    var e := EExecute(id, confirmed, ids, at, fault);
    var i := ActionIndex(s, id);
    UnchangedIsEntitled(s, e, s);
    if i.Some? && Execute(s, id, confirmed, ids, at, fault).store != s {
      var a := s.actions[i.value];
      FoundHasId(s, id);
      InspectorAccepts(s, a);
      RunnableHasProposal(s, i.value);
      if Inspect(s, a).complete {
        RecoveredIsEntitled(s, i.value, confirmed, ids, at, fault);
      } else {
        var exclude := if Inspect(s, a).HasEffects() then Some(a.id) else None;
        ValidationIsExact(s, i.value, EXECUTE, exclude, at);
        if EvidenceStands(s, a, exclude, at) {
          AttemptIsEntitled(s, i.value, confirmed, ids, at, fault);
        } else {
          RefusedIsEntitled(s, e, Validate(s, a, EXECUTE, exclude, at).value, i.value, at);
        }
      }
    }
  }

  // ------------------------------------------------------------------ materialisation

  /** Action a of the opportunity is in recovery, has left effects, and was made from other evidence. */
  predicate IsInTheWay(s: Store, a: Action, basis: Basis) {
    && a.opportunityId == basis.opportunityId && a.life.status in {EXECUTING, FAILED} && a.basis != basis
    && (LinkedTasks(s, a.id) != [] || LinkedActivities(s, a.id) != [])
  }

  lemma BlocksExactly(s: Store, basis: Basis, k: nat)
    requires Inv(s) && k < |s.actions|
    ensures Blocks(s, basis)(s.actions[k]) <==> IsInTheWay(s, s.actions[k], basis)
    ensures IsIncompatible(s.actions[k], basis) <==>
              s.actions[k].opportunityId == basis.opportunityId && IsActive(s.actions[k].life.status)
              && s.actions[k].basis != basis
    ensures IsDuplicateFor(basis)(s.actions[k]) <==>
              s.actions[k].opportunityId == basis.opportunityId && IsActive(s.actions[k].life.status)
              && s.actions[k].basis == basis
  {
    hide Filter, Replay, BuildProposedExecution;
    assert IsSound(s, s.actions[k]);
  }

  /** What a materialisation leaves of an action: it is cancelled exactly when it was made from other evidence. */
  predicate IsCleared(a: Action, b: Action, basis: Basis, at: int) {
    if a.opportunityId == basis.opportunityId && IsActive(a.life.status) && a.basis != basis then
      && HaveSameTarget(a, b) && b.life == a.life.(status := CANCELLED, cancelledAt := Some(at))
      && b.audit == a.audit + [Entry(SupersededByCurrent(basis.recommendation.actionType, basis), at)]
    else b == a
  }

  lemma ClearedExactly(s: Store, basis: Basis, at: int)
    requires Inv(s)
    ensures var c := CancelIncompatible(s.actions, basis, at);
            |c| == |s.actions| && forall k | 0 <= k < |c| :: IsCleared(s.actions[k], c[k], basis, at)
  {
    hide Inv, IsIncompatible;
    var c := CancelIncompatible(s.actions, basis, at);
    forall k | 0 <= k < |c| ensures IsCleared(s.actions[k], c[k], basis, at) {
      BlocksExactly(s, basis, k);
    }
  }

  /** A recommended action with one log entry; a follow-up is a message, everything else internal work. */
  predicate IsNewAction(a: Action, at: int) {
    && a.life.status == RECOMMENDED && a.audit == [Entry(CreatedAsRecommended, at)] && a.createdAt == at
    && a.actionType == a.basis.recommendation.actionType && a.proposed.None?
    && (a.executionType == COMMUNICATION_DRAFT <==> a.actionType == FOLLOW_UP)
  }

  lemma NewActionIsNew(id: string, basis: Basis, at: int)
    ensures var a := NewAction(id, basis, at);
            IsNewAction(a, at) && a.id == id && a.basis == basis && a.opportunityId == basis.opportunityId
  {
  }

  /** The evidence that an opportunity gives now; None when it is missing or over. */
  function EvidenceNow(s: Store, opportunityId: string, at: int): Option<Basis> {
    var o := OpportunityIndex(s, opportunityId);
    if o.None? || s.opportunities[o.value].stage in {WON, LOST} then None
    else CurrentBasis(s, opportunityId, None, at)
  }

  lemma EvidenceNowIsOwn(s: Store, opportunityId: string, at: int)
    requires EvidenceNow(s, opportunityId, at).Some?
    ensures EvidenceNow(s, opportunityId, at).value.opportunityId == opportunityId
  {
    hide FirstIndex, NextBestAction, LatestActivity, FindProspect, AmountFacts;
    assert OpportunityWithId(opportunityId)(s.opportunities[OpportunityIndex(s, opportunityId).value]);
  }

  /**
   * A materialisation is refused exactly when the opportunity is missing or over, or an action made from other
   * evidence has effects to recover. Otherwise it cancels the actions made from other evidence and answers with the
   * active one made from the present evidence, which is new exactly when there was none.
   */
  lemma MaterializedExactlyWhen(s: Store, opportunityId: string, newId: string, at: int)
    requires Inv(s) && ActionIndex(s, newId).None?
    ensures var r := Materialize(s, opportunityId, newId, at, false);
            var basis := EvidenceNow(s, opportunityId, at);
            if OpportunityIndex(s, opportunityId).None? then r == Step(s, Failure(OPPORTUNITY_NOT_FOUND))
            else if basis.None? then r == Step(s, Failure(OPPORTUNITY_CLOSED))
            else if exists k | 0 <= k < |s.actions| :: IsInTheWay(s, s.actions[k], basis.value) then
              r.store == s && exists k | 0 <= k < |s.actions| ::
                IsInTheWay(s, s.actions[k], basis.value) && r.outcome == Failure(RECOVERY_REQUIRED(s.actions[k].id))
            else
              && r.outcome.Success? && |s.actions| <= |r.store.actions| <= |s.actions| + 1
              && r.store == s.(actions := r.store.actions)
              && (forall k | 0 <= k < |s.actions| :: IsCleared(s.actions[k], r.store.actions[k], basis.value, at))
              && (r.outcome.duplicate <==> |r.store.actions| == |s.actions|)
              && (r.outcome.duplicate ==>
                    && r.outcome.action in s.actions && r.outcome.action.opportunityId == opportunityId
                    && IsActive(r.outcome.action.life.status) && r.outcome.action.basis == basis.value)
              && (!r.outcome.duplicate ==>
                    && r.store.actions[|s.actions|] == r.outcome.action && IsNewAction(r.outcome.action, at)
                    && r.outcome.action.id == newId && r.outcome.action.basis == basis.value
                    && r.outcome.action.opportunityId == opportunityId
                    && forall k | 0 <= k < |s.actions| && s.actions[k].opportunityId == opportunityId ::
                         !(IsActive(s.actions[k].life.status) && s.actions[k].basis == basis.value))
  {
    hide Inv, Filter, FirstIndex, BasisOf, IsCleared, IsInTheWay, IsIncompatible, IsNewAction, NewAction, IsActive,
      CancelIncompatible, WithoutEffectsOf;
    var basis := EvidenceNow(s, opportunityId, at);
    if basis.Some? {
      NewActionIsNew(newId, basis.value, at);
      EvidenceNowIsOwn(s, opportunityId, at);
      ClearedExactly(s, basis.value, at);
      var c := CancelIncompatible(s.actions, basis.value, at);
      forall k | 0 <= k < |s.actions|
        ensures Blocks(s, basis.value)(s.actions[k]) <==> IsInTheWay(s, s.actions[k], basis.value)
        ensures IsDuplicateFor(basis.value)(c[k]) <==> IsDuplicateFor(basis.value)(s.actions[k])
        ensures IsDuplicateFor(basis.value)(s.actions[k]) ==> c[k] == s.actions[k]
        ensures IsDuplicateFor(basis.value)(s.actions[k]) <==>
                  s.actions[k].opportunityId == opportunityId && IsActive(s.actions[k].life.status)
                  && s.actions[k].basis == basis.value
      {
        BlocksExactly(s, basis.value, k);
      }
    }
  }

  lemma MaterializationIsEntitled(s: Store, opportunityId: string, newId: string, at: int, interrupted: bool)
    requires Inv(s) && ActionIndex(s, newId).None?
    ensures AreEntitled(s, EMaterialize(opportunityId, newId, at, interrupted),
              Materialize(s, opportunityId, newId, at, interrupted).store)
  {
    hide Inv, Filter, FirstIndex, BasisOf, IsInTheWay, IsIncompatible, IsCleared, Entitles, CancelIncompatible,
      NewAction, WithoutEffectsOf;
    var e := EMaterialize(opportunityId, newId, at, interrupted);
    var t := Materialize(s, opportunityId, newId, at, interrupted).store;
    var basis := EvidenceNow(s, opportunityId, at);
    if t != s {
      EvidenceNowIsOwn(s, opportunityId, at);
      ClearedExactly(s, basis.value, at);
      NewActionIsNew(newId, basis.value, at);
      forall k, m | 0 <= k < |t.actions| && |LogAt(s, k)| <= m < |t.actions[k].audit|
        ensures Entitles(s, e, t.actions[k], t.actions[k].audit[m])
      {
        if k < |s.actions| {
          assert IsCleared(s.actions[k], t.actions[k], basis.value, at);
          ClearedIsEntitled(s, e, s.actions[k], t.actions[k], basis.value, at, m);
        } else {
          NewIsEntitled(s, e, t.actions[k], basis.value, at);
        }
      }
    }
  }

  lemma ClearedIsEntitled(s: Store, e: Event, a: Action, b: Action, basis: Basis, at: int, m: nat)
    requires IsCleared(a, b, basis, at) && |a.audit| <= m < |b.audit|
    requires e.EMaterialize? && e.opportunityId == basis.opportunityId
    requires EvidenceNow(s, e.opportunityId, at) == Some(basis)
    ensures Entitles(s, e, b, b.audit[m])
  {
    hide FirstIndex, BasisOf;
  }

  lemma NewIsEntitled(s: Store, e: Event, a: Action, basis: Basis, at: int)
    requires e.EMaterialize? && e.opportunityId == basis.opportunityId
    requires EvidenceNow(s, e.opportunityId, at) == Some(basis)
    requires IsNewAction(a, at) && a.basis == basis && a.opportunityId == basis.opportunityId
    ensures Entitles(s, e, a, a.audit[0])
  {
    hide FirstIndex, BasisOf;
  }

  // ------------------------------------------------------------------ over runs

  lemma StepIsEntitled(s: Store, e: Event, t: Store)
    requires Inv(s) && Next(s, e, t)
    ensures AreEntitled(s, e, t)
  {
    hide Inv, AreEntitled, Materialize, Prepare, Approve, Reject, Cancel, Execute;
    match e {
      case EMaterialize(opportunityId, newId, at, interrupted) =>
        MaterializationIsEntitled(s, opportunityId, newId, at, interrupted);
      case EPrepare(id, at) => PreparationIsEntitled(s, id, at);
      case EApprove(id, at) => ApprovalIsEntitled(s, id, at);
      case EReject(id, reason, at) => RejectionIsEntitled(s, id, reason, at);
      case ECancel(id, at) => CancellationIsEntitled(s, id, at);
      case EExecute(id, confirmed, ids, at, fault) => ExecutionIsEntitled(s, id, confirmed, ids, at, fault);
      case EOther => UnchangedIsEntitled(s, e, t);
    }
  }

  /**
   * Over every run an action gains a log entry only by an event that is entitled to it. It is prepared, approved and
   * started on evidence that stands at that moment, and a message starts, ends and fails only in a confirmed call.
   */
  lemma EntriesHaveGrounds(stores: seq<Store>, events: seq<Event>, j: nat, k: nat, m: nat)
    requires IsRun(stores, events) && j < |events| && k < |stores[j + 1].actions|
    requires |LogAt(stores[j], k)| <= m < |stores[j + 1].actions[k].audit|
    ensures Entitles(stores[j], events[j], stores[j + 1].actions[k], stores[j + 1].actions[k].audit[m])
  {
    hide Inv, Next, LogAt, Entitles;
    InvHolds(stores, events, j);
    assert Next(stores[j], events[j], stores[j + 1]);
    StepIsEntitled(stores[j], events[j], stores[j + 1]);
  }

  // ------------------------------------------------------------------ links

  /** Only an execution of its action links an effect, and a message is linked only in a confirmed call. */
  predicate MayLink(e: Event, a: Action) {
    e.EExecute? && e.id == a.id && (IsMessage(a) ==> e.confirmed)
  }

  lemma PointLinksOwn(s: Store, i: nat, ids: FreshIds, at: int, point: Point, id: string)
    requires Inv(s) && i < |s.actions| && IsRunnable(s.actions[i]) && AreFresh(s, ids)
    requires HasProposal(s.actions[i]) && id != s.actions[i].id
    ensures var t := StoreAt(s, s.actions[i], ids, at, point);
            LinkedTasks(t, id) == LinkedTasks(s, id) && LinkedActivities(t, id) == LinkedActivities(s, id)
  {
    hide Inv, Filter, AfterTask, AfterActivity, AfterOpportunity, Finalized, FirstIndex;
    var started := StartedAction(s.actions[i], at);
    var s1 := WithAction(s, started);
    StartIsGood(s, i, at);
    ExecutingHasStarted(s1, i);
    AfterTaskKeepsInv(s1, i, ids, at);
    AfterActivityKeepsInv(s1, i, ids, at);
    AfterOpportunityKeepsInv(s1, i, ids, at);
    EffectStores(s1, started, ids, at);
  }

  lemma AttemptLinksOwn(s: Store, i: nat, ids: FreshIds, at: int, fault: Fault, id: string)
    requires Inv(s) && i < |s.actions| && IsRunnable(s.actions[i]) && AreFresh(s, ids)
    requires HasProposal(s.actions[i]) && id != s.actions[i].id
    ensures var t := Attempt(s, s.actions[i], ids, at, fault).store;
            LinkedTasks(t, id) == LinkedTasks(s, id) && LinkedActivities(t, id) == LinkedActivities(s, id)
  {
    hide Inv, Filter, StoreAt, Finalized, FirstIndex, HasProposal;
    PointLinksOwn(s, i, ids, at, if fault == NoFault then Finished else fault.point, id);
  }

  lemma ExecutionLinksOwn(s: Store, id: string, confirmed: bool, ids: FreshIds, at: int, fault: Fault, other: string)
    requires Inv(s) && other != id && AreFresh(s, ids)
    requires forall a | a in s.actions :: a.life.approvedAt.Some? ==> HasProposal(a)
    ensures var t := Execute(s, id, confirmed, ids, at, fault).store;
            LinkedTasks(t, other) == LinkedTasks(s, other) && LinkedActivities(t, other) == LinkedActivities(s, other)
  {
    hide Inv, Filter, FirstIndex, Attempt, HasProposal, Inspect, BasisOf;
    var i := ActionIndex(s, id);
    if i.Some? && IsRunnable(s.actions[i.value]) {
      FoundHasId(s, id);
      RunnableHasProposal(s, i.value);
      AttemptLinksOwn(s, i.value, ids, at, fault, other);
    }
  }

  /** Over every run, links of an action grow only by an execution of it, and those of a message by a confirmed one. */
  lemma LinksHaveGrounds(stores: seq<Store>, events: seq<Event>, j: nat, k: nat)
    requires IsRun(stores, events) && j < |events| && k < |stores[j].actions|
    requires var id := stores[j].actions[k].id;
             |LinkedTasks(stores[j + 1], id)| != |LinkedTasks(stores[j], id)|
             || LinkedActivities(stores[j + 1], id) != LinkedActivities(stores[j], id)
    ensures MayLink(events[j], stores[j].actions[k])
  {
    hide Inv, Filter, FirstIndex, Materialize, Prepare, Approve, Reject, Cancel, Execute, IsInitial;
    var s, e := stores[j], events[j];
    InvHolds(stores, events, j);
    assert Next(s, e, stores[j + 1]);
    OtherCallsLinkNothing(s, e);
    if e.EExecute? {
      if e.id != s.actions[k].id {
        ExecutionLinksOwn(s, e.id, e.confirmed, e.ids, e.at, e.fault, s.actions[k].id);
      } else if IsMessage(s.actions[k]) && !e.confirmed {
        UnconfirmedWritesNothing(s, k, e.ids, e.at, e.fault);
      }
    }
  }

  lemma OtherCallsLinkNothing(s: Store, e: Event)
    ensures match e
            case EMaterialize(opportunityId, newId, at, interrupted) =>
              var t := Materialize(s, opportunityId, newId, at, interrupted).store; t == s.(actions := t.actions)
            case EPrepare(id, at) => Prepare(s, id, at).store == s.(actions := Prepare(s, id, at).store.actions)
            case EApprove(id, at) => Approve(s, id, at).store == s.(actions := Approve(s, id, at).store.actions)
            case EReject(id, reason, at) =>
              Reject(s, id, reason, at).store == s.(actions := Reject(s, id, reason, at).store.actions)
            case ECancel(id, at) => Cancel(s, id, at).store == s.(actions := Cancel(s, id, at).store.actions)
            case _ => true
  {
    hide Filter, FirstIndex, BasisOf, WithoutEffectsOf, NormalizeText, BuildProposedExecution;
  }

  /** In any status but EXECUTED an unconfirmed call on a message fails, and in every status it writes nothing. */
  lemma UnconfirmedWritesNothing(s: Store, i: nat, ids: FreshIds, at: int, fault: Fault)
    requires Inv(s) && i < |s.actions| && IsMessage(s.actions[i])
    requires forall a | a in s.actions :: a.life.approvedAt.Some? ==> HasProposal(a)
    ensures var r := Execute(s, s.actions[i].id, false, ids, at, fault);
            r.store == s && (r.outcome.Success? <==> s.actions[i].life.status == EXECUTED)
  {
    hide Inv, Filter, FirstIndex, Proceed, HasProposal;
    InvHasDistinctIds(s);
    IndexOfAction(s, i);
  }
}

/** What a handoff answers, told from the stored case, the evidence and the advice. */
module HandoffOutcome {
  import opened Text
  import opened Lists
  import Deals
  import RA = RevenueActions
  import RI = RevenueActionInvariant
  import RR = RevenueActionRuns
  import opened LeakCases
  import opened LeakCaseStore
  import LR = LeakCaseRuns
  import opened LeakCaseSteps
  import opened LeakCaseAcceptance
  import opened Handoff
  import opened HandoffTheorems
  import D = Detector

  // ------------------------------------------------------------------ validation

  /** The case no longer says what the evidence says: there is no leak, or one of another meaning. */
  predicate IsStale(r: Record, e: D.Evaluation, detectionId: string, subjectId: string, at: int) {
    || e.detection.None?
    || (var d := BuildDetection(e.detection.value, detectionId, at, subjectId);
        d.Some? && d.value.content.semanticKey != r.content.semanticKey)
  }

  /** Types of actions are told apart by their names. */
  lemma TypesHaveNames(a: Deals.ActionType, b: Deals.ActionType)
    ensures RA.TypeName(a) == RA.TypeName(b) ==> a == b
    ensures RA.TypeName(Deals.CREATE_TASK) == "CREATE_TASK" && RA.TypeName(Deals.FOLLOW_UP) == "FOLLOW_UP"
  {
    assert |RA.TypeName(a)| == |RA.TypeName(b)| && RA.TypeName(a)[0] == RA.TypeName(b)[0] ==> a == b;
  }

  /** A case is found stale exactly when its opportunity is there and the evidence does not say what the case says. */
  lemma StaleExactlyWhen(s: RA.Store, r: Record, e: D.Evaluation, detectionId: string, subjectId: string, at: int)
    ensures var problem := Validate(s, r, e, detectionId, subjectId, at);
            && (problem == Some(OPPORTUNITY_MISSING) <==> RA.OpportunityIndex(s, r.content.opportunityId).None?)
            && (problem == Some(CASE_STALE) <==>
                  RA.OpportunityIndex(s, r.content.opportunityId).Some? && IsStale(r, e, detectionId, subjectId, at))
            && (problem.None? ==>
                  e.detection.Some?
                  && var d := BuildDetection(e.detection.value, detectionId, at, subjectId);
                     d.Some? && d.value.content.semanticKey == r.content.semanticKey)
  {
    hide BuildDetection, RA.CurrentBasis, ExpectedType, FirstIndex;
  }

  // ------------------------------------------------------------------ the whole call

  /** The time of a link: as observed, but not before the action was made. */
  function TimeOfLink(observed: int, a: RA.Action): int {
    if a.createdAt <= observed then observed else a.createdAt
  }

  /** What the call comes to once the case was validated and an action materialised. */
  predicate IsHandedOver(w: World, m: RA.Step, h: Step, i: nat, q: Request, expected: string, observed: int)
    requires i < |w.cases|
  {
    var next := w.(store := m.store);
    if !m.outcome.Success? then
      h == Step(next, Rejected(if m.outcome.Failure? then ACTION_REFUSED(m.outcome.error) else INTEGRITY))
    else if RA.TypeName(m.outcome.action.actionType) != expected then h == Step(next, Rejected(ACTION_INCOMPATIBLE))
    else
      var a := m.outcome.action;
      var at := TimeOfLink(observed, a);
      Trim(a.id) == a.id ==>
        if !CanBeLogged(q.subjectId, at, w.cases[i].content.detectedAt) || a.id == "" || ByteLength(a.id) > 255 then
          h == Step(next, Rejected(LINK_REFUSED(INTEGRITY_CONFLICT)))
        else
          var r := LinkedRecord(w.cases[i], a, at, q.subjectId);
          h == Step(next.(cases := w.cases[i := r]), Handed(r, a, !m.outcome.duplicate, true))
  }

  lemma HandOffSteps(w: World, tenantId: string, q: Request, i: nat, e: D.Evaluation, detectionId: string,
                     newActionId: string, clock: Clock)
    requires IsAccepted(w.cases, tenantId, w.store.actions) && q.tenantId == tenantId && i < |w.cases|
    requires w.cases[i].life.state in {OPEN, SNOOZED} && w.cases[i].life.actionId.None?
    ensures var r := w.cases[i];
            var h := HandOff(w, tenantId, q, r.content.id, e, detectionId, newActionId, clock, false);
            var problem := Validate(w.store, r, e, detectionId, q.subjectId, clock.evaluated);
            var m := RA.Materialize(w.store, r.content.opportunityId, newActionId, clock.materialized, false);
            var next := w.(store := m.store);
            if problem.Some? then h == Step(w, Rejected(problem.value))
            else if !m.outcome.Success? then
              h == Step(next, Rejected(if m.outcome.Failure? then ACTION_REFUSED(m.outcome.error) else INTEGRITY))
            else if RA.TypeName(m.outcome.action.actionType) != ExpectedType(r.content, e) then
              h == Step(next, Rejected(ACTION_INCOMPATIBLE))
            else h == Link(next, tenantId, q, r.content.id, m.outcome.action, !m.outcome.duplicate, clock.linked)
  {
    hide IsAccepted, FirstIndex, RA.Materialize, ExpectedType, Validate, Link, RA.TypeName;
    var r := w.cases[i];
    CaseIsFirst(w.cases, tenantId, w.store.actions, i);
    if RA.Materialize(w.store, r.content.opportunityId, newActionId, clock.materialized, false).outcome.Success? {
      MaterializedIsActive(w.store, r.content.opportunityId, newActionId, clock.materialized);
    }
  }

  /** Linking an unlinked active case to a stored action of its opportunity, made under its trimmed id. */
  lemma LinkExactly(w: World, tenantId: string, q: Request, i: nat, k: nat, created: bool, observed: int)
    requires IsAccepted(w.cases, tenantId, w.store.actions) && RI.Inv(w.store)
    requires IsIssued(q) && q.tenantId == tenantId && i < |w.cases| && k < |w.store.actions|
    requires w.cases[i].life.state in {OPEN, SNOOZED} && w.cases[i].life.actionId.None?
    requires w.store.actions[k].opportunityId == w.cases[i].content.opportunityId
    requires Trim(w.store.actions[k].id) == w.store.actions[k].id
    ensures var a := w.store.actions[k]; var r := w.cases[i]; var at := TimeOfLink(observed, a);
            var m := LinkedRecord(r, a, at, q.subjectId);
            Link(w, tenantId, q, r.content.id, a, created, observed)
            == if !CanBeLogged(q.subjectId, at, r.content.detectedAt) || a.id == "" || ByteLength(a.id) > 255
               then Step(w, Rejected(LINK_REFUSED(INTEGRITY_CONFLICT)))
               else Step(w.(cases := w.cases[i := m]), Handed(m, a, created, true))
  {
    hide RI.Inv, IsAccepted, FirstIndex, ByteLength, Trim, Filter, LinkedRecord, ActionReference, CanBeLogged;
    var a := w.store.actions[k];
    var r := w.cases[i];
    CaseIsFirst(w.cases, tenantId, w.store.actions, i);
    LR.UniqueIsReference(w.store, k, r.content.opportunityId);
    TrimTrims(a.id);
    LinkCheckIsExact(w.cases, w.store.actions, tenantId, q, i, a.id, TimeOfLink(observed, a));
  }

  /**
   * A handoff of an open, unlinked case. A problem of the case changes nothing. Otherwise the action is materialised;
   * when that is refused, or its type is not the one the evidence asks for, the case stays as it is; else the case is
   * linked to it, at the time observed but not before the action was made, unless the link cannot be logged.
   */
  lemma HandedExactlyWhen(w: World, tenantId: string, q: Request, i: nat, e: D.Evaluation, detectionId: string,
                          newActionId: string, clock: Clock)
    requires IsAccepted(w.cases, tenantId, w.store.actions) && RI.Inv(w.store)
    requires IsIssued(q) && q.tenantId == tenantId && i < |w.cases|
    requires w.cases[i].life.state in {OPEN, SNOOZED} && w.cases[i].life.actionId.None?
    requires RA.ActionIndex(w.store, newActionId).None?
    ensures var r := w.cases[i];
            var h := HandOff(w, tenantId, q, r.content.id, e, detectionId, newActionId, clock, false);
            var problem := Validate(w.store, r, e, detectionId, q.subjectId, clock.evaluated);
            if problem.Some? then h == Step(w, Rejected(problem.value))
            else
              IsHandedOver(w, RA.Materialize(w.store, r.content.opportunityId, newActionId, clock.materialized, false),
                h, i, q, ExpectedType(r.content, e), clock.linked)
  {
    hide IsAccepted, RA.Materialize, ExpectedType, Validate, RI.Inv, Link, LinkedRecord, ByteLength, HandOff,
      RA.ActionIndex, RR.GoodStep, RA.TypeName, IsIssued, CanBeLogged, Trim;
    var r := w.cases[i];
    HandOffSteps(w, tenantId, q, i, e, detectionId, newActionId, clock);
    var m := RA.Materialize(w.store, r.content.opportunityId, newActionId, clock.materialized, false);
    if m.outcome.Success? {
      MaterializedIsActive(w.store, r.content.opportunityId, newActionId, clock.materialized);
      RR.MaterializeIsGood(w.store, r.content.opportunityId, newActionId, clock.materialized, false);
      ActionsKeepWorld(w, w.(store := m.store), tenantId);
      GoodKeepsInv(w.store, m.store);
      var k :| 0 <= k < |m.store.actions| && m.store.actions[k] == m.outcome.action;
      if Trim(m.outcome.action.id) == m.outcome.action.id {
        LinkExactly(w.(store := m.store), tenantId, q, i, k, !m.outcome.duplicate, clock.linked);
      }
    }
  }

  lemma GoodKeepsInv(s: RA.Store, t: RA.Store)
    requires RR.GoodStep(s, t)
    ensures RI.Inv(t)
  {
  }

  /** The answers that need no evidence: to another tenant, on a damaged store, for a case that is not there or over. */
  lemma AnsweredUnseen(w: World, tenantId: string, q: Request, id: string, e: D.Evaluation, detectionId: string,
                       newActionId: string, clock: Clock, stops: bool)
    ensures var h := HandOff(w, tenantId, q, id, e, detectionId, newActionId, clock, stops);
            if q.tenantId != tenantId then h == Step(w, Rejected(CASE_NOT_FOUND))
            else if !IsAccepted(w.cases, tenantId, w.store.actions) then h == Step(w, Rejected(INTEGRITY))
            else if !(exists i | 0 <= i < |w.cases| :: w.cases[i].content.id == id) then
              h == Step(w, Rejected(CASE_NOT_FOUND))
            else
              forall i | 0 <= i < |w.cases| && w.cases[i].content.id == id ::
                && (w.cases[i].life.state in {DISMISSED, SUPERSEDED} ==> h == Step(w, Rejected(CASE_CLOSED)))
                && (w.cases[i].life.state in {OPEN, SNOOZED} && w.cases[i].life.actionId.Some?
                    && (forall k | 0 <= k < |w.store.actions| :: !IsLinkedAction(w.cases[i], w.store.actions[k])) ==>
                      h == Step(w, Rejected(ACTION_GONE)))
  {
    hide IsAccepted, Validate, RA.Materialize, Link, IsLinkedAction, ExpectedType, FirstIndex;
    if IsAccepted(w.cases, tenantId, w.store.actions) {
      forall i | 0 <= i < |w.cases| && w.cases[i].content.id == id
        ensures FirstIndex(w.cases, TenantCase(tenantId, id)) == Some(i)
      {
        CaseIsFirst(w.cases, tenantId, w.store.actions, i);
      }
    }
  }
}

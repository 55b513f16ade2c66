/** The handoff from a leak case to a revenue action: validate, materialise, link. */
module Handoff {
  import opened Text
  import opened Lists
  import RA = RevenueActions
  import RevenueActionService
  import opened LeakCases
  import opened LeakCaseValidation
  import opened LeakCaseStore
  import LeakCaseRepository
  import D = Detector

  datatype Problem =
    | CASE_NOT_FOUND | CASE_CLOSED | CASE_STALE | ACTION_INCOMPATIBLE | ACTION_GONE | OPPORTUNITY_MISSING
    | DETECTION_INVALID | INTEGRITY | ACTION_REFUSED(error: RA.Error) | LINK_REFUSED(reason: Error)

  /** Stopped: the process stopped between materialising and linking. */
  datatype Answer =
    | Handed(record: Record, action: RA.Action, actionCreated: bool, linkCreated: bool)
    | Rejected(problem: Problem)
    | Stopped

  datatype Step = Step(world: World, answer: Answer)

  /** The clock readings of one call, in the order in which they are taken. */
  datatype Clock = Clock(evaluated: int, materialized: int, linked: int)

  /** The evidence says that nothing is planned. */
  predicate SaysNoNextAction(evidence: map<string, Json>) {
    && "next_action" in evidence && evidence["next_action"].JObject?
    && "present" in evidence["next_action"].fields
    && evidence["next_action"].fields["present"] == JBool(false)
  }

  /** expectedHandoffActionType */
  function ExpectedType(c: Content, e: D.Evaluation): string {
    if c.leakType == "STALLED_OPPORTUNITY" && c.recommendedActionType == "FOLLOW_UP"
       && e.reason == D.STALE_WITHOUT_NEXT_ACTION && SaysNoNextAction(e.evidence)
    then "CREATE_TASK" else c.recommendedActionType
  }

  /** compatibleHandoffActionType */
  function CompatibleType(c: Content): string {
    if c.leakType == "STALLED_OPPORTUNITY" && c.recommendedActionType == "FOLLOW_UP" then "CREATE_TASK"
    else c.recommendedActionType
  }

  /** validateLinkedAction */
  predicate IsLinkedAction(r: Record, a: RA.Action) {
    && Some(a.id) == r.life.actionId
    && a.opportunityId == r.content.opportunityId
    && RA.TypeName(a.actionType) == CompatibleType(r.content)
    && Some(a.basis) == r.life.fingerprint
  }

  /** validateCurrentCase, None when the case may be handed off. */
  function Validate(s: RA.Store, r: Record, e: D.Evaluation, detectionId: string, subjectId: string, at: int)
    : Option<Problem>
  {
    var o := RA.OpportunityIndex(s, r.content.opportunityId);
    if o.None? then Some(OPPORTUNITY_MISSING)
    else if e.detection.None? then Some(CASE_STALE)
    else
      var current := BuildDetection(e.detection.value, detectionId, at, subjectId);
      if current.None? then Some(DETECTION_INVALID)
      else if current.value.content.semanticKey != r.content.semanticKey then Some(CASE_STALE)
      else
        var advised := RA.CurrentBasis(s, r.content.opportunityId, None, at).value.recommendation.actionType;
        if RA.TypeName(advised) != ExpectedType(r.content, e) then Some(ACTION_INCOMPATIBLE) else None
  }

  function LinkTime(observed: int, a: RA.Action): int {
    if observed < a.createdAt then a.createdAt else observed
  }

  /** What follows once the action is there. */
  function Link(w: World, tenantId: string, q: Request, id: string, a: RA.Action, created: bool, observed: int): Step {
    var u := LinkAction(w.cases, w.store.actions, tenantId, q, id, a.id, LinkTime(observed, a));
    match u
    case NotFound => Step(w, Rejected(CASE_NOT_FOUND))
    case Failed(error) => Step(w, Rejected(LINK_REFUSED(error)))
    case Updated(records, record, duplicate) => Step(w.(cases := records), Handed(record, a, created, !duplicate))
  }

  /** handoffWithRepositories on the JSON adapter. */
  function HandOff(w: World, tenantId: string, q: Request, id: string, e: D.Evaluation, detectionId: string,
                   newActionId: string, clock: Clock, stops: bool): Step {
    if q.tenantId != tenantId then Step(w, Rejected(CASE_NOT_FOUND))
    else if !IsAccepted(w.cases, tenantId, w.store.actions) then Step(w, Rejected(INTEGRITY))
    else
      var i := FirstIndex(w.cases, TenantCase(tenantId, id));
      if i.None? then Step(w, Rejected(CASE_NOT_FOUND))
      else
        var r := w.cases[i.value];
        if !IsActive(r.life.state) then Step(w, Rejected(CASE_CLOSED))
        else if r.life.actionId.Some? then
          var a := RA.ActionIndex(w.store, r.life.actionId.value);
          if a.Some? && IsLinkedAction(r, w.store.actions[a.value])
          then Step(w, Handed(r, w.store.actions[a.value], false, false))
          else Step(w, Rejected(ACTION_GONE))
        else
          var problem := Validate(w.store, r, e, detectionId, q.subjectId, clock.evaluated);
          if problem.Some? then Step(w, Rejected(problem.value))
          else
            var m := RA.Materialize(w.store, r.content.opportunityId, newActionId, clock.materialized, false);
            var next := w.(store := m.store);
            if !m.outcome.Success? then
              Step(next, Rejected(if m.outcome.Failure? then ACTION_REFUSED(m.outcome.error) else INTEGRITY))
            else
              var a := m.outcome.action;
              if a.opportunityId != r.content.opportunityId || RA.TypeName(a.actionType) != ExpectedType(r.content, e)
              then Step(next, Rejected(ACTION_INCOMPATIBLE))
              else if stops then Step(next, Stopped)
              else Link(next, tenantId, q, id, a, !m.outcome.duplicate, clock.linked)
  }

  /** The service over the two stores it writes. */
  class HandoffService {
    const repository: LeakCaseRepository.JsonRepository
    const authority: RevenueActionService.LocalService

    constructor (repository: LeakCaseRepository.JsonRepository, authority: RevenueActionService.LocalService)
      ensures this.repository == repository && this.authority == authority
    {
      this.repository := repository;
      this.authority := authority;
    }

    function State(): World
      reads repository, authority
    {
      World(repository.cases, authority.State())
    }

    method LinkMaterialized(q: Request, id: string, a: RA.Action, created: bool, observed: int) returns (answer: Answer)
      modifies repository
      ensures Step(State(), answer) == Link(old(State()), repository.tenantId, q, id, a, created, observed)
      ensures authority.State() == old(authority.State())
    {
      hide LinkAction, IsAccepted;
      var u := repository.LinkRevenueAction(q, id, a.id, LinkTime(observed, a), authority.actions);
      match u {
        case NotFound => answer := Rejected(CASE_NOT_FOUND);
        case Failed(error) => answer := Rejected(LINK_REFUSED(error));
        case Updated(_, record, duplicate) => answer := Handed(record, a, created, !duplicate);
      }
    }

    method CreateRevenueActionForCase(q: Request, id: string, e: D.Evaluation, detectionId: string,
                                      newActionId: string, clock: Clock, stops: bool)
      returns (answer: Answer)
      modifies repository, authority
      ensures Step(State(), answer)
              == HandOff(old(State()), repository.tenantId, q, id, e, detectionId, newActionId, clock, stops)
    {
      hide IsAccepted, Validate, RA.Materialize, Link, FirstIndex, IsLinkedAction, ExpectedType;
      ghost var before := State();
      if q.tenantId != repository.tenantId {
        return Rejected(CASE_NOT_FOUND);
      }
      var readable := ValidateCaseCollection(repository.cases, repository.tenantId, authority.actions);
      if !readable {
        return Rejected(INTEGRITY);
      }
      var i := FirstIndex(repository.cases, TenantCase(repository.tenantId, id));
      if i.None? {
        return Rejected(CASE_NOT_FOUND);
      }
      var r := repository.cases[i.value];
      if !IsActive(r.life.state) {
        return Rejected(CASE_CLOSED);
      }
      if r.life.actionId.Some? {
        var a := RA.ActionIndex(authority.State(), r.life.actionId.value);
        if a.Some? && IsLinkedAction(r, authority.actions[a.value]) {
          return Handed(r, authority.actions[a.value], false, false);
        }
        return Rejected(ACTION_GONE);
      }
      var problem := Validate(authority.State(), r, e, detectionId, q.subjectId, clock.evaluated);
      if problem.Some? {
        return Rejected(problem.value);
      }
      var outcome := authority.Materialize(r.content.opportunityId, newActionId, clock.materialized, false);
      if !outcome.Success? {
        return Rejected(if outcome.Failure? then ACTION_REFUSED(outcome.error) else INTEGRITY);
      }
      var action := outcome.action;
      if action.opportunityId != r.content.opportunityId
         || RA.TypeName(action.actionType) != ExpectedType(r.content, e) {
        return Rejected(ACTION_INCOMPATIBLE);
      }
      if stops {
        return Stopped;
      }
      assert State() == before.(store := authority.State());
      answer := LinkMaterialized(q, id, action, !outcome.duplicate, clock.linked);
    }
  }
}

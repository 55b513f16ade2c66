/** Handoffs can be stopped and repeated: one action, one link, and nothing after that. */
module HandoffTheorems {
  import opened Text
  import opened Lists
  import Deals
  import RA = RevenueActions
  import RI = RevenueActionInvariant
  import RR = RevenueActionRuns
  import opened LeakCases
  import opened LeakCaseStore
  import opened LeakCaseInvariant
  import opened LeakCaseSteps
  import opened LeakCaseRuns
  import opened LeakCaseAcceptance
  import LT = LeakCaseTheorems
  import opened Handoff
  import D = Detector

  // ------------------------------------------------------------------ the detector's word

  /** With a detection, the evidence says that nothing is planned and a follow-up is advised. */
  predicate IsReport(e: D.Evaluation) {
    e.detection.Some? ==>
      && e.reason == D.STALE_WITHOUT_NEXT_ACTION && SaysNoNextAction(e.evidence)
      && e.detection.value.leakType == "STALLED_OPPORTUNITY" && e.detection.value.recommendedActionType == "FOLLOW_UP"
  }

  lemma EvidenceSaysSo(f: D.Facts, b: D.Baseline, observedAt: int)
    requires !f.nextAction.present
    ensures SaysNoNextAction(D.EvidenceOf(f, b, observedAt))
  {
    hide D.JTexts, D.BaselineJson;
    var n := D.NextActionJson(f.nextAction);
    assert n.fields["present"] == JBool(false);
    assert D.EvidenceOf(f, b, observedAt)["next_action"] == n;
  }

  lemma JudgementIsReport(f: D.Facts, at: int, hash: Json -> string)
    ensures IsReport(D.Judge(f, at, hash))
  {
    hide D.LatestActivityBaseline, D.Latest, D.EvidenceOf, D.SourceBasis, SaysNoNextAction;
    var b := D.LatestActivityBaseline(f.activities, f.created);
    var t := D.Latest(f.stamps);
    if b.Some? && t.Some? && !f.nextAction.present { EvidenceSaysSo(f, b.value, t.value); }
  }

  lemma EvaluationIsReport(o: D.RawOpportunity, activities: Option<seq<D.RawActivity>>, tasks: Option<seq<D.RawTask>>,
                           at: int, hash: Json -> string)
    ensures IsReport(D.Evaluate(o, activities, tasks, at, hash))
  {
    hide D.GatherFacts, D.Judge, SaysNoNextAction;
    match D.GatherFacts(o, activities, tasks) {
      case Suppressed(_, _) =>
      case Gathered(f) => JudgementIsReport(f, at, hash);
    }
  }

  lemma ReportedType(c: Content, e: D.Evaluation)
    requires IsReport(e) && e.detection.Some?
    ensures ExpectedType(c, e) == CompatibleType(c)
  {
    hide SaysNoNextAction;
  }

  // ------------------------------------------------------------------ materialising again

  lemma NothingToClear(actions: seq<RA.Action>, basis: Deals.Basis, at: int)
    requires forall k | 0 <= k < |actions| :: !RA.IsIncompatible(actions[k], basis)
    ensures RA.CancelIncompatible(actions, basis, at) == actions
  {
  }

  /** Materialising while the advice is that of an active action answers with that action and writes nothing new. */
  lemma MaterializeReuses(s: RA.Store, i: nat, newId: string, at: int)
    requires RI.Inv(s) && i < |s.actions| && RA.IsActive(s.actions[i].life.status)
    requires var o := RA.OpportunityIndex(s, s.actions[i].opportunityId);
             o.Some? && !Deals.IsClosed(s.opportunities[o.value].stage)
    requires RA.CurrentBasis(s, s.actions[i].opportunityId, None, at) == Some(s.actions[i].basis)
    ensures RA.Materialize(s, s.actions[i].opportunityId, newId, at, false)
            == RA.Step(s, RA.Success(s.actions[i], true))
  {
    hide Filter, RI.LinksAreKnown, RI.HaveDistinctTaskIds, RA.Replay, RA.BuildProposedExecution, RA.IsActive,
      RA.CurrentBasis;
    var a := s.actions[i];
    assert RI.IsSound(s, a);
    forall k | 0 <= k < |s.actions| ensures !RA.IsIncompatible(s.actions[k], a.basis) {
    }
    NothingToClear(s.actions, a.basis, at);
    var p := RA.IsDuplicateFor(a.basis);
    forall k | 0 <= k < i ensures !p(s.actions[k]) {
    }
    FirstIndexIs(s.actions, i, p);
  }

  /** A materialised action is stored, active, and of the current basis. */
  lemma MaterializedIsActive(s: RA.Store, opportunityId: string, newId: string, at: int)
    requires RA.Materialize(s, opportunityId, newId, at, false).outcome.Success?
    ensures var m := RA.Materialize(s, opportunityId, newId, at, false);
            && m.outcome.action in m.store.actions && RA.IsActive(m.outcome.action.life.status)
            && m.outcome.action.opportunityId == opportunityId
            && Some(m.outcome.action.basis) == RA.CurrentBasis(s, opportunityId, None, at)
            && m.store == s.(actions := m.store.actions)
  {
    hide Filter, FirstIndex, Deals.NextBestAction, Deals.LatestActivity, Deals.FindProspect, Deals.AmountFacts;
    var m := RA.Materialize(s, opportunityId, newId, at, false);
    OpportunityOfIndex(s, opportunityId);
    if m.outcome.duplicate {
      var basis := RA.CurrentBasis(s, opportunityId, None, at).value;
      var c := RA.CancelIncompatible(s.actions, basis, at);
      var i := FirstIndex(c, RA.IsDuplicateFor(basis));
      assert RA.IsDuplicateFor(basis)(c[i.value]);
    } else {
      assert m.store.actions[|m.store.actions| - 1] == m.outcome.action;
    }
  }

  lemma OpportunityOfIndex(s: RA.Store, id: string)
    requires RA.OpportunityIndex(s, id).Some?
    ensures s.opportunities[RA.OpportunityIndex(s, id).value].id == id
  {
    hide FirstIndex;
    var i := RA.OpportunityIndex(s, id).value;
    assert RA.OpportunityWithId(id)(s.opportunities[i]);
  }

  // ------------------------------------------------------------------ linking

  /** Linking an unlinked active case to a stored action of its opportunity, at a fitting time, succeeds. */
  lemma LinkSucceeds(w: World, tenantId: string, q: Request, i: nat, k: nat, created: bool, observed: int)
    requires IsAccepted(w.cases, tenantId, w.store.actions) && RI.Inv(w.store)
    requires IsIssued(q) && q.tenantId == tenantId && i < |w.cases| && k < |w.store.actions|
    requires IsActive(w.cases[i].life.state) && w.cases[i].life.actionId.None?
    requires w.store.actions[k].opportunityId == w.cases[i].content.opportunityId
    requires ByteLength(q.subjectId) <= SUBJECT_MAX && observed >= w.cases[i].content.detectedAt
    requires IsBoundedText(w.store.actions[k].id, ID_MAX)
    ensures var a := w.store.actions[k]; var r := w.cases[i];
            var linked := LinkedRecord(r, a, LinkTime(observed, a), q.subjectId);
            && Link(w, tenantId, q, r.content.id, a, created, observed)
               == Step(w.(cases := w.cases[i := linked]), Handed(linked, a, created, true))
            && IsAccepted(w.cases[i := linked], tenantId, w.store.actions)
  {
    hide RI.Inv, IsAccepted, FirstIndex, ByteLength, IsTrimmed, Trim, Filter, LinkedRecord, ActionReference;
    var a := w.store.actions[k];
    var r := w.cases[i];
    CaseIsFirst(w.cases, tenantId, w.store.actions, i);
    UniqueIsReference(w.store, k, r.content.opportunityId);
    TrimKeepsTrimmed(a.id);
    LinkCheckIsExact(w.cases, w.store.actions, tenantId, q, i, a.id, LinkTime(observed, a));
  }

  // ------------------------------------------------------------------ main results

  /** A linked case answers every further handoff with its action and changes neither cases nor actions. */
  lemma LinkedHandoffIsStable(w: World, tenantId: string, q: Request, i: nat, k: nat, e: D.Evaluation,
                              detectionId: string, newActionId: string, clock: Clock, stops: bool)
    requires IsAccepted(w.cases, tenantId, w.store.actions) && q.tenantId == tenantId
    requires i < |w.cases| && k < |w.store.actions|
    requires IsActive(w.cases[i].life.state) && IsLinkedAction(w.cases[i], w.store.actions[k])
    ensures HandOff(w, tenantId, q, w.cases[i].content.id, e, detectionId, newActionId, clock, stops)
            == Step(w, Handed(w.cases[i], w.store.actions[k], false, false))
  {
    hide IsAccepted, FirstIndex, Filter, IsPersisted, PredecessorIsValid, ReplacementIsValid;
    CaseIsFirst(w.cases, tenantId, w.store.actions, i);
    AcceptedAt(w.cases, tenantId, w.store.actions, i);
    OnlyOneKept(w.store.actions, RA.HasId(w.store.actions[k].id), k);
  }

  /** The action that a stopped handoff left behind. */
  function Left(w: World, opportunityId: string, newActionId: string, at: int): RA.Action
    requires RA.Materialize(w.store, opportunityId, newActionId, at, false).outcome.Success?
  {
    RA.Materialize(w.store, opportunityId, newActionId, at, false).outcome.action
  }

  /** What a handoff that stopped had established. */
  lemma StoppedHandoff(w: World, tenantId: string, q: Request, i: nat, e: D.Evaluation, detectionId: string,
                       newActionId: string, clock: Clock)
    requires i < |w.cases|
    requires HandOff(w, tenantId, q, w.cases[i].content.id, e, detectionId, newActionId, clock, true).answer == Stopped
    ensures var r := w.cases[i];
            var first := HandOff(w, tenantId, q, r.content.id, e, detectionId, newActionId, clock, true);
            && IsActive(r.life.state) && r.life.actionId.None? && e.detection.Some?
            && RA.Materialize(w.store, r.content.opportunityId, newActionId, clock.materialized, false).outcome.Success?
            && first.world.cases == w.cases
            && Left(w, r.content.opportunityId, newActionId, clock.materialized) in first.world.store.actions
            && RA.TypeName(Left(w, r.content.opportunityId, newActionId, clock.materialized).actionType)
               == ExpectedType(r.content, e)
  {
    hide IsAccepted, FirstIndex, RA.Materialize, ExpectedType, Link, RA.CurrentBasis, BuildDetection;
    StoppedIsAccepted(w, tenantId, q, w.cases[i].content.id, e, detectionId, newActionId, clock);
    CaseIsFirst(w.cases, tenantId, w.store.actions, i);
    MaterializedIsActive(w.store, w.cases[i].content.opportunityId, newActionId, clock.materialized);
  }

  lemma StoppedIsAccepted(w: World, tenantId: string, q: Request, id: string, e: D.Evaluation, detectionId: string,
                          newActionId: string, clock: Clock)
    requires HandOff(w, tenantId, q, id, e, detectionId, newActionId, clock, true).answer == Stopped
    ensures IsAccepted(w.cases, tenantId, w.store.actions)
  {
    hide IsAccepted, FirstIndex, RA.Materialize, ExpectedType, Link, RA.CurrentBasis, BuildDetection, Validate;
  }

  /**
   * Crash-safe handoff. A handoff stopped after it materialised action a. Whatever happened to a and to other cases
   * meanwhile, as long as a is active, the case is untouched and the evidence still advises it: the retry creates and
   * cancels no action, links exactly a, dated no earlier than its creation, and every handoff after that changes
   * nothing.
   */
  lemma StoppedHandoffResumes(
      w: World, tenantId: string, q: Request, i: nat, e: D.Evaluation, detectionId: string, newActionId: string,
      clock: Clock, v: World, k: nat, p: Request, again: D.Evaluation, otherDetectionId: string, otherActionId: string,
      later: Clock, third: D.Evaluation, thirdId: string, thirdActionId: string, last: Clock, stops: bool)
    requires i < |w.cases|
    requires IsReport(e) && IsReport(again)
    requires HandOff(w, tenantId, q, w.cases[i].content.id, e, detectionId, newActionId, clock, true).answer == Stopped
    requires var id := w.cases[i].content.opportunityId;
             RA.Materialize(w.store, id, newActionId, clock.materialized, false).outcome.Success?
    requires IsAccepted(v.cases, tenantId, v.store.actions) && RI.Inv(v.store) && k < |v.store.actions|
    requires i < |v.cases| && v.cases[i] == w.cases[i]
    requires var a := Left(w, w.cases[i].content.opportunityId, newActionId, clock.materialized);
             RR.Persists(a, v.store.actions[k]) && RA.IsActive(v.store.actions[k].life.status)
             && IsBoundedText(a.id, ID_MAX)
             && RA.CurrentBasis(v.store, w.cases[i].content.opportunityId, None, later.materialized) == Some(a.basis)
    requires IsIssued(p) && p.tenantId == tenantId && ByteLength(p.subjectId) <= SUBJECT_MAX
    requires Validate(v.store, w.cases[i], again, otherDetectionId, p.subjectId, later.evaluated).None?
    requires var o := RA.OpportunityIndex(v.store, w.cases[i].content.opportunityId);
             o.Some? && !Deals.IsClosed(v.store.opportunities[o.value].stage)
    requires later.linked >= w.cases[i].content.detectedAt
    ensures var r := w.cases[i];
            var a := Left(w, r.content.opportunityId, newActionId, clock.materialized);
            var second := HandOff(v, tenantId, p, r.content.id, again, otherDetectionId, otherActionId, later, false);
            && second.world.store == v.store
            && second.answer.Handed? && !second.answer.actionCreated && second.answer.linkCreated
            && second.answer.action == v.store.actions[k] && second.answer.action.id == a.id
            && second.answer.record.life.actionId == Some(a.id)
            && second.answer.record.life.linkedAt.Some? && second.answer.record.life.linkedAt.value >= a.createdAt
            && second.world.cases == v.cases[i := second.answer.record]
            && HandOff(second.world, tenantId, p, r.content.id, third, thirdId, thirdActionId, last, stops)
               == Step(second.world, Handed(second.answer.record, second.answer.action, false, false))
  {
    hide CaseInv, RI.Inv, TimesIncrease, IsAccepted, FirstIndex, ByteLength, IsBoundedText, RA.Materialize, Link,
      RA.CurrentBasis, BuildDetection, RA.IsActive, SaysNoNextAction, IsTrimmed;
    var r := w.cases[i];
    var b := v.store.actions[k];
    StoppedHandoff(w, tenantId, q, i, e, detectionId, newActionId, clock);
    MaterializedIsActive(w.store, r.content.opportunityId, newActionId, clock.materialized);
    ReportedType(r.content, e);
    ReportedType(r.content, again);
    CaseIsFirst(v.cases, tenantId, v.store.actions, i);
    MaterializeReuses(v.store, k, otherActionId, later.materialized);
    LinkSucceeds(v, tenantId, p, i, k, false, later.linked);
    var linked := LinkedRecord(r, b, LinkTime(later.linked, b), p.subjectId);
    var u := v.(cases := v.cases[i := linked]);
    LinkedHandoffIsStable(u, tenantId, p, i, k, third, thirdId, thirdActionId, last, stops);
  }

  /**
   * Wherever it stops, a handoff keeps the cases accepted and the actions in order: cases only grow and actions only
   * evolve. Where the series were chains with increasing times they still are.
   */
  lemma HandoffKeepsSound(w: World, tenantId: string, q: Request, id: string, e: D.Evaluation, detectionId: string,
                          newActionId: string, clock: Clock, stops: bool)
    requires IsAccepted(w.cases, tenantId, w.store.actions) && RI.Inv(w.store)
    requires RA.ActionIndex(w.store, newActionId).None?
    ensures var v := HandOff(w, tenantId, q, id, e, detectionId, newActionId, clock, stops).world;
            && IsAccepted(v.cases, tenantId, v.store.actions) && AllGrow(w.cases, v.cases)
            && RR.GoodStep(w.store, v.store)
            && (LT.IsSound(w, tenantId) ==> LT.IsSound(v, tenantId))
  {
    hide RI.Inv, IsAccepted, FirstIndex, RA.Materialize, Link, IsLinkedAction, AllGrow, Validate, ExpectedType,
      RR.GoodStep, RA.ActionIndex, LT.IsSound;
    AllGrowReflexive(w.cases);
    RR.StayIsGood(w.store);
    var i := FirstIndex(w.cases, TenantCase(tenantId, id));
    if i.Some? {
      var opportunityId := w.cases[i.value].content.opportunityId;
      var m := RA.Materialize(w.store, opportunityId, newActionId, clock.materialized, false);
      var v := w.(store := m.store);
      RR.MaterializeIsGood(w.store, opportunityId, newActionId, clock.materialized, false);
      ActionsKeepWorld(w, v, tenantId);
      if m.outcome.Success? {
        LinkKeepsSound(v, tenantId, q, id, m.outcome.action, !m.outcome.duplicate, clock.linked);
      }
    }
  }

  lemma ActionsKeepWorld(w: World, v: World, tenantId: string)
    requires RI.Inv(w.store) && v.cases == w.cases && RR.GoodStep(w.store, v.store)
    requires IsAccepted(w.cases, tenantId, w.store.actions)
    ensures IsAccepted(v.cases, tenantId, v.store.actions) && (LT.IsSound(w, tenantId) ==> LT.IsSound(v, tenantId))
  {
    hide RI.Inv, IsAccepted, RR.Evolves, CaseInv, TimesIncrease;
    LeakCaseRuns.ActionStepsKeepAcceptance(w.cases, tenantId, w.store, v.store);
  }

  lemma LinkKeepsSound(w: World, tenantId: string, q: Request, id: string, a: RA.Action, created: bool, observed: int)
    requires IsAccepted(w.cases, tenantId, w.store.actions)
    ensures var v := Link(w, tenantId, q, id, a, created, observed).world;
            && IsAccepted(v.cases, tenantId, v.store.actions) && AllGrow(w.cases, v.cases) && v.store == w.store
            && (LT.IsSound(w, tenantId) ==> LT.IsSound(v, tenantId))
  {
    hide IsAccepted, FirstIndex, ActionReference, AllGrow, Grows, IsActive, Trim, LinkedRecord, CaseInv,
      TimesIncrease, RI.Inv;
    AllGrowReflexive(w.cases);
    var i := FirstIndex(w.cases, TenantCase(tenantId, id));
    if i.Some? && IsActive(w.cases[i.value].life.state) && w.cases[i.value].life.actionId.None? {
      var wanted := ActionReference(w.store.actions, Trim(a.id), w.cases[i.value].content.opportunityId);
      if wanted.Some? {
        var m := LinkedRecord(w.cases[i.value], wanted.value, LinkTime(observed, a), q.subjectId);
        LinkedGrows(w.cases[i.value], wanted.value, LinkTime(observed, a), q.subjectId);
        LT.LinkedKeepsContent(w.cases[i.value], wanted.value, LinkTime(observed, a), q.subjectId);
        OneGrows(w.cases, i.value, m);
        if IsAccepted(w.cases[i.value := m], tenantId, w.store.actions) && LT.IsSound(w, tenantId) {
          AcceptedUpdateIsSound(w, tenantId, i.value, m);
        }
      }
    }
  }

  /** A grown active case, accepted in its place, keeps chains and times. */
  lemma AcceptedUpdateIsSound(w: World, tenantId: string, i: nat, m: Record)
    requires LT.IsSound(w, tenantId) && i < |w.cases| && IsActive(w.cases[i].life.state)
    requires Grows(w.cases[i], m) && m.life.state == w.cases[i].life.state
    requires IsAccepted(w.cases[i := m], tenantId, w.store.actions)
    ensures LT.IsSound(w.(cases := w.cases[i := m]), tenantId)
  {
    hide IsAccepted, CaseInv, TimesIncrease, RI.Inv, IsPersisted, LinkIsValid, PredecessorIsValid, ReplacementIsValid;
    AcceptedAt(w.cases[i := m], tenantId, w.store.actions, i);
    UpdateKeepsInv(w.cases, tenantId, w.store.actions, i, m);
    UpdateKeepsTimes(w.cases, tenantId, w.store.actions, i, m);
  }
}

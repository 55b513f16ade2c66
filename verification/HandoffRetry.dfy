/** Retrying a stopped handoff on unchanged evidence. */
module HandoffRetry {
  import opened Text
  import opened Lists
  import Deals
  import RA = RevenueActions
  import RI = RevenueActionInvariant
  import RR = RevenueActionRuns
  import opened LeakCases
  import opened LeakCaseStore
  import opened LeakCaseAcceptance
  import opened Handoff
  import opened HandoffTheorems
  import opened HandoffAdvice
  import PR = PortfolioRescan
  import DW = DetectorWindow
  import D = Detector

  // ------------------------------------------------------------------ advice that does not age

  /** The advice to define a next action, and the fingerprint on it, do not depend on the clock. */
  lemma AdviceDoesNotAge(o: Deals.Opportunity, prospects: seq<Deals.Prospect>, activities: seq<Deals.Activity>,
                         others: seq<Deals.Activity>, now: int, later: int)
    requires Deals.BasisOf(o, prospects, activities, now).recommendation.actionType == Deals.CREATE_TASK
    requires AgreeOnLatest(activities, others, o.id)
    ensures Deals.BasisOf(o, prospects, others, later) == Deals.BasisOf(o, prospects, activities, now)
  {
    hide Deals.LatestActivity, Deals.FindProspect, Deals.BusinessName, Deals.ContactName, Deals.AmountFacts,
      Deals.HasValue, Deals.IsNotPositive;
  }

  /** The same opportunity and prospects, and the same activity that the advice looks at. */
  predicate SameView(s: RA.Store, t: RA.Store, opportunityId: string) {
    var i, j := RA.OpportunityIndex(s, opportunityId), RA.OpportunityIndex(t, opportunityId);
    && t.prospects == s.prospects && (i.Some? <==> j.Some?)
    && (i.Some? ==> t.opportunities[j.value] == s.opportunities[i.value])
    && AgreeOnLatest(s.activities, t.activities, opportunityId)
  }

  lemma CurrentAdviceStands(s: RA.Store, t: RA.Store, opportunityId: string, now: int, later: int)
    requires SameView(s, t, opportunityId)
    requires var b := RA.CurrentBasis(s, opportunityId, None, now);
             b.Some? && b.value.recommendation.actionType == Deals.CREATE_TASK
    ensures RA.CurrentBasis(t, opportunityId, None, later) == RA.CurrentBasis(s, opportunityId, None, now)
  {
    hide Deals.BasisOf, FirstIndex, AgreeOnLatest;
    var i := RA.OpportunityIndex(s, opportunityId).value;
    OpportunityOfIndex(s, opportunityId);
    AdviceDoesNotAge(s.opportunities[i], s.prospects, s.activities, t.activities, now, later);
  }

  // ------------------------------------------------------------------ what a valid case expects

  lemma PersistedRecommendation(r: Record, tenantId: string)
    requires IsPersisted(r, tenantId)
    ensures r.content.semanticKey.recommendedActionType == r.content.recommendedActionType
    ensures r.content.semanticKey.series.leakType == r.content.leakType
  {
    hide TextsOf, NormalizeCommercialValue, AreSupported, Replay;
  }

  /** A case that validates against a report is handed off as a CREATE_TASK. */
  lemma ValidatedIsCreateTask(s: RA.Store, r: Record, tenantId: string, e: D.Evaluation, detectionId: string,
                              subjectId: string, at: int)
    requires IsPersisted(r, tenantId) && IsReport(e) && Validate(s, r, e, detectionId, subjectId, at).None?
    ensures e.detection.Some? && ExpectedType(r.content, e) == "CREATE_TASK"
    ensures var b := RA.CurrentBasis(s, r.content.opportunityId, None, at);
            b.Some? && b.value.recommendation.actionType == Deals.CREATE_TASK
    ensures BuildDetection(e.detection.value, detectionId, at, subjectId).Some?
    ensures r.content.semanticKey
            == BuildDetection(e.detection.value, detectionId, at, subjectId).value.content.semanticKey
  {
    hide IsPersisted, BuildDetection, RA.CurrentBasis, FirstIndex, SaysNoNextAction;
    PersistedRecommendation(r, tenantId);
    ReportedMeaning(e.detection.value, detectionId, at, subjectId);
    BasisOfKnown(s, r.content.opportunityId, at);
  }

  lemma BasisOfKnown(s: RA.Store, opportunityId: string, at: int)
    ensures RA.CurrentBasis(s, opportunityId, None, at).Some? <==> RA.OpportunityIndex(s, opportunityId).Some?
  {
  }

  lemma ReportedMeaning(input: Input, id: string, at: int, subjectId: string)
    requires input.leakType == "STALLED_OPPORTUNITY" && input.recommendedActionType == "FOLLOW_UP"
    requires BuildDetection(input, id, at, subjectId).Some?
    ensures var key := BuildDetection(input, id, at, subjectId).value.content.semanticKey;
            key.series.leakType == "STALLED_OPPORTUNITY" && key.recommendedActionType == "FOLLOW_UP"
  {
    hide NormalizeCommercialValue;
    assert Trim("FOLLOW_UP") == "FOLLOW_UP" by { TrimKeepsTrimmed("FOLLOW_UP"); }
  }

  /** The same report validates the case again, at any later time, under any usable id and subject. */
  lemma ReportValidatesAgain(s: RA.Store, t: RA.Store, r: Record, tenantId: string, e: D.Evaluation,
                             again: D.Evaluation, detectionId: string, subjectId: string, at: int, otherId: string,
                             otherSubject: string, later: int)
    requires IsPersisted(r, tenantId) && IsReport(e) && IsReport(again) && again.detection == e.detection
    requires Validate(s, r, e, detectionId, subjectId, at).None? && at <= later
    requires NonEmpty(otherId, ID_MAX).Some? && NonEmpty(otherSubject, SUBJECT_MAX).Some?
    requires SameView(s, t, r.content.opportunityId)
    ensures Validate(t, r, again, otherId, otherSubject, later).None?
  {
    hide IsPersisted, BuildDetection, RA.CurrentBasis, FirstIndex, SaysNoNextAction, NonEmpty, IsReport, ExpectedType,
      CompatibleType;
    ValidatedIsCreateTask(s, r, tenantId, e, detectionId, subjectId, at);
    CurrentAdviceStands(s, t, r.content.opportunityId, at, later);
    PR.MeaningIgnoresTime(e.detection.value, detectionId, at, subjectId, otherId, later, otherSubject);
    ReportedType(r.content, e);
    ReportedType(r.content, again);
    BasisOfKnown(t, r.content.opportunityId, later);
  }

  // ------------------------------------------------------------------ main result

  lemma StoppedWasValid(w: World, tenantId: string, q: Request, i: nat, e: D.Evaluation, detectionId: string,
                        newActionId: string, clock: Clock)
    requires i < |w.cases|
    requires HandOff(w, tenantId, q, w.cases[i].content.id, e, detectionId, newActionId, clock, true).answer == Stopped
    ensures Validate(w.store, w.cases[i], e, detectionId, q.subjectId, clock.evaluated).None?
  {
    hide IsAccepted, Validate, RA.Materialize, FirstIndex, IsLinkedAction, ExpectedType, Link;
    StoppedIsAccepted(w, tenantId, q, w.cases[i].content.id, e, detectionId, newActionId, clock);
    CaseIsFirst(w.cases, tenantId, w.store.actions, i);
    LinkAnswers(w, tenantId, q, w.cases[i].content.id);
  }

  lemma LinkAnswers(w: World, tenantId: string, q: Request, id: string)
    ensures forall v: World, a, created, observed :: Link(v, tenantId, q, id, a, created, observed).answer != Stopped
  {
    hide LinkAction;
  }

  lemma SubjectIsUsable(p: Request)
    requires IsIssued(p) && ByteLength(p.subjectId) <= SUBJECT_MAX
    ensures NonEmpty(p.subjectId, SUBJECT_MAX).Some?
  {
    TrimKeepsTrimmed(p.subjectId);
  }

  lemma NotClosed(s: RA.Store, opportunityId: string, newActionId: string, at: int)
    requires RA.Materialize(s, opportunityId, newActionId, at, false).outcome.Success?
    ensures var o := RA.OpportunityIndex(s, opportunityId); o.Some? && !Deals.IsClosed(s.opportunities[o.value].stage)
  {
    hide FirstIndex, RA.CurrentBasis, RA.CancelIncompatible;
  }

  /**
   * Crash-safe handoff on unchanged evidence. A handoff stopped after it materialised action a. While a is active,
   * the opportunity is what it was and both stores are what the detector's evidence was read from, a retry inside
   * the leak window creates no second action, links exactly a, dated no earlier than its creation, and leaves the
   * actions as they are.
   */
  lemma UnchangedEvidenceResumes(
      w: World, tenantId: string, q: Request, i: nat,
      o: D.RawOpportunity, activities: seq<D.RawActivity>, tasks: Option<seq<D.RawTask>>, hash: Json -> string,
      detectionId: string, newActionId: string, clock: Clock,
      v: World, k: nat, p: Request, otherDetectionId: string, otherActionId: string, later: Clock)
    requires i < |w.cases|
    requires var e := D.Evaluate(o, Some(activities), tasks, clock.evaluated, hash);
             HandOff(w, tenantId, q, w.cases[i].content.id, e, detectionId, newActionId, clock, true).answer == Stopped
    requires var id := w.cases[i].content.opportunityId;
             RA.Materialize(w.store, id, newActionId, clock.materialized, false).outcome.Success?
    requires D.Evaluate(o, Some(activities), tasks, later.evaluated, hash).detection.Some?
             && clock.evaluated <= later.evaluated
    requires IsAccepted(v.cases, tenantId, v.store.actions) && RI.Inv(v.store) && k < |v.store.actions|
    requires i < |v.cases| && v.cases[i] == w.cases[i]
    requires IsEvidenceOf(o, activities, w.store, w.cases[i].content.opportunityId)
    requires IsEvidenceOf(o, activities, v.store, w.cases[i].content.opportunityId)
    requires v.store.prospects == w.store.prospects
    requires var id := w.cases[i].content.opportunityId;
             v.store.opportunities[RA.OpportunityIndex(v.store, id).value]
             == w.store.opportunities[RA.OpportunityIndex(w.store, id).value]
    requires var a := Left(w, w.cases[i].content.opportunityId, newActionId, clock.materialized);
             RR.Persists(a, v.store.actions[k]) && RA.IsActive(v.store.actions[k].life.status)
               && IsBoundedText(a.id, ID_MAX)
    requires IsIssued(p) && p.tenantId == tenantId && ByteLength(p.subjectId) <= SUBJECT_MAX
    requires NonEmpty(otherDetectionId, ID_MAX).Some? && later.linked >= w.cases[i].content.detectedAt
    ensures var r := w.cases[i];
            var a := Left(w, r.content.opportunityId, newActionId, clock.materialized);
            var again := D.Evaluate(o, Some(activities), tasks, later.evaluated, hash);
            var second := HandOff(v, tenantId, p, r.content.id, again, otherDetectionId, otherActionId, later, false);
            && second.world.store == v.store
            && second.answer.Handed? && !second.answer.actionCreated && second.answer.linkCreated
            && second.answer.action == v.store.actions[k] && second.answer.action.id == a.id
            && second.answer.record.life.actionId == Some(a.id)
            && second.answer.record.life.linkedAt.Some? && second.answer.record.life.linkedAt.value >= a.createdAt
            && second.world.cases == v.cases[i := second.answer.record]
  {
    hide SameView, AreReadings, IsReading, IsAccepted, Validate, RA.Materialize, FirstIndex, HandOff, RI.Inv,
      IsPersisted, LinkIsValid, PredecessorIsValid, ReplacementIsValid, D.Evaluate, RA.CurrentBasis, RR.Persists,
      NonEmpty, IsReport, IsIssued, ByteLength, Left, IsBoundedText;
    var r := w.cases[i];
    var id := r.content.opportunityId;
    var e := D.Evaluate(o, Some(activities), tasks, clock.evaluated, hash);
    var again := D.Evaluate(o, Some(activities), tasks, later.evaluated, hash);
    EvaluationIsReport(o, Some(activities), tasks, clock.evaluated, hash);
    EvaluationIsReport(o, Some(activities), tasks, later.evaluated, hash);
    StoppedHandoff(w, tenantId, q, i, e, detectionId, newActionId, clock);
    StoppedWasValid(w, tenantId, q, i, e, detectionId, newActionId, clock);
    SameDetection(o, Some(activities), tasks, clock.evaluated, later.evaluated, hash);
    AcceptedAt(v.cases, tenantId, v.store.actions, i);
    ValidatedIsCreateTask(w.store, r, tenantId, e, detectionId, q.subjectId, clock.evaluated);
    SubjectIsUsable(p);
    EvidenceGivesView(o, activities, w.store, v.store, id);
    EvidenceGivesView(o, activities, w.store, w.store, id);
    ReportValidatesAgain(w.store, v.store, r, tenantId, e, again, detectionId, q.subjectId, clock.evaluated,
      otherDetectionId, p.subjectId, later.evaluated);
    CurrentAdviceStands(w.store, w.store, id, clock.evaluated, clock.materialized);
    CurrentAdviceStands(w.store, v.store, id, clock.evaluated, later.materialized);
    LeftHasBasis(w, id, newActionId, clock.materialized);
    NotClosed(w.store, id, newActionId, clock.materialized);
    StoppedHandoffResumes(w, tenantId, q, i, e, detectionId, newActionId, clock, v, k, p, again, otherDetectionId,
      otherActionId, later, again, otherDetectionId, otherActionId, later, false);
  }

  lemma EvidenceGivesView(o: D.RawOpportunity, activities: seq<D.RawActivity>, s: RA.Store, t: RA.Store, id: string)
    requires IsEvidenceOf(o, activities, s, id) && IsEvidenceOf(o, activities, t, id) && t.prospects == s.prospects
    requires t.opportunities[RA.OpportunityIndex(t, id).value] == s.opportunities[RA.OpportunityIndex(s, id).value]
    ensures SameView(s, t, id)
  {
    hide FirstIndex, Filter, AreReadings, IsReading, AgreeOnLatest;
    SameEvidenceAgrees(o, activities, s, t, id);
  }

  lemma LeftHasBasis(w: World, opportunityId: string, newActionId: string, at: int)
    requires RA.Materialize(w.store, opportunityId, newActionId, at, false).outcome.Success?
    ensures Some(Left(w, opportunityId, newActionId, at).basis) == RA.CurrentBasis(w.store, opportunityId, None, at)
  {
    hide RA.Materialize, RA.CurrentBasis;
    MaterializedIsActive(w.store, opportunityId, newActionId, at);
  }

  /** Two evaluations of the same evidence that both report a leak report the same detection. */
  lemma SameDetection(o: D.RawOpportunity, activities: Option<seq<D.RawActivity>>, tasks: Option<seq<D.RawTask>>,
                      at: int, later: int, hash: Json -> string)
    requires D.Evaluate(o, activities, tasks, at, hash).detection.Some?
    requires D.Evaluate(o, activities, tasks, later, hash).detection.Some?
    ensures D.Evaluate(o, activities, tasks, later, hash) == D.Evaluate(o, activities, tasks, at, hash)
  {
    hide D.Evaluate, D.GatherFacts, DW.IsIdle, DW.InWindow;
    DW.NoLeakOtherwise(o, activities, tasks, at, hash);
    DW.LeakWindow(o, activities, tasks, at, later, hash);
    DW.LeakWindow(o, activities, tasks, later, at, hash);
  }
}

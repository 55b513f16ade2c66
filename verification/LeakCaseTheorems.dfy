/** The main results about the case store, over every run of it beside the revenue actions. */
module LeakCaseTheorems {
  import opened Text
  import opened Lists
  import Deals
  import RA = RevenueActions
  import RI = RevenueActionInvariant
  import RR = RevenueActionRuns
  import opened LeakCases
  import opened LeakCaseRebuild
  import opened LeakCaseStore
  import opened LeakCaseInvariant
  import opened LeakCaseSteps
  import opened LeakCaseReconcile
  import opened LeakCaseRuns

  function Ids(opportunities: seq<Deals.Opportunity>): seq<string> {
    seq(|opportunities|, i requires 0 <= i < |opportunities| => opportunities[i].id)
  }

  datatype Act =
    | AReconcile(q: Request, d: Detection)
    | AScan(q: Request, ds: seq<Detection>)
    | ATransition(q: Request, id: string, to: CaseState, reason: string, at: int, wakeAt: int)
    | ALink(q: Request, id: string, actionId: string, at: int)
    | AAction(event: RR.Event)

  /** Subject and time fit the log of the addressed case, if there is one. */
  ghost predicate IsTimely(cases: seq<Record>, tenantId: string, q: Request, id: string, at: int) {
    && IsIssued(q) && ByteLength(q.subjectId) <= SUBJECT_MAX
    && forall i | 0 <= i < |cases| && cases[i].content.id == id :: at >= cases[i].content.detectedAt
  }

  ghost predicate Next(w: World, tenantId: string, a: Act, v: World) {
    match a
    case AReconcile(q, d) =>
      && IsLegitimate(w.cases, tenantId, q, d) && v.store == w.store
      && var r := Reconcile(w.cases, w.store.actions, Ids(w.store.opportunities), tenantId, q, d);
         v.cases == if r.Settled? then r.records else w.cases
    case AScan(q, ds) =>
      && q.tenantId == tenantId && IsLegitimateBatch(w.cases, tenantId, q, ds) && v.store == w.store
      && var r := ReconcileBatch(w.cases, w.store.actions, Ids(w.store.opportunities), tenantId, q, ds);
         v.cases == if r.Batch? then r.records else w.cases
    case ATransition(q, id, to, reason, at, wakeAt) =>
      && IsTimely(w.cases, tenantId, q, id, at) && v.store == w.store
      && var u := Transition(w.cases, w.store.actions, tenantId, q, id, to, reason, at, wakeAt);
         v.cases == if u.Updated? then u.records else w.cases
    case ALink(q, id, actionId, at) =>
      && IsTimely(w.cases, tenantId, q, id, at) && IsBoundedText(Trim(actionId), ID_MAX) && v.store == w.store
      && var u := LinkAction(w.cases, w.store.actions, tenantId, q, id, actionId, at);
         v.cases == if u.Updated? then u.records else w.cases
    case AAction(e) =>
      v.cases == w.cases && RR.Next(w.store, e, v.store)
  }

  ghost predicate IsSound(w: World, tenantId: string) {
    CaseInv(w.cases, tenantId, w.store.actions) && TimesIncrease(w.cases, tenantId) && RI.Inv(w.store)
  }

  // ------------------------------------------------------------------ single calls

  /** A legitimate reconciliation is never refused for integrity: only for its value or its opportunity. */
  lemma ReconcileIsNotRefused(w: World, tenantId: string, q: Request, d: Detection)
    requires IsSound(w, tenantId) && IsLegitimate(w.cases, tenantId, q, d)
    ensures var r := Reconcile(w.cases, w.store.actions, Ids(w.store.opportunities), tenantId, q, d);
            && (r.Refused? ==> r.error == SOURCE_UNAVAILABLE && d.content.opportunityId !in Ids(w.store.opportunities))
            && (r.Settled? ==> CaseInv(r.records, tenantId, w.store.actions) && TimesIncrease(r.records, tenantId)
                               && AllGrow(w.cases, r.records))
  {
    hide CaseInv, TimesIncrease, RI.Inv, IsLegitimate, IsAccepted, Grows, ReconcileRecord;
    var opportunities := Ids(w.store.opportunities);
    InvIsAccepted(w.cases, tenantId, w.store.actions);
    LegitimateTenant(w.cases, tenantId, q, d);
    RefusalReasons(w.cases, opportunities, w.store.actions, tenantId, q, d);
    if ReconcileRecord(w.cases, opportunities, q, d).Settled? {
      LegitimateKeepsAll(w.cases, opportunities, w.store.actions, tenantId, q, d);
    }
  }

  lemma LegitimateTenant(cases: seq<Record>, tenantId: string, q: Request, d: Detection)
    requires IsLegitimate(cases, tenantId, q, d)
    ensures q.tenantId == tenantId && IsBuilt(d)
  {
  }

  lemma RefusalReasons(cases: seq<Record>, opportunities: seq<string>, actions: seq<RA.Action>, tenantId: string,
                       q: Request, d: Detection)
    requires CaseInv(cases, tenantId, actions) && q.tenantId == tenantId && IsBuilt(d)
    ensures ReconcileRecord(cases, opportunities, q, d).Refused? ==>
              ReconcileRecord(cases, opportunities, q, d).error == SOURCE_UNAVAILABLE
              && d.content.opportunityId !in opportunities
  {
    hide CaseInv, Filter, FirstIndex, NormalizeCommercialValue, Newest, SupersededRecord, RecordOf, BuildDetection;
    BuiltIsCanonical(d);
    ActiveOfSeries(cases, tenantId, actions, d.content.seriesKey);
  }

  /** A transition at a fitting time and subject is never refused by the write check. */
  lemma TransitionIsNotRefused(w: World, tenantId: string, q: Request, id: string, to: CaseState, reason: string,
                               at: int, wakeAt: int)
    requires IsSound(w, tenantId) && IsTimely(w.cases, tenantId, q, id, at)
    ensures var u := Transition(w.cases, w.store.actions, tenantId, q, id, to, reason, at, wakeAt);
            && (u.Failed? ==> u.error == TRANSITION_INVALID)
            && (u.Updated? ==> CaseInv(u.records, tenantId, w.store.actions) && TimesIncrease(u.records, tenantId)
                               && AllGrow(w.cases, u.records))
  {
    hide CaseInv, TimesIncrease, RI.Inv, IsAccepted, Grows, FirstIndex, Transitioned, ByteLength, IsTrimmed;
    InvIsAccepted(w.cases, tenantId, w.store.actions);
    var i := FirstIndex(w.cases, TenantCase(tenantId, id));
    if q.tenantId == tenantId && i.Some? {
      var r := Transitioned(w.cases[i.value], to, reason, at, wakeAt, q.subjectId);
      if r.Some? {
        TransitionKeepsInv(w.cases, w.store.actions, tenantId, q, i.value, to, reason, at, wakeAt);
        InvIsAccepted(w.cases[i.value := r.value], tenantId, w.store.actions);
        TransitionedGrows(w.cases[i.value], to, reason, at, wakeAt, q.subjectId);
        TransitionedKeepsContent(w.cases[i.value], to, reason, at, wakeAt, q.subjectId);
        UpdateKeepsTimes(w.cases, tenantId, w.store.actions, i.value, r.value);
        OneGrows(w.cases, i.value, r.value);
      }
    }
  }

  lemma TransitionedKeepsContent(r: Record, to: CaseState, reason: string, at: int, wakeAt: int, subjectId: string)
    requires Transitioned(r, to, reason, at, wakeAt, subjectId).Some?
    ensures var m := Transitioned(r, to, reason, at, wakeAt, subjectId).value;
            m.content == r.content && m.tenantId == r.tenantId && IsActive(r.life.state)
  {
    hide NonEmpty;
  }

  /** Linking at a fitting time is refused for integrity exactly when it would precede the action. */
  lemma LinkIsNotRefused(w: World, tenantId: string, q: Request, id: string, actionId: string, at: int)
    requires IsSound(w, tenantId) && IsTimely(w.cases, tenantId, q, id, at) && IsBoundedText(Trim(actionId), ID_MAX)
    ensures var u := LinkAction(w.cases, w.store.actions, tenantId, q, id, actionId, at);
            && (u == Failed(INTEGRITY_CONFLICT) ==>
                  exists a | a in w.store.actions :: a.id == Trim(actionId) && at < a.createdAt)
            && (u.Updated? ==> CaseInv(u.records, tenantId, w.store.actions) && TimesIncrease(u.records, tenantId)
                               && AllGrow(w.cases, u.records))
  {
    hide CaseInv, TimesIncrease, RI.Inv, IsAccepted, Grows, FirstIndex, ByteLength, IsTrimmed, Trim, LinkedRecord,
      ActionReference, IsBoundedText;
    InvIsAccepted(w.cases, tenantId, w.store.actions);
    AllGrowReflexive(w.cases);
    var i := FirstIndex(w.cases, TenantCase(tenantId, id));
    if q.tenantId == tenantId && i.Some? {
      var r := w.cases[i.value];
      var a := ActionReference(w.store.actions, Trim(actionId), r.content.opportunityId);
      if IsActive(r.life.state) && r.life.actionId.None? && a.Some? {
        ReferenceHasId(w.store.actions, Trim(actionId), r.content.opportunityId);
        if at >= a.value.createdAt {
          LinkKeepsInv(w.cases, w.store.actions, tenantId, q, i.value, Trim(actionId), at);
          InvIsAccepted(w.cases[i.value := LinkedRecord(r, a.value, at, q.subjectId)], tenantId, w.store.actions);
          LinkedGrows(r, a.value, at, q.subjectId);
          LinkedKeepsContent(r, a.value, at, q.subjectId);
          UpdateKeepsTimes(w.cases, tenantId, w.store.actions, i.value, LinkedRecord(r, a.value, at, q.subjectId));
          OneGrows(w.cases, i.value, LinkedRecord(r, a.value, at, q.subjectId));
        }
      }
    }
  }

  lemma LinkedKeepsContent(r: Record, a: RA.Action, at: int, subjectId: string)
    ensures LinkedRecord(r, a, at, subjectId).content == r.content
    ensures LinkedRecord(r, a, at, subjectId).tenantId == r.tenantId
    ensures LinkedRecord(r, a, at, subjectId).life.state == r.life.state
  {
  }

  // ------------------------------------------------------------------ runs

  lemma StepKeepsSound(w: World, tenantId: string, a: Act, v: World)
    requires IsSound(w, tenantId) && Next(w, tenantId, a, v)
    ensures IsSound(v, tenantId) && AllGrow(w.cases, v.cases)
  {
    hide CaseInv, TimesIncrease, RI.Inv, IsLegitimate, IsLegitimateBatch, IsTimely, Grows, Reconcile, ReconcileBatch,
      Transition, LinkAction, RR.Next, RR.GoodStep, IsBoundedText;
    AllGrowReflexive(w.cases);
    match a {
      case AReconcile(q, d) => ReconcileIsNotRefused(w, tenantId, q, d);
      case AScan(q, ds) =>
        BatchKeepsAll(w.cases, Ids(w.store.opportunities), w.store.actions, tenantId, q, ds);
      case ATransition(q, id, to, reason, at, wakeAt) =>
        TransitionIsNotRefused(w, tenantId, q, id, to, reason, at, wakeAt);
      case ALink(q, id, actionId, at) => LinkIsNotRefused(w, tenantId, q, id, actionId, at);
      case AAction(e) =>
        RR.EveryStepIsGood(w.store, e, v.store);
        ActionStepsKeepAcceptance(w.cases, tenantId, w.store, v.store);
        GoodStepKeepsInv(w.store, v.store);
    }
  }

  lemma GoodStepKeepsInv(s: RA.Store, t: RA.Store)
    requires RR.GoodStep(s, t)
    ensures RI.Inv(t)
  {
  }

  /** From no cases and no revenue actions on. */
  ghost predicate IsRun(worlds: seq<World>, tenantId: string, acts: seq<Act>) {
    && |worlds| == |acts| + 1
    && worlds[0].cases == [] && RR.IsInitial(worlds[0].store)
    && forall k | 0 <= k < |acts| :: Next(worlds[k], tenantId, acts[k], worlds[k + 1])
  }

  lemma InitialIsSound(w: World, tenantId: string)
    requires w.cases == [] && RR.IsInitial(w.store)
    ensures IsSound(w, tenantId)
  {
    forall key: SeriesKey
      ensures IsChain(SeriesOf(w.cases, tenantId, key)) && HasIncreasingTimes(SeriesOf(w.cases, tenantId, key))
    {
      assert SeriesOf(w.cases, tenantId, key) == [];
    }
    assert AreChains(w.cases, tenantId);
  }

  lemma {:induction false} RunsAreSound(worlds: seq<World>, tenantId: string, acts: seq<Act>, k: nat)
    requires IsRun(worlds, tenantId, acts) && k < |worlds|
    ensures IsSound(worlds[k], tenantId)
  {
    hide IsSound, Next, RR.IsInitial;
    if k == 0 {
      InitialIsSound(worlds[0], tenantId);
    } else {
      RunsAreSound(worlds, tenantId, acts, k - 1);
      assert Next(worlds[k - 1], tenantId, acts[k - 1], worlds[k - 1 + 1]);
      StepKeepsSound(worlds[k - 1], tenantId, acts[k - 1], worlds[k]);
    }
  }

  /** Every store of a run is accepted by the check that guards reads. */
  lemma RunsAreAccepted(worlds: seq<World>, tenantId: string, acts: seq<Act>, k: nat)
    requires IsRun(worlds, tenantId, acts) && k < |worlds|
    ensures IsAccepted(worlds[k].cases, tenantId, worlds[k].store.actions)
  {
    hide Next, CaseInv, TimesIncrease, RI.Inv, RR.IsInitial, IsAccepted;
    RunsAreSound(worlds, tenantId, acts, k);
    InvIsAccepted(worlds[k].cases, tenantId, worlds[k].store.actions);
  }
}

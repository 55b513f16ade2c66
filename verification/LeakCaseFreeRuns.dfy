/** Runs without any assumption on their acts: no case names an active one. */
module LeakCaseFreeRuns {
  import opened Text
  import opened Lists
  import RA = RevenueActions
  import RI = RevenueActionInvariant
  import RR = RevenueActionRuns
  import opened LeakCases
  import opened LeakCaseStore
  import opened LeakCaseInvariant
  import opened LeakCaseSteps
  import opened LeakCaseReconcile
  import opened LeakCaseRuns
  import opened LeakCaseAcceptance
  import opened LeakCaseTheorems

  // ------------------------------------------------------------------ who is named as predecessor

  /** No case names an active one as its predecessor. */
  predicate ActiveAreUnnamed(records: seq<Record>) {
    forall i | 0 <= i < |records| && IsActive(records[i].life.state) :: !IsNamed(records, records[i].content.id)
  }

  /** Every case names a stored one, if any. */
  predicate NamedAreStored(records: seq<Record>) {
    forall k | 0 <= k < |records| && records[k].supersedes.Some? ::
      exists j | 0 <= j < |records| :: records[j].content.id == records[k].supersedes.value
  }

  /** What a batch keeps on the way, where nothing is checked. */
  predicate AreTidy(records: seq<Record>) {
    ActiveAreUnnamed(records) && NamedAreStored(records)
  }

  lemma AcceptedNamesStored(records: seq<Record>, tenantId: string, actions: seq<RA.Action>)
    requires IsAccepted(records, tenantId, actions)
    ensures NamedAreStored(records)
  {
    hide FirstIndex, IsAccepted, IsPersisted, LinkIsValid, ReplacementIsValid;
    forall k | 0 <= k < |records| && records[k].supersedes.Some?
      ensures exists j | 0 <= j < |records| :: records[j].content.id == records[k].supersedes.value
    {
      AcceptedAt(records, tenantId, actions, k);
      assert records[CaseIndex(records, records[k].supersedes.value).value].content.id == records[k].supersedes.value;
    }
  }

  /** Replacing an active case by one of the same content and predecessor activates and names nothing. */
  lemma UpdateIsTidy(records: seq<Record>, i: nat, r: Record)
    requires AreTidy(records) && i < |records| && IsActive(records[i].life.state)
    requires r.content == records[i].content && r.supersedes == records[i].supersedes
    ensures AreTidy(records[i := r])
  {
    hide IsActive;
    var updated := records[i := r];
    assert forall k | 0 <= k < |updated| ::
        updated[k].content == records[k].content && updated[k].supersedes == records[k].supersedes;
    forall id: string ensures IsNamed(updated, id) == IsNamed(records, id) {
      if IsNamed(updated, id) {
        var k :| 0 <= k < |updated| && updated[k].supersedes == Some(id);
        assert records[k].supersedes == Some(id);
      }
      if IsNamed(records, id) {
        var k :| 0 <= k < |records| && records[k].supersedes == Some(id);
        assert updated[k].supersedes == Some(id);
      }
    }
    forall k | 0 <= k < |updated| && updated[k].supersedes.Some?
      ensures exists j | 0 <= j < |updated| :: updated[j].content.id == updated[k].supersedes.value
    {
      var j :| 0 <= j < |records| && records[j].content.id == records[k].supersedes.value;
      assert updated[j].content.id == updated[k].supersedes.value;
    }
  }

  /** Appending a case that nobody names, and that names none or a stored case which is not active. */
  lemma AppendIsTidy(records: seq<Record>, next: Record)
    requires AreTidy(records) && forall k | 0 <= k < |records| :: records[k].content.id != next.content.id
    requires next.supersedes != Some(next.content.id)
    requires next.supersedes.Some? ==>
               exists j | 0 <= j < |records| :: records[j].content.id == next.supersedes.value
    requires forall j | 0 <= j < |records| && Some(records[j].content.id) == next.supersedes ::
               !IsActive(records[j].life.state)
    ensures AreTidy(records + [next])
  {
    hide IsActive;
    var after := records + [next];
    forall i | 0 <= i < |after| && IsActive(after[i].life.state) ensures !IsNamed(after, after[i].content.id) {
    }
    forall k | 0 <= k < |after| && after[k].supersedes.Some?
      ensures exists j | 0 <= j < |after| :: after[j].content.id == after[k].supersedes.value
    {
      var j :| 0 <= j < |records| && records[j].content.id == after[k].supersedes.value;
      assert after[j].content.id == after[k].supersedes.value;
    }
  }

  /** One reconciliation, checked or not, as long as no id is stored twice afterwards. */
  lemma ReconcileIsTidy(records: seq<Record>, opportunities: seq<string>, q: Request, d: Detection)
    requires AreTidy(records) && ReconcileRecord(records, opportunities, q, d).Settled?
    requires HaveDistinctIds(ReconcileRecord(records, opportunities, q, d).records)
    requires forall r | r in ReconcileRecord(records, opportunities, q, d).records :: r.supersedes != Some(r.content.id)
    ensures AreTidy(ReconcileRecord(records, opportunities, q, d).records)
  {
    hide AreTidy, Filter, FirstIndex, Newest, NormalizeCommercialValue;
    var key := d.content.seriesKey;
    var after := ReconcileRecord(records, opportunities, q, d);
    var p := ActiveInSeries(q.tenantId, key);
    var i := FirstIndex(records, p);
    var series := SeriesOf(records, q.tenantId, key);
    FirstIsFirstOfFilter(records, p);
    if after.answer.created {
      var next := after.records[|records|];
      assert next in after.records;
      forall k | 0 <= k < |records| ensures records[k].content.id != next.content.id {
        assert after.records[k].content.id == records[k].content.id;
      }
      if i.Some? {
        var sup := SupersededRecord(records[i.value], d, q.subjectId);
        UpdateIsTidy(records, i.value, sup);
        var updated := records[i.value := sup];
        assert updated[i.value].content.id == next.supersedes.value;
        forall j | 0 <= j < |updated| && Some(updated[j].content.id) == next.supersedes
          ensures !IsActive(updated[j].life.state)
        {
          assert after.records[j].content.id == after.records[i.value].content.id;
        }
        AppendIsTidy(updated, next);
      } else {
        if series != [] { NewestIsStored(records, q.tenantId, key); }
        forall j | 0 <= j < |records| && Some(records[j].content.id) == next.supersedes
          ensures !IsActive(records[j].life.state)
        {
          var k :| 0 <= k < |records| && records[k] == Newest(series);
          assert after.records[j].content.id == after.records[k].content.id;
          assert !p(records[k]);
        }
        AppendIsTidy(records, next);
      }
    }
  }

  /** The case that the sort puts first is one of the series. */
  lemma NewestIsStored(records: seq<Record>, tenantId: string, key: SeriesKey)
    requires SeriesOf(records, tenantId, key) != []
    ensures var n := Newest(SeriesOf(records, tenantId, key));
            && (exists k | 0 <= k < |records| :: records[k] == n)
            && n.tenantId == tenantId && n.content.seriesKey == key
  {
    hide Filter, Newest;
    var a := NewestIsMaximal(SeriesOf(records, tenantId, key));
    var j := RecordOfPlace(records, tenantId, key, a);
  }

  // ------------------------------------------------------------------ batches

  predicate NoneNamesItself(records: seq<Record>) {
    forall k | 0 <= k < |records| :: records[k].supersedes != Some(records[k].content.id)
  }

  lemma GrownKeepsIdentity(before: seq<Record>, after: seq<Record>)
    requires AllGrow(before, after) && HaveDistinctIds(after) && NoneNamesItself(after)
    ensures HaveDistinctIds(before) && NoneNamesItself(before)
  {
    assert forall k | 0 <= k < |before| ::
        before[k].content == after[k].content && before[k].supersedes == after[k].supersedes;
  }

  /** A batch stays tidy although only its end is checked: ids stored twice on the way would still be there. */
  lemma {:induction false} BatchIsTidy(records: seq<Record>, opportunities: seq<string>, q: Request, ds: seq<Detection>)
    requires AreTidy(records) && ReconcileAll(records, opportunities, q, ds).Batch?
    requires HaveDistinctIds(ReconcileAll(records, opportunities, q, ds).records)
    requires NoneNamesItself(ReconcileAll(records, opportunities, q, ds).records)
    ensures AreTidy(ReconcileAll(records, opportunities, q, ds).records)
    decreases |ds|
  {
    hide AreTidy, ReconcileRecord, AllGrow, HaveDistinctIds;
    if ds != [] {
      var front := ds[..|ds| - 1];
      var before := ReconcileAll(records, opportunities, q, front).records;
      ReconcileGrows(before, opportunities, q, ds[|ds| - 1]);
      GrownKeepsIdentity(before, ReconcileAll(records, opportunities, q, ds).records);
      BatchIsTidy(records, opportunities, q, front);
      ReconcileIsTidy(before, opportunities, q, ds[|ds| - 1]);
    }
  }

  lemma AcceptedIdentity(records: seq<Record>, tenantId: string, actions: seq<RA.Action>)
    requires IsAccepted(records, tenantId, actions)
    ensures HaveDistinctIds(records) && NoneNamesItself(records)
  {
    hide IsAccepted, HaveDistinctIds;
    if records != [] { AcceptedAt(records, tenantId, actions, 0); }
    forall k | 0 <= k < |records| ensures records[k].supersedes != Some(records[k].content.id) {
      NotItself(records, tenantId, actions, k);
    }
    NothingIsDistinct(records);
  }

  lemma NothingIsDistinct(records: seq<Record>)
    ensures records == [] ==> HaveDistinctIds(records)
  {
  }

  // ------------------------------------------------------------------ free runs

  /** The same acts, whatever their subjects, times and ids: refused calls leave the cases as they are. */
  ghost predicate FreeNext(w: World, tenantId: string, a: Act, v: World) {
    match a
    case AReconcile(q, d) =>
      && v.store == w.store
      && var r := Reconcile(w.cases, w.store.actions, Ids(w.store.opportunities), tenantId, q, d);
         v.cases == if r.Settled? then r.records else w.cases
    case AScan(q, ds) =>
      && v.store == w.store
      && var r := ReconcileBatch(w.cases, w.store.actions, Ids(w.store.opportunities), tenantId, q, ds);
         v.cases == if r.Batch? then r.records else w.cases
    case ATransition(q, id, to, reason, at, wakeAt) =>
      && v.store == w.store
      && var u := Transition(w.cases, w.store.actions, tenantId, q, id, to, reason, at, wakeAt);
         v.cases == if u.Updated? then u.records else w.cases
    case ALink(q, id, actionId, at) =>
      && v.store == w.store
      && var u := LinkAction(w.cases, w.store.actions, tenantId, q, id, actionId, at);
         v.cases == if u.Updated? then u.records else w.cases
    case AAction(e) =>
      v.cases == w.cases && RR.Next(w.store, e, v.store)
  }

  ghost predicate IsFreeRun(worlds: seq<World>, tenantId: string, acts: seq<Act>) {
    && |worlds| == |acts| + 1
    && worlds[0].cases == [] && RR.IsInitial(worlds[0].store)
    && forall k | 0 <= k < |acts| :: FreeNext(worlds[k], tenantId, acts[k], worlds[k + 1])
  }

  ghost predicate IsTidyWorld(w: World, tenantId: string) {
    IsAccepted(w.cases, tenantId, w.store.actions) && ActiveAreUnnamed(w.cases) && RI.Inv(w.store)
  }

  lemma ReconcileKeepsTidy(w: World, tenantId: string, q: Request, d: Detection)
    requires IsTidyWorld(w, tenantId)
    ensures var r := Reconcile(w.cases, w.store.actions, Ids(w.store.opportunities), tenantId, q, d);
            r.Settled? ==> IsAccepted(r.records, tenantId, w.store.actions) && AreTidy(r.records)
  {
    hide IsAccepted, NamedAreStored, ActiveAreUnnamed, ReconcileRecord, RI.Inv, HaveDistinctIds;
    AcceptedNamesStored(w.cases, tenantId, w.store.actions);
    assert AreTidy(w.cases);
    var r := Reconcile(w.cases, w.store.actions, Ids(w.store.opportunities), tenantId, q, d);
    if r.Settled? {
      AcceptedIdentity(r.records, tenantId, w.store.actions);
      ReconcileIsTidy(w.cases, Ids(w.store.opportunities), q, d);
    }
  }

  lemma BatchKeepsTidy(w: World, tenantId: string, q: Request, ds: seq<Detection>)
    requires IsTidyWorld(w, tenantId)
    ensures var r := ReconcileBatch(w.cases, w.store.actions, Ids(w.store.opportunities), tenantId, q, ds);
            r.Batch? ==> IsAccepted(r.records, tenantId, w.store.actions) && AreTidy(r.records)
  {
    hide IsAccepted, NamedAreStored, ActiveAreUnnamed, ReconcileAll, RI.Inv, HaveDistinctIds, AnyCreated;
    AcceptedNamesStored(w.cases, tenantId, w.store.actions);
    assert AreTidy(w.cases);
    var r := ReconcileBatch(w.cases, w.store.actions, Ids(w.store.opportunities), tenantId, q, ds);
    if r.Batch? && r.records != w.cases {
      AcceptedIdentity(r.records, tenantId, w.store.actions);
      BatchIsTidy(w.cases, Ids(w.store.opportunities), q, ds);
    }
  }

  lemma TransitionKeepsTidy(w: World, tenantId: string, q: Request, id: string, to: CaseState, reason: string,
                            at: int, wakeAt: int)
    requires IsTidyWorld(w, tenantId)
    ensures var u := Transition(w.cases, w.store.actions, tenantId, q, id, to, reason, at, wakeAt);
            u.Updated? ==> IsAccepted(u.records, tenantId, w.store.actions) && AreTidy(u.records)
  {
    hide IsAccepted, NamedAreStored, ActiveAreUnnamed, RI.Inv, FirstIndex, Transitioned;
    AcceptedNamesStored(w.cases, tenantId, w.store.actions);
    assert AreTidy(w.cases);
    var i := FirstIndex(w.cases, TenantCase(tenantId, id));
    if i.Some? && Transitioned(w.cases[i.value], to, reason, at, wakeAt, q.subjectId).Some? {
      TransitionedGrows(w.cases[i.value], to, reason, at, wakeAt, q.subjectId);
      TransitionedKeepsContent(w.cases[i.value], to, reason, at, wakeAt, q.subjectId);
      UpdateIsTidy(w.cases, i.value, Transitioned(w.cases[i.value], to, reason, at, wakeAt, q.subjectId).value);
    }
  }

  lemma LinkKeepsTidy(w: World, tenantId: string, q: Request, id: string, actionId: string, at: int)
    requires IsTidyWorld(w, tenantId)
    ensures var u := LinkAction(w.cases, w.store.actions, tenantId, q, id, actionId, at);
            u.Updated? ==> IsAccepted(u.records, tenantId, w.store.actions) && AreTidy(u.records)
  {
    hide IsAccepted, NamedAreStored, ActiveAreUnnamed, RI.Inv, FirstIndex, ActionReference, Trim;
    AcceptedNamesStored(w.cases, tenantId, w.store.actions);
    assert AreTidy(w.cases);
    var i := FirstIndex(w.cases, TenantCase(tenantId, id));
    if i.Some? && IsActive(w.cases[i.value].life.state) {
      var a := ActionReference(w.store.actions, Trim(actionId), w.cases[i.value].content.opportunityId);
      if a.Some? { UpdateIsTidy(w.cases, i.value, LinkedRecord(w.cases[i.value], a.value, at, q.subjectId)); }
    }
  }

  /** Every act keeps the collection accepted and its active cases unnamed, without any assumption on the act. */
  lemma FreeStepKeepsTidy(w: World, tenantId: string, a: Act, v: World)
    requires IsTidyWorld(w, tenantId) && FreeNext(w, tenantId, a, v)
    ensures IsTidyWorld(v, tenantId)
  {
    hide IsAccepted, NamedAreStored, ActiveAreUnnamed, RI.Inv, Reconcile, ReconcileBatch, Transition, LinkAction,
      RR.Next, RR.GoodStep;
    match a {
      case AReconcile(q, d) => ReconcileKeepsTidy(w, tenantId, q, d);
      case AScan(q, ds) => BatchKeepsTidy(w, tenantId, q, ds);
      case ATransition(q, id, to, reason, at, wakeAt) =>
        TransitionKeepsTidy(w, tenantId, q, id, to, reason, at, wakeAt);
      case ALink(q, id, actionId, at) => LinkKeepsTidy(w, tenantId, q, id, actionId, at);
      case AAction(e) =>
        RR.EveryStepIsGood(w.store, e, v.store);
        GoodStepKeepsInv(w.store, v.store);
        ActionStepsKeepAcceptance(w.cases, tenantId, w.store, v.store);
    }
  }

  lemma {:induction false} FreeRunsAreTidy(worlds: seq<World>, tenantId: string, acts: seq<Act>, k: nat)
    requires IsFreeRun(worlds, tenantId, acts) && k < |worlds|
    ensures IsTidyWorld(worlds[k], tenantId)
  {
    hide FreeNext;
    if k == 0 {
      InitialIsSound(worlds[0], tenantId);
      InvIsAccepted(worlds[0].cases, tenantId, worlds[0].store.actions);
    } else {
      FreeRunsAreTidy(worlds, tenantId, acts, k - 1);
      assert FreeNext(worlds[k - 1], tenantId, acts[k - 1], worlds[k]);
      FreeStepKeepsTidy(worlds[k - 1], tenantId, acts[k - 1], worlds[k]);
    }
  }

  /**
   * The write check of a new case in every store that any run reaches. With an active case it refuses exactly when
   * that case cannot log the subject and time; without one, exactly when the case that the sort puts first is
   * later or was superseded.
   */
  lemma ReachableCheckIsExact(worlds: seq<World>, tenantId: string, acts: seq<Act>, k: nat, q: Request, d: Detection)
    requires IsFreeRun(worlds, tenantId, acts) && k < |worlds|
    requires IsIssued(q) && q.tenantId == tenantId && IsReconcilable(worlds[k].cases, d)
    requires ReconcileRecord(worlds[k].cases, Ids(worlds[k].store.opportunities), q, d).Settled?
    requires ReconcileRecord(worlds[k].cases, Ids(worlds[k].store.opportunities), q, d).answer.created
    ensures var cases := worlds[k].cases;
            var r := ReconcileRecord(cases, Ids(worlds[k].store.opportunities), q, d);
            var active := FirstIndex(cases, ActiveInSeries(tenantId, d.content.seriesKey));
            var series := SeriesOf(cases, tenantId, d.content.seriesKey);
            IsAccepted(r.records, tenantId, worlds[k].store.actions) <==>
            if active.Some? then CanBeLogged(q.subjectId, d.content.detectedAt, cases[active.value].content.detectedAt)
            else series != [] ==>
              Newest(series).content.detectedAt <= d.content.detectedAt && Newest(series).life.state == DISMISSED
  {
    hide IsAccepted, ReconcileRecord, IsReconcilable, IsFreeRun, RI.Inv, CanBeLogged, IsNamed, Newest, Filter,
      FirstIndex, NamedAreStored, IsActive;
    FreeRunsAreTidy(worlds, tenantId, acts, k);
    ReconcileCheckIsExact(worlds[k].cases, Ids(worlds[k].store.opportunities), worlds[k].store.actions, tenantId, q, d);
  }
}

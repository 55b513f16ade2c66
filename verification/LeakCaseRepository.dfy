/** The JSON case repository: its methods over the stored collection, against the store operations. */
module LeakCaseRepository {
  import opened Text
  import opened Lists
  import RA = RevenueActions
  import opened LeakCases
  import opened LeakCaseValidation
  import opened LeakCaseStore
  import opened LeakCaseRuns

  class JsonRepository {
    const tenantId: string
    var cases: seq<Record>

    constructor (tenantId: string, cases: seq<Record>)
      ensures this.tenantId == tenantId && this.cases == cases
    {
      this.tenantId := tenantId;
      this.cases := cases;
    }

    /** One reconciliation on the working copy of a batch or of a single call. */
    method ReconcileOne(records: seq<Record>, opportunities: seq<string>, q: Request, d: Detection)
      returns (r: Reconciliation)
      ensures r == ReconcileRecord(records, opportunities, q, d)
    {
      hide NormalizeCommercialValue, Filter, FirstIndex, Newest;
      if NormalizeCommercialValue(d.content.value) != Some(d.content.value) {
        return Refused(INPUT_INVALID);
      }
      if d.content.opportunityId !in opportunities {
        return Refused(SOURCE_UNAVAILABLE);
      }
      var key := d.content.seriesKey;
      var series := SeriesOf(records, q.tenantId, key);
      var active := Filter(records, ActiveInSeries(q.tenantId, key));
      if |active| > 1 {
        return Refused(INTEGRITY_CONFLICT);
      }
      if active != [] && active[0].content.semanticKey == d.content.semanticKey {
        return Settled(records, Reconciled(active[0], false, true, false, None));
      }
      if active == [] && series != [] && Newest(series).content.semanticKey == d.content.semanticKey {
        return Settled(records, Reconciled(Newest(series), false, true, true, None));
      }
      var predecessor :=
        if active != [] then Some(active[0].content.id)
        else if series != [] then Some(Newest(series).content.id) else None;
      var next := RecordOf(d, q.tenantId, predecessor);
      var updated := records;
      var supersededId := None;
      if active != [] {
        var i := FirstIndex(records, ActiveInSeries(q.tenantId, key));
        if i.None? {
          return Refused(INTEGRITY_CONFLICT);
        }
        updated := updated[i.value := SupersededRecord(active[0], d, q.subjectId)];
        supersededId := Some(active[0].content.id);
      }
      return Settled(updated + [next], Reconciled(next, true, false, false, supersededId));
    }

    method Reconcile(q: Request, d: Detection, actions: seq<RA.Action>, opportunities: seq<string>)
      returns (r: Reconciliation)
      modifies `cases
      ensures r == LeakCaseStore.Reconcile(old(cases), actions, opportunities, tenantId, q, d)
      ensures cases == if r.Settled? then r.records else old(cases)
      ensures IsAccepted(old(cases), tenantId, actions) ==> IsAccepted(cases, tenantId, actions)
      ensures AllGrow(old(cases), cases)
    {
      hide AllGrow;
      AllGrowReflexive(cases);
      ReconcileGrown(cases, opportunities, q, d);
      hide IsAccepted, ReconcileRecord;
      if q.tenantId != tenantId {
        return Refused(SOURCE_UNAVAILABLE);
      }
      var readable := ValidateCaseCollection(cases, tenantId, actions);
      if !readable {
        return Refused(INTEGRITY_CONFLICT);
      }
      r := ReconcileOne(cases, opportunities, q, d);
      if r.Settled? {
        var writable := ValidateCaseCollection(r.records, tenantId, actions);
        if !writable {
          return Refused(INTEGRITY_CONFLICT);
        }
        cases := r.records;
      }
    }

    method ReconcileBatch(q: Request, ds: seq<Detection>, actions: seq<RA.Action>, opportunities: seq<string>)
      returns (r: BatchResult)
      modifies `cases
      ensures r == LeakCaseStore.ReconcileBatch(old(cases), actions, opportunities, tenantId, q, ds)
      ensures cases == if r.Batch? then r.records else old(cases)
      ensures IsAccepted(old(cases), tenantId, actions) ==> IsAccepted(cases, tenantId, actions)
      ensures AllGrow(old(cases), cases)
    {
      hide AllGrow;
      AllGrowReflexive(cases);
      BatchGrown(cases, opportunities, q, ds);
      hide IsAccepted, ReconcileRecord;
      if q.tenantId != tenantId {
        return BatchRefused(SOURCE_UNAVAILABLE);
      }
      var readable := ValidateCaseCollection(cases, tenantId, actions);
      if !readable {
        return BatchRefused(INTEGRITY_CONFLICT);
      }
      var records := cases;
      var answers: seq<Reconciled> := [];
      var created := false;
      var n := 0;
      while n < |ds|
        invariant 0 <= n <= |ds| && cases == old(cases)
        invariant ReconcileAll(cases, opportunities, q, ds[..n]) == Batch(records, answers)
        invariant created <==> AnyCreated(answers)
      {
        var one := ReconcileOne(records, opportunities, q, ds[n]);
        assert ds[..n + 1][..n] == ds[..n];
        if one.Refused? {
          RefusalEndsBatch(cases, opportunities, q, ds, n + 1);
          return BatchRefused(one.error);
        }
        ghost var before := answers;
        records, answers := one.records, answers + [one.answer];
        AnyCreatedAppend(before, one.answer);
        created := created || one.answer.created;
        n := n + 1;
      }
      assert ds[..n] == ds;
      if !created {
        return Batch(cases, answers);
      }
      var writable := ValidateCaseCollection(records, tenantId, actions);
      if !writable {
        return BatchRefused(INTEGRITY_CONFLICT);
      }
      cases := records;
      return Batch(records, answers);
    }

    method Transition(q: Request, id: string, to: CaseState, reason: string, at: int, wakeAt: int,
                      actions: seq<RA.Action>)
      returns (u: Update)
      modifies `cases
      ensures u == LeakCaseStore.Transition(old(cases), actions, tenantId, q, id, to, reason, at, wakeAt)
      ensures cases == if u.Updated? then u.records else old(cases)
      ensures IsAccepted(old(cases), tenantId, actions) ==> IsAccepted(cases, tenantId, actions)
      ensures AllGrow(old(cases), cases)
    {
      hide AllGrow;
      AllGrowReflexive(cases);
      TransitionGrown(cases, tenantId, id, to, reason, at, wakeAt, q.subjectId);
      hide IsAccepted, FirstIndex, Transitioned;
      if q.tenantId != tenantId {
        return NotFound;
      }
      var readable := ValidateCaseCollection(cases, tenantId, actions);
      if !readable {
        return Failed(INTEGRITY_CONFLICT);
      }
      var i := FirstIndex(cases, TenantCase(tenantId, id));
      if i.None? {
        return NotFound;
      }
      var updated := Transitioned(cases[i.value], to, reason, at, wakeAt, q.subjectId);
      if updated.None? {
        return Failed(TRANSITION_INVALID);
      }
      u := WriteCase(i.value, updated.value, actions);
    }

    method WriteCase(i: nat, r: Record, actions: seq<RA.Action>) returns (u: Update)
      requires i < |cases|
      modifies `cases
      ensures u == Written(old(cases), actions, tenantId, i, r)
      ensures cases == if u.Updated? then u.records else old(cases)
    {
      hide IsAccepted;
      var writable := ValidateCaseCollection(cases[i := r], tenantId, actions);
      if !writable {
        return Failed(INTEGRITY_CONFLICT);
      }
      cases := cases[i := r];
      return Updated(cases, r, false);
    }

    method LinkRevenueAction(q: Request, id: string, actionId: string, at: int, actions: seq<RA.Action>)
      returns (u: Update)
      modifies `cases
      ensures u == LinkAction(old(cases), actions, tenantId, q, id, actionId, at)
      ensures cases == if u.Updated? then u.records else old(cases)
      ensures IsAccepted(old(cases), tenantId, actions) ==> IsAccepted(cases, tenantId, actions)
      ensures AllGrow(old(cases), cases)
    {
      hide AllGrow;
      AllGrowReflexive(cases);
      LinkGrown(cases, tenantId, id, actions, actionId, at, q.subjectId);
      hide IsAccepted, FirstIndex, LinkedRecord, ActionReference;
      if q.tenantId != tenantId {
        return NotFound;
      }
      var readable := ValidateCaseCollection(cases, tenantId, actions);
      if !readable {
        return Failed(INTEGRITY_CONFLICT);
      }
      var i := FirstIndex(cases, TenantCase(tenantId, id));
      if i.None? {
        return NotFound;
      }
      var current := cases[i.value];
      if !IsActive(current.life.state) {
        return Failed(TRANSITION_INVALID);
      }
      var wanted := Trim(actionId);
      if current.life.actionId.Some? {
        if current.life.actionId.value == wanted {
          return Updated(cases, current, true);
        }
        return Failed(ACTION_LINK_CONFLICT);
      }
      var a := ActionReference(actions, wanted, current.content.opportunityId);
      if a.None? {
        return Failed(ACTION_UNAVAILABLE);
      }
      if at < a.value.createdAt {
        return Failed(INTEGRITY_CONFLICT);
      }
      u := WriteCase(i.value, LinkedRecord(current, a.value, at, q.subjectId), actions);
    }
  }

  lemma AnyCreatedAppend(answers: seq<Reconciled>, a: Reconciled)
    ensures AnyCreated(answers + [a]) <==> AnyCreated(answers) || a.created
  {
    if AnyCreated(answers) {
      var i :| 0 <= i < |answers| && answers[i].created;
      assert (answers + [a])[i].created;
    }
    if a.created {
      assert (answers + [a])[|answers|].created;
    }
  }

  lemma {:induction false} RefusalEndsBatch(records: seq<Record>, opportunities: seq<string>, q: Request,
                                            ds: seq<Detection>, n: nat)
    requires n <= |ds| && ReconcileAll(records, opportunities, q, ds[..n]).BatchRefused?
    ensures ReconcileAll(records, opportunities, q, ds) == ReconcileAll(records, opportunities, q, ds[..n])
    decreases |ds|
  {
    hide ReconcileRecord;
    if n == |ds| {
      assert ds[..n] == ds;
    } else {
      var front := ds[..|ds| - 1];
      assert front[..n] == ds[..n];
      RefusalEndsBatch(records, opportunities, q, front, n);
    }
  }

  // ------------------------------------------------------------------ cases only grow

  lemma ReconcileGrown(records: seq<Record>, opportunities: seq<string>, q: Request, d: Detection)
    ensures var r := ReconcileRecord(records, opportunities, q, d); r.Settled? ==> AllGrow(records, r.records)
  {
    hide ReconcileRecord, AllGrow;
    if ReconcileRecord(records, opportunities, q, d).Settled? { ReconcileGrows(records, opportunities, q, d); }
  }

  lemma {:induction false} BatchGrown(records: seq<Record>, opportunities: seq<string>, q: Request, ds: seq<Detection>)
    ensures var r := ReconcileAll(records, opportunities, q, ds); r.Batch? ==> AllGrow(records, r.records)
    decreases |ds|
  {
    hide ReconcileRecord, AllGrow;
    AllGrowReflexive(records);
    if ds != [] {
      var front := ds[..|ds| - 1];
      BatchGrown(records, opportunities, q, front);
      var before := ReconcileAll(records, opportunities, q, front);
      if before.Batch? {
        ReconcileGrown(before.records, opportunities, q, ds[|ds| - 1]);
        var r := ReconcileRecord(before.records, opportunities, q, ds[|ds| - 1]);
        if r.Settled? { AllGrowTransitive(records, before.records, r.records); }
      }
    }
  }

  lemma TransitionGrown(records: seq<Record>, tenantId: string, id: string, to: CaseState, reason: string, at: int,
                        wakeAt: int, subjectId: string)
    ensures var i := FirstIndex(records, TenantCase(tenantId, id));
            i.Some? && Transitioned(records[i.value], to, reason, at, wakeAt, subjectId).Some? ==>
              var r := Transitioned(records[i.value], to, reason, at, wakeAt, subjectId).value;
              AllGrow(records, records[i.value := r])
  {
    hide FirstIndex, Transitioned, AllGrow, Grows;
    var i := FirstIndex(records, TenantCase(tenantId, id));
    if i.Some? && Transitioned(records[i.value], to, reason, at, wakeAt, subjectId).Some? {
      TransitionedGrows(records[i.value], to, reason, at, wakeAt, subjectId);
      OneGrows(records, i.value, Transitioned(records[i.value], to, reason, at, wakeAt, subjectId).value);
    }
  }

  lemma LinkGrown(records: seq<Record>, tenantId: string, id: string, actions: seq<RA.Action>, actionId: string,
                  at: int, subjectId: string)
    ensures var i := FirstIndex(records, TenantCase(tenantId, id));
            i.Some? && IsActive(records[i.value].life.state) && records[i.value].life.actionId.None? ==>
              var a := ActionReference(actions, Trim(actionId), records[i.value].content.opportunityId);
              a.Some? ==> AllGrow(records, records[i.value := LinkedRecord(records[i.value], a.value, at, subjectId)])
  {
    hide FirstIndex, ActionReference, AllGrow, Grows, LinkedRecord, IsActive, Trim;
    var i := FirstIndex(records, TenantCase(tenantId, id));
    if i.Some? && IsActive(records[i.value].life.state) && records[i.value].life.actionId.None? {
      var a := ActionReference(actions, Trim(actionId), records[i.value].content.opportunityId);
      if a.Some? {
        LinkedGrows(records[i.value], a.value, at, subjectId);
        OneGrows(records, i.value, LinkedRecord(records[i.value], a.value, at, subjectId));
      }
    }
  }
}

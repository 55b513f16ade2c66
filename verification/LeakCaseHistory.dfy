/** What every run of the case store remembers: logs only grow, and series are linear chains. */
module LeakCaseHistory {
  import opened Text
  import opened Lists
  import RA = RevenueActions
  import RI = RevenueActionInvariant
  import RR = RevenueActionRuns
  import opened LeakCases
  import opened LeakCaseStore
  import opened LeakCaseRepository
  import opened LeakCaseInvariant
  import opened LeakCaseSteps
  import opened LeakCaseReconcile
  import opened LeakCaseRuns
  import opened LeakCaseAcceptance
  import opened LeakCaseTheorems
  import opened LeakCaseFreeRuns

  // ------------------------------------------------------------------ event sourcing

  /** Any act, granted or refused, lets cases only grow. */
  lemma FreeStepGrows(w: World, tenantId: string, a: Act, v: World)
    requires FreeNext(w, tenantId, a, v)
    ensures AllGrow(w.cases, v.cases)
  {
    hide IsAccepted, AllGrow, ReconcileRecord, ReconcileAll, FirstIndex, Transitioned, ActionReference, IsActive,
      Trim, LinkedRecord, RR.Next, AnyCreated;
    AllGrowReflexive(w.cases);
    match a {
      case AReconcile(q, d) => ReconcileGrown(w.cases, Ids(w.store.opportunities), q, d);
      case AScan(q, ds) => BatchGrown(w.cases, Ids(w.store.opportunities), q, ds);
      case ATransition(q, id, to, reason, at, wakeAt) =>
        TransitionGrown(w.cases, tenantId, id, to, reason, at, wakeAt, q.subjectId);
      case ALink(q, id, actionId, at) => LinkGrown(w.cases, tenantId, id, w.store.actions, actionId, at, q.subjectId);
      case AAction(_) =>
    }
  }

  /**
   * Event sourcing: between any two moments of a run, whatever its acts, every case keeps its content and its log as
   * a prefix, is unchanged once terminal and keeps its link; and its lifecycle fields are the replay of its log.
   */
  lemma {:induction false} LogsOnlyGrow(worlds: seq<World>, tenantId: string, acts: seq<Act>, j: nat, k: nat)
    requires IsFreeRun(worlds, tenantId, acts) && j <= k < |worlds|
    ensures AllGrow(worlds[j].cases, worlds[k].cases)
    ensures forall i | 0 <= i < |worlds[k].cases| ::
              Replay(worlds[k].cases[i].audit, worlds[k].cases[i].content) == Some(worlds[k].cases[i].life)
    decreases k
  {
    hide FreeNext, AllGrow, Replay, IsRebuilt, RI.Inv, RR.IsInitial, IsAccepted, ActiveAreUnnamed;
    FreeRunsAreTidy(worlds, tenantId, acts, k);
    forall i | 0 <= i < |worlds[k].cases|
      ensures Replay(worlds[k].cases[i].audit, worlds[k].cases[i].content) == Some(worlds[k].cases[i].life)
    {
      AcceptedAt(worlds[k].cases, tenantId, worlds[k].store.actions, i);
    }
    if j == k {
      AllGrowReflexive(worlds[j].cases);
    } else {
      LogsOnlyGrow(worlds, tenantId, acts, j, k - 1);
      assert FreeNext(worlds[k - 1], tenantId, acts[k - 1], worlds[k - 1 + 1]);
      FreeStepGrows(worlds[k - 1], tenantId, acts[k - 1], worlds[k]);
      AllGrowTransitive(worlds[j].cases, worlds[k - 1].cases, worlds[k].cases);
    }
  }

  // ------------------------------------------------------------------ series

  predicate HaveDistinctTimes(series: seq<Record>) {
    forall j, k | 0 <= j < k < |series| :: series[j].content.detectedAt != series[k].content.detectedAt
  }

  /** One chain in the order of the detection times. */
  predicate IsLinear(series: seq<Record>) {
    IsChain(series) && HasIncreasingTimes(series)
  }

  /** No case is older than the one that it names. */
  predicate PredecessorsAreEarlier(records: seq<Record>) {
    forall j, k | 0 <= j < |records| && 0 <= k < |records| && records[k].supersedes == Some(records[j].content.id) ::
      records[j].content.detectedAt <= records[k].content.detectedAt
  }

  lemma AcceptedPredecessors(records: seq<Record>, tenantId: string, actions: seq<RA.Action>)
    requires IsAccepted(records, tenantId, actions)
    ensures PredecessorsAreEarlier(records)
  {
    hide IsAccepted, IsPersisted, LinkIsValid, ReplacementIsValid, HaveDistinctIds, FirstIndex;
    forall j, k | 0 <= j < |records| && 0 <= k < |records| && records[k].supersedes == Some(records[j].content.id)
      ensures records[j].content.detectedAt <= records[k].content.detectedAt
    {
      AcceptedAt(records, tenantId, actions, k);
      IndexOfStored(records, tenantId, actions, j);
    }
  }

  /** Grown cases have the contents and predecessors they had. */
  lemma EarlierStore(before: seq<Record>, after: seq<Record>)
    requires AllGrow(before, after) && PredecessorsAreEarlier(after) && HaveDistinctIds(after)
    ensures PredecessorsAreEarlier(before) && HaveDistinctIds(before)
  {
    assert forall k | 0 <= k < |before| ::
        before[k].content == after[k].content && before[k].supersedes == after[k].supersedes;
  }

  /** A series of grown cases starts with the cases it had. */
  lemma {:induction false} SeriesOfGrown(before: seq<Record>, after: seq<Record>, tenantId: string, key: SeriesKey)
    requires AllGrow(before, after) && |before| == |after|
    ensures var a := SeriesOf(before, tenantId, key); var b := SeriesOf(after, tenantId, key);
            |a| == |b| && forall n | 0 <= n < |a| :: b[n].content == a[n].content
  {
    if before != [] {
      var n := |before| - 1;
      assert Grows(before[n], after[n]);
      assert AllGrow(before[..n], after[..n]) by {
        forall k | 0 <= k < n ensures Grows(before[..n][k], after[..n][k]) { assert Grows(before[k], after[k]); }
      }
      SeriesOfGrown(before[..n], after[..n], tenantId, key);
    }
  }

  lemma DistinctTimesBefore(before: seq<Record>, after: seq<Record>, tenantId: string, key: SeriesKey)
    requires AllGrow(before, after) && HaveDistinctTimes(SeriesOf(after, tenantId, key))
    ensures HaveDistinctTimes(SeriesOf(before, tenantId, key))
  {
    hide Filter, Grows;
    var front, rest := after[..|before|], after[|before|..];
    assert after == front + rest && AllGrow(before, front);
    FilterConcat(front, rest, InSeries(tenantId, key));
    SeriesOfGrown(before, front, tenantId, key);
    var a, b := SeriesOf(before, tenantId, key), SeriesOf(after, tenantId, key);
    assert forall n | 0 <= n < |a| :: b[n].content == a[n].content;
  }

  // ------------------------------------------------------------------ one case of a chain changed

  /** An active case is the last of a chain, and of its series in the collection. */
  lemma ActiveEndsSeries(records: seq<Record>, tenantId: string, key: SeriesKey, i: nat)
    requires IsChain(SeriesOf(records, tenantId, key)) && i < |records|
    requires InSeries(tenantId, key)(records[i]) && IsActive(records[i].life.state)
    ensures SeriesOf(records, tenantId, key) == SeriesOf(records[..i], tenantId, key) + [records[i]]
    ensures forall r: Record | InSeries(tenantId, key)(r) ::
              SeriesOf(records[i := r], tenantId, key) == SeriesOf(records[..i], tenantId, key) + [r]
  {
    hide Filter, IsActive;
    var p := InSeries(tenantId, key);
    forall j | i < j < |records| ensures !p(records[j]) {
      if p(records[j]) {
        var a, b := FilterKeepsOrder(records, p, i, j);
        OlderIsTerminal(SeriesOf(records, tenantId, key), a);
        assert false;
      }
    }
    forall r: Record | p(r)
      ensures SeriesOf(records[i := r], tenantId, key) == SeriesOf(records[..i], tenantId, key) + [r]
    {
      FilterReplaceLast(records, i, r, p);
    }
    FilterReplaceLast(records, i, records[i], p);
  }

  /** Moving or linking an active case keeps every chain and its times. */
  lemma UpdateKeepsLinear(records: seq<Record>, tenantId: string, key: SeriesKey, i: nat, r: Record)
    requires IsLinear(SeriesOf(records, tenantId, key)) && i < |records| && IsActive(records[i].life.state)
    requires r.content == records[i].content && r.tenantId == records[i].tenantId
    requires r.supersedes == records[i].supersedes && r.life.state != SUPERSEDED
    ensures IsLinear(SeriesOf(records[i := r], tenantId, key))
  {
    hide Filter, IsChain, HasIncreasingTimes, IsActive;
    if InSeries(tenantId, key)(records[i]) {
      ActiveEndsSeries(records, tenantId, key, i);
      ChainEndReplaced(SeriesOf(records[..i], tenantId, key), records[i], r);
      TimesEndReplaced(SeriesOf(records[..i], tenantId, key), records[i], r);
    } else {
      FilterReplaceSame(records, i, r, InSeries(tenantId, key));
    }
  }

  lemma TimesAtEnd(series: seq<Record>, next: Record)
    requires HasIncreasingTimes(series) && HaveDistinctTimes(series + [next])
    requires series != [] ==> series[|series| - 1].content.detectedAt <= next.content.detectedAt
    ensures HasIncreasingTimes(series + [next])
  {
    var all := series + [next];
    forall j, k | 0 <= j < k < |all| ensures all[j].content.detectedAt < all[k].content.detectedAt {
      if k == |series| {
        assert all[j].content.detectedAt != all[k].content.detectedAt;
        if j < |series| - 1 { assert series[j].content.detectedAt < series[|series| - 1].content.detectedAt; }
      }
    }
  }

  // ------------------------------------------------------------------ one reconciliation

  /** The active case of a linear series superseded. */
  lemma SuccessionKeepsLinear(records: seq<Record>, tenantId: string, q: Request, d: Detection, i: nat)
    requires IsLinear(SeriesOf(records, tenantId, d.content.seriesKey)) && i < |records| && q.tenantId == tenantId
    requires ActiveInSeries(tenantId, d.content.seriesKey)(records[i])
    requires var after := records[i := SupersededRecord(records[i], d, q.subjectId)]
                          + [RecordOf(d, tenantId, Some(records[i].content.id))];
             PredecessorsAreEarlier(after) && HaveDistinctTimes(SeriesOf(after, tenantId, d.content.seriesKey))
    ensures IsLinear(SeriesOf(records[i := SupersededRecord(records[i], d, q.subjectId)]
                              + [RecordOf(d, tenantId, Some(records[i].content.id))], tenantId, d.content.seriesKey))
  {
    hide Filter, IsChain, HasIncreasingTimes, HaveDistinctTimes;
    var key := d.content.seriesKey;
    var r := records[i];
    var sup := SupersededRecord(r, d, q.subjectId);
    var next := RecordOf(d, tenantId, Some(r.content.id));
    var updated := records[i := sup];
    var after := updated + [next];
    var pre := SeriesOf(records[..i], tenantId, key);
    ActiveEndsSeries(records, tenantId, key, i);
    assert InSeries(tenantId, key)(sup) && SeriesOf(updated, tenantId, key) == pre + [sup];
    FilterAppend(updated, next, InSeries(tenantId, key));
    assert after[i] == sup && after[|records|] == next && sup.content.detectedAt <= next.content.detectedAt;
    ChainThenSuccessor(pre, r, sup, next);
    TimesEndReplaced(pre, r, sup);
    TimesAtEnd(pre + [sup], next);
  }

  /** A linear series without active case continued. */
  lemma RestartKeepsLinear(records: seq<Record>, tenantId: string, d: Detection, supersedes: Option<string>)
    requires var series := SeriesOf(records, tenantId, d.content.seriesKey);
             && IsLinear(series)
             && supersedes == if series == [] then None else Some(Newest(series).content.id)
    requires FirstIndex(records, ActiveInSeries(tenantId, d.content.seriesKey)).None?
    requires var after := records + [RecordOf(d, tenantId, supersedes)];
             PredecessorsAreEarlier(after) && HaveDistinctTimes(SeriesOf(after, tenantId, d.content.seriesKey))
    ensures IsLinear(SeriesOf(records + [RecordOf(d, tenantId, supersedes)], tenantId, d.content.seriesKey))
  {
    hide Filter, FirstIndex, HasIncreasingTimes, HaveDistinctTimes, Newest;
    var key := d.content.seriesKey;
    var series := SeriesOf(records, tenantId, key);
    var next := RecordOf(d, tenantId, supersedes);
    var after := records + [next];
    FilterAppend(records, next, InSeries(tenantId, key));
    if series == [] {
      ChainRoot(next);
      assert [] + [next] == [next];
    } else {
      var j := RecordOfPlace(records, tenantId, key, |series| - 1);
      NewestIsLast(series);
      assert after[j] == series[|series| - 1] && after[|records|] == next;
      assert !ActiveInSeries(tenantId, key)(records[j]);
      ChainGrows(series, next);
    }
    TimesAtEnd(series, next);
  }

  /** What a reconciliation makes of a linear series, as long as no case turns out older than the one that it names. */
  lemma ReconcileKeepsLinear(records: seq<Record>, opportunities: seq<string>, tenantId: string, q: Request,
                             d: Detection, key: SeriesKey)
    requires q.tenantId == tenantId && ReconcileRecord(records, opportunities, q, d).Settled?
    requires IsLinear(SeriesOf(records, tenantId, key))
    requires var after := ReconcileRecord(records, opportunities, q, d).records;
             PredecessorsAreEarlier(after) && HaveDistinctTimes(SeriesOf(after, tenantId, key))
    ensures IsLinear(SeriesOf(ReconcileRecord(records, opportunities, q, d).records, tenantId, key))
  {
    hide Filter, FirstIndex, IsLinear, HaveDistinctTimes, PredecessorsAreEarlier, NormalizeCommercialValue, Newest,
      SupersededRecord;
    if key != d.content.seriesKey {
      OtherFiltersStay(records, opportunities, q, d, InSeries(tenantId, key));
    } else {
      var i := FirstIndex(records, ActiveInSeries(tenantId, key));
      var r := ReconcileRecord(records, opportunities, q, d);
      FirstIsFirstOfFilter(records, ActiveInSeries(tenantId, key));
      if r.answer.created && i.Some? {
        SuccessionKeepsLinear(records, tenantId, q, d, i.value);
      } else if r.answer.created {
        RestartKeepsLinear(records, tenantId, d, r.answer.record.supersedes);
      }
    }
  }

  /** The same for a batch, of which only the end is known to be in order. */
  lemma {:induction false} BatchKeepsLinear(records: seq<Record>, opportunities: seq<string>, tenantId: string,
                                            q: Request, ds: seq<Detection>, key: SeriesKey)
    requires q.tenantId == tenantId && ReconcileAll(records, opportunities, q, ds).Batch?
    requires IsLinear(SeriesOf(records, tenantId, key))
    requires var after := ReconcileAll(records, opportunities, q, ds).records;
             && PredecessorsAreEarlier(after) && HaveDistinctIds(after)
             && HaveDistinctTimes(SeriesOf(after, tenantId, key))
    ensures IsLinear(SeriesOf(ReconcileAll(records, opportunities, q, ds).records, tenantId, key))
    decreases |ds|
  {
    hide ReconcileRecord, SeriesOf, IsLinear, HaveDistinctTimes, PredecessorsAreEarlier, HaveDistinctIds, AllGrow;
    if ds != [] {
      var n := |ds| - 1;
      var before := ReconcileAll(records, opportunities, q, ds[..n]).records;
      var after := ReconcileAll(records, opportunities, q, ds).records;
      ReconcileGrows(before, opportunities, q, ds[n]);
      EarlierStore(before, after);
      DistinctTimesBefore(before, after, tenantId, key);
      BatchKeepsLinear(records, opportunities, tenantId, q, ds[..n], key);
      ReconcileKeepsLinear(before, opportunities, tenantId, q, ds[n], key);
    }
  }

  // ------------------------------------------------------------------ linear supersession over all runs

  lemma TransitionKeepsLinear(w: World, tenantId: string, q: Request, id: string, to: CaseState, reason: string,
                              at: int, wakeAt: int, key: SeriesKey)
    requires IsLinear(SeriesOf(w.cases, tenantId, key))
    ensures var u := Transition(w.cases, w.store.actions, tenantId, q, id, to, reason, at, wakeAt);
            u.Updated? ==> IsLinear(SeriesOf(u.records, tenantId, key))
  {
    hide IsAccepted, FirstIndex, IsLinear, SeriesOf, NonEmpty;
    var i := FirstIndex(w.cases, TenantCase(tenantId, id));
    if i.Some? && Transitioned(w.cases[i.value], to, reason, at, wakeAt, q.subjectId).Some? {
      UpdateKeepsLinear(w.cases, tenantId, key, i.value,
        Transitioned(w.cases[i.value], to, reason, at, wakeAt, q.subjectId).value);
    }
  }

  lemma LinkKeepsLinear(w: World, tenantId: string, q: Request, id: string, actionId: string, at: int, key: SeriesKey)
    requires IsLinear(SeriesOf(w.cases, tenantId, key))
    ensures var u := LinkAction(w.cases, w.store.actions, tenantId, q, id, actionId, at);
            u.Updated? ==> IsLinear(SeriesOf(u.records, tenantId, key))
  {
    hide IsAccepted, FirstIndex, IsLinear, SeriesOf, ActionReference, Trim;
    var i := FirstIndex(w.cases, TenantCase(tenantId, id));
    if i.Some? && IsActive(w.cases[i.value].life.state) {
      var a := ActionReference(w.store.actions, Trim(actionId), w.cases[i.value].content.opportunityId);
      if a.Some? {
        UpdateKeepsLinear(w.cases, tenantId, key, i.value, LinkedRecord(w.cases[i.value], a.value, at, q.subjectId));
      }
    }
  }

  lemma FreeStepKeepsLinear(w: World, tenantId: string, a: Act, v: World, key: SeriesKey)
    requires IsTidyWorld(w, tenantId) && IsTidyWorld(v, tenantId) && FreeNext(w, tenantId, a, v)
    requires IsLinear(SeriesOf(w.cases, tenantId, key)) && HaveDistinctTimes(SeriesOf(v.cases, tenantId, key))
    ensures IsLinear(SeriesOf(v.cases, tenantId, key))
  {
    hide IsAccepted, ActiveAreUnnamed, RI.Inv, ReconcileRecord, ReconcileAll, Transition, LinkAction, RR.Next,
      SeriesOf, IsLinear, HaveDistinctTimes, PredecessorsAreEarlier, HaveDistinctIds, NoneNamesItself, AnyCreated;
    AcceptedPredecessors(v.cases, tenantId, v.store.actions);
    AcceptedIdentity(v.cases, tenantId, v.store.actions);
    match a {
      case AReconcile(q, d) =>
        if v.cases != w.cases { ReconcileKeepsLinear(w.cases, Ids(w.store.opportunities), tenantId, q, d, key); }
      case AScan(q, ds) =>
        if v.cases != w.cases { BatchKeepsLinear(w.cases, Ids(w.store.opportunities), tenantId, q, ds, key); }
      case ATransition(q, id, to, reason, at, wakeAt) =>
        TransitionKeepsLinear(w, tenantId, q, id, to, reason, at, wakeAt, key);
      case ALink(q, id, actionId, at) => LinkKeepsLinear(w, tenantId, q, id, actionId, at, key);
      case AAction(_) =>
    }
  }

  lemma {:induction false} FreeRunsAreLinear(worlds: seq<World>, tenantId: string, acts: seq<Act>, k: nat,
                                             key: SeriesKey)
    requires IsFreeRun(worlds, tenantId, acts) && k < |worlds|
    requires HaveDistinctTimes(SeriesOf(worlds[k].cases, tenantId, key))
    ensures IsLinear(SeriesOf(worlds[k].cases, tenantId, key))
  {
    hide FreeNext, IsTidyWorld, HaveDistinctTimes, AllGrow, RR.IsInitial;
    if k > 0 {
      assert FreeNext(worlds[k - 1], tenantId, acts[k - 1], worlds[k - 1 + 1]);
      FreeStepGrows(worlds[k - 1], tenantId, acts[k - 1], worlds[k]);
      DistinctTimesBefore(worlds[k - 1].cases, worlds[k].cases, tenantId, key);
      FreeRunsAreLinear(worlds, tenantId, acts, k - 1, key);
      FreeRunsAreTidy(worlds, tenantId, acts, k - 1);
      FreeRunsAreTidy(worlds, tenantId, acts, k);
      FreeStepKeepsLinear(worlds[k - 1], tenantId, acts[k - 1], worlds[k], key);
    }
  }

  /**
   * Linear supersession: in every store that any run reaches, a series whose cases were all detected at different
   * times is one chain. In the order in which they were stored the times increase; the first case supersedes none,
   * every other one supersedes its neighbour; all but the newest are dismissed, or superseded by their successor.
   */
  lemma SeriesAreLinear(worlds: seq<World>, tenantId: string, acts: seq<Act>, k: nat, key: SeriesKey, n: nat)
    requires IsFreeRun(worlds, tenantId, acts) && k < |worlds|
    requires HaveDistinctTimes(SeriesOf(worlds[k].cases, tenantId, key))
    requires n < |SeriesOf(worlds[k].cases, tenantId, key)|
    ensures var series := SeriesOf(worlds[k].cases, tenantId, key);
            && (n == 0 ==> series[n].supersedes.None?)
            && (n > 0 ==>
                  && series[n - 1].content.detectedAt < series[n].content.detectedAt
                  && series[n].supersedes == Some(series[n - 1].content.id)
                  && !IsActive(series[n - 1].life.state)
                  && (series[n - 1].life.state == SUPERSEDED ==>
                        series[n - 1].life.supersededBy == Some(series[n].content.id)))
            && (n == |series| - 1 ==> series[n].life.state != SUPERSEDED)
  {
    hide IsFreeRun, SeriesOf, HaveDistinctTimes;
    FreeRunsAreLinear(worlds, tenantId, acts, k, key);
    var series := SeriesOf(worlds[k].cases, tenantId, key);
    if n > 0 { assert Follows(series[n - 1], series[n]); }
  }
}

/** What the case store may change: cases grow, times increase, links survive. */
module LeakCaseRuns {
  import opened Text
  import opened Lists
  import RA = RevenueActions
  import RI = RevenueActionInvariant
  import RR = RevenueActionRuns
  import opened LeakCases
  import opened LeakCaseRebuild
  import opened LeakCaseStore
  import opened LeakCaseInvariant
  import opened LeakCaseSteps
  import opened LeakCaseReconcile

  // ------------------------------------------------------------------ what an operation may change

  predicate IsTerminal(state: CaseState) {
    state == DISMISSED || state == SUPERSEDED
  }

  /** A case keeps its content, only gains log entries, is frozen once terminal and keeps its first link. */
  predicate Grows(a: Record, b: Record) {
    && b.content == a.content && b.tenantId == a.tenantId && b.supersedes == a.supersedes
    && a.audit <= b.audit
    && (IsTerminal(a.life.state) ==> b == a)
    && (a.life.actionId.Some? ==>
          b.life.actionId == a.life.actionId && b.life.fingerprint == a.life.fingerprint
          && b.life.linkedAt == a.life.linkedAt && b.life.statusAtLink == a.life.statusAtLink)
  }

  predicate AllGrow(before: seq<Record>, after: seq<Record>) {
    |before| <= |after| && forall k | 0 <= k < |before| :: Grows(before[k], after[k])
  }

  lemma AllGrowTransitive(a: seq<Record>, b: seq<Record>, c: seq<Record>)
    requires AllGrow(a, b) && AllGrow(b, c)
    ensures AllGrow(a, c)
  {
    forall k | 0 <= k < |a| ensures Grows(a[k], c[k]) {
      assert Grows(a[k], b[k]) && Grows(b[k], c[k]);
    }
  }

  lemma OneGrows(cases: seq<Record>, i: nat, r: Record)
    requires i < |cases| && Grows(cases[i], r)
    ensures AllGrow(cases, cases[i := r])
  {
    hide Grows;
    forall k | 0 <= k < |cases| ensures Grows(cases[k], cases[i := r][k]) {
      if k != i { GrowsReflexive(cases[k]); }
    }
  }

  lemma GrowsReflexive(r: Record)
    ensures Grows(r, r)
  {
  }

  lemma TransitionedGrows(r: Record, to: CaseState, reason: string, at: int, wakeAt: int, subjectId: string)
    requires Transitioned(r, to, reason, at, wakeAt, subjectId).Some?
    ensures Grows(r, Transitioned(r, to, reason, at, wakeAt, subjectId).value)
  {
    hide NonEmpty;
  }

  lemma LinkedGrows(r: Record, a: RA.Action, at: int, subjectId: string)
    requires IsActive(r.life.state) && r.life.actionId.None?
    ensures Grows(r, LinkedRecord(r, a, at, subjectId))
  {
  }

  lemma SupersededGrows(r: Record, d: Detection, subjectId: string)
    requires IsActive(r.life.state)
    ensures Grows(r, SupersededRecord(r, d, subjectId))
  {
  }

  lemma ReconcileGrows(records: seq<Record>, opportunities: seq<string>, q: Request, d: Detection)
    requires ReconcileRecord(records, opportunities, q, d).Settled?
    ensures AllGrow(records, ReconcileRecord(records, opportunities, q, d).records)
  {
    hide NormalizeCommercialValue, Filter, FirstIndex, Newest, SupersededRecord, RecordOf;
    var p := ActiveInSeries(q.tenantId, d.content.seriesKey);
    var i := FirstIndex(records, p);
    if i.Some? {
      FirstIsFirstOfFilter(records, p);
      assert p(records[i.value]);
      SupersededGrows(records[i.value], d, q.subjectId);
    }
  }

  /** Filters that see only cases of another series see the same cases after a reconciliation. */
  lemma OtherFiltersStay(records: seq<Record>, opportunities: seq<string>, q: Request, d: Detection, p: Record -> bool)
    requires ReconcileRecord(records, opportunities, q, d).Settled?
    requires forall r: Record | r.content.seriesKey == d.content.seriesKey :: !p(r)
    ensures Filter(ReconcileRecord(records, opportunities, q, d).records, p) == Filter(records, p)
  {
    hide Filter, FirstIndex, NormalizeCommercialValue, Newest;
    var own := ActiveInSeries(q.tenantId, d.content.seriesKey);
    var i := FirstIndex(records, own);
    var r := ReconcileRecord(records, opportunities, q, d);
    FirstIsFirstOfFilter(records, own);
    if r.answer.created {
      var front := r.records[..|records|];
      assert r.records == front + [r.answer.record];
      FilterAppend(front, r.answer.record, p);
      if i.Some? {
        FilterReplaceSame(records, i.value, SupersededRecord(records[i.value], d, q.subjectId), p);
      }
    }
  }

  // ------------------------------------------------------------------ strictly later detections

  /** The detection is newer than every case of its series. */
  predicate IsLater(records: seq<Record>, tenantId: string, d: Detection) {
    var series := SeriesOf(records, tenantId, d.content.seriesKey);
    series != [] ==> Newest(series).content.detectedAt < d.content.detectedAt
  }

  /** How a created case changes the series: its own one grows by it, the others are as they were. */
  lemma SeriesAfterReconcile(records: seq<Record>, opportunities: seq<string>, actions: seq<RA.Action>,
                             tenantId: string, q: Request, d: Detection)
    requires CaseInv(records, tenantId, actions) && q.tenantId == tenantId
    requires ReconcileRecord(records, opportunities, q, d).Settled?
    requires ReconcileRecord(records, opportunities, q, d).answer.created
    ensures var key := d.content.seriesKey; var r := ReconcileRecord(records, opportunities, q, d);
            var series := SeriesOf(records, tenantId, key); var after := SeriesOf(r.records, tenantId, key);
            && |after| == |series| + 1 && after[|series|].content == d.content
            && (forall k | 0 <= k < |series| :: after[k].content == series[k].content)
            && forall other: SeriesKey | other != key ::
                 SeriesOf(r.records, tenantId, other) == SeriesOf(records, tenantId, other)
  {
    hide NormalizeCommercialValue, Filter, FirstIndex, Newest, CaseInv;
    var key := d.content.seriesKey;
    var r := ReconcileRecord(records, opportunities, q, d);
    var p := ActiveInSeries(tenantId, key);
    var i := FirstIndex(records, p);
    ActiveOfSeries(records, tenantId, actions, key);
    var updated := r.records[..|records|];
    var next := r.records[|records|];
    assert r.records == updated + [next];
    if i.Some? {
      SeriesAfterReplace(records, tenantId, actions, i.value, updated[i.value]);
    }
    FilterAppend(updated, next, InSeries(tenantId, key));
    forall other: SeriesKey | other != key
      ensures SeriesOf(r.records, tenantId, other) == SeriesOf(records, tenantId, other)
    {
      FilterAppend(updated, next, InSeries(tenantId, other));
    }
  }

  lemma LaterKeepsTimes(records: seq<Record>, opportunities: seq<string>, actions: seq<RA.Action>, tenantId: string,
                        q: Request, d: Detection)
    requires CaseInv(records, tenantId, actions) && TimesIncrease(records, tenantId) && q.tenantId == tenantId
    requires ReconcileRecord(records, opportunities, q, d).Settled? && IsLater(records, tenantId, d)
    ensures TimesIncrease(ReconcileRecord(records, opportunities, q, d).records, tenantId)
  {
    hide ReconcileRecord, SeriesOf, CaseInv, Newest;
    var r := ReconcileRecord(records, opportunities, q, d);
    UncreatedKeepsRecords(records, opportunities, q, d);
    if r.answer.created {
      SeriesAfterReconcile(records, opportunities, actions, tenantId, q, d);
      var after := r.records;
      var key := d.content.seriesKey;
      forall other: SeriesKey ensures HasIncreasingTimes(SeriesOf(after, tenantId, other)) {
        assert HasIncreasingTimes(SeriesOf(records, tenantId, other));
        if other == key {
          var series := SeriesOf(records, tenantId, key);
          if series != [] { NewestIsLast(series); }
          TimesGrow(series, SeriesOf(after, tenantId, key));
        }
      }
    }
  }

  lemma TimesGrow(s: seq<Record>, t: seq<Record>)
    requires HasIncreasingTimes(s) && |t| == |s| + 1
    requires forall k | 0 <= k < |s| :: t[k].content == s[k].content
    requires s != [] ==> s[|s| - 1].content.detectedAt < t[|s|].content.detectedAt
    ensures HasIncreasingTimes(t)
  {
    forall j, k | 0 <= j < k < |t| ensures t[j].content.detectedAt < t[k].content.detectedAt {
      if k < |s| {
        assert s[j].content.detectedAt < s[k].content.detectedAt;
      } else if j < |s| - 1 {
        assert s[j].content.detectedAt < s[|s| - 1].content.detectedAt;
      }
    }
  }

  lemma UncreatedKeepsRecords(records: seq<Record>, opportunities: seq<string>, q: Request, d: Detection)
    requires ReconcileRecord(records, opportunities, q, d).Settled?
    ensures var r := ReconcileRecord(records, opportunities, q, d);
            if r.answer.created then |r.records| == |records| + 1 && r.records[|records|].content == d.content
            else r.records == records
  {
    hide NormalizeCommercialValue, Filter, FirstIndex, Newest, SupersededRecord;
  }

  // ------------------------------------------------------------------ one legitimate reconciliation

  /** A reconciliation as the service makes it: issued subject that fits a log, fresh id, later detection. */
  ghost predicate IsLegitimate(records: seq<Record>, tenantId: string, q: Request, d: Detection) {
    && IsIssued(q) && q.tenantId == tenantId && ByteLength(q.subjectId) <= SUBJECT_MAX
    && IsReconcilable(records, d) && IsLater(records, tenantId, d)
  }

  lemma LegitimateKeepsAll(records: seq<Record>, opportunities: seq<string>, actions: seq<RA.Action>,
                           tenantId: string, q: Request, d: Detection)
    requires CaseInv(records, tenantId, actions) && TimesIncrease(records, tenantId)
    requires IsLegitimate(records, tenantId, q, d)
    requires ReconcileRecord(records, opportunities, q, d).Settled?
    ensures var after := ReconcileRecord(records, opportunities, q, d).records;
            && CaseInv(after, tenantId, actions) && TimesIncrease(after, tenantId) && AllGrow(records, after)
            && IsAccepted(after, tenantId, actions)
  {
    hide ReconcileRecord, CaseInv, TimesIncrease, IsReconcilable, ByteLength, AllGrow, Filter, Newest, IsAccepted;
    ReconcileKeepsInv(records, opportunities, actions, tenantId, q, d);
    LaterKeepsTimes(records, opportunities, actions, tenantId, q, d);
    ReconcileGrows(records, opportunities, q, d);
    InvIsAccepted(ReconcileRecord(records, opportunities, q, d).records, tenantId, actions);
  }

  // ------------------------------------------------------------------ batches

  /** The detections of one scan: of different series, with different ids. */
  predicate AreSeparate(ds: seq<Detection>) {
    forall j, k | 0 <= j < k < |ds| ::
      ds[j].content.seriesKey != ds[k].content.seriesKey && ds[j].content.id != ds[k].content.id
  }

  ghost predicate IsLegitimateBatch(records: seq<Record>, tenantId: string, q: Request, ds: seq<Detection>) {
    AreSeparate(ds) && forall k | 0 <= k < |ds| :: IsLegitimate(records, tenantId, q, ds[k])
  }

  lemma StillLegitimate(records: seq<Record>, opportunities: seq<string>, actions: seq<RA.Action>, tenantId: string,
                        q: Request, d: Detection, other: Detection)
    requires CaseInv(records, tenantId, actions) && IsLegitimate(records, tenantId, q, other)
    requires ReconcileRecord(records, opportunities, q, d).Settled?
    requires other.content.seriesKey != d.content.seriesKey && other.content.id != d.content.id
    ensures IsLegitimate(ReconcileRecord(records, opportunities, q, d).records, tenantId, q, other)
  {
    hide ReconcileRecord, CaseInv, SeriesOf, IsBuilt, IsBoundedText, ByteLength, Newest, Grows, FirstIndex, IsTrimmed;
    var r := ReconcileRecord(records, opportunities, q, d);
    UncreatedKeepsRecords(records, opportunities, q, d);
    if r.answer.created {
      SeriesAfterReconcile(records, opportunities, actions, tenantId, q, d);
      ReconcileGrows(records, opportunities, q, d);
      StillFresh(records, r.records, other.content.id);
    }
  }

  lemma StillFresh(records: seq<Record>, after: seq<Record>, id: string)
    requires CaseIndex(records, id).None? && AllGrow(records, after) && |after| == |records| + 1
    requires after[|records|].content.id != id
    ensures CaseIndex(after, id).None?
  {
    hide FirstIndex;
    forall k | 0 <= k < |after| ensures !CaseWithId(id)(after[k]) {
      if k < |records| { assert Grows(records[k], after[k]) && !CaseWithId(id)(records[k]); }
    }
  }

  /** After a prefix of a legitimate batch everything holds, and the later detections are still legitimate. */
  lemma {:induction false} BatchPrefixKeepsAll(records: seq<Record>, opportunities: seq<string>,
                                               actions: seq<RA.Action>, tenantId: string, q: Request,
                                               ds: seq<Detection>, n: nat)
    requires CaseInv(records, tenantId, actions) && TimesIncrease(records, tenantId) && n <= |ds|
    requires IsLegitimateBatch(records, tenantId, q, ds)
    requires ReconcileAll(records, opportunities, q, ds[..n]).Batch?
    ensures var after := ReconcileAll(records, opportunities, q, ds[..n]).records;
            && CaseInv(after, tenantId, actions) && TimesIncrease(after, tenantId) && AllGrow(records, after)
            && forall k | n <= k < |ds| :: IsLegitimate(after, tenantId, q, ds[k])
  {
    hide ReconcileRecord, CaseInv, TimesIncrease, IsLegitimate, Grows;
    if n > 0 {
      var d := ds[n - 1];
      assert ds[..n][..n - 1] == ds[..n - 1];
      BatchPrefixKeepsAll(records, opportunities, actions, tenantId, q, ds, n - 1);
      var before := ReconcileAll(records, opportunities, q, ds[..n - 1]).records;
      var after := ReconcileRecord(before, opportunities, q, d).records;
      LegitimateKeepsAll(before, opportunities, actions, tenantId, q, d);
      AllGrowTransitive(records, before, after);
      forall k | n <= k < |ds| ensures IsLegitimate(after, tenantId, q, ds[k]) {
        StillLegitimate(before, opportunities, actions, tenantId, q, d, ds[k]);
      }
    } else {
      assert ds[..n] == [];
      AllGrowReflexive(records);
    }
  }

  lemma AllGrowReflexive(records: seq<Record>)
    ensures AllGrow(records, records)
  {
  }

  /** A legitimate batch is never refused by the check before its one write. */
  lemma BatchKeepsAll(records: seq<Record>, opportunities: seq<string>, actions: seq<RA.Action>, tenantId: string,
                      q: Request, ds: seq<Detection>)
    requires CaseInv(records, tenantId, actions) && TimesIncrease(records, tenantId)
    requires q.tenantId == tenantId && IsLegitimateBatch(records, tenantId, q, ds)
    ensures var r := ReconcileBatch(records, actions, opportunities, tenantId, q, ds);
            && (r.BatchRefused? <==> ReconcileAll(records, opportunities, q, ds).BatchRefused?)
            && (r.Batch? ==> CaseInv(r.records, tenantId, actions) && TimesIncrease(r.records, tenantId)
                             && AllGrow(records, r.records))
  {
    hide ReconcileAll, CaseInv, TimesIncrease, IsLegitimateBatch, Grows, IsAccepted;
    InvIsAccepted(records, tenantId, actions);
    AllGrowReflexive(records);
    assert ds[..|ds|] == ds;
    var r := ReconcileAll(records, opportunities, q, ds);
    if r.Batch? {
      BatchPrefixKeepsAll(records, opportunities, actions, tenantId, q, ds, |ds|);
      InvIsAccepted(r.records, tenantId, actions);
    }
  }

  // ------------------------------------------------------------------ revenue actions move on

  /** A link stays valid when the actions evolve: its action keeps its id, opportunity, basis and creation. */
  lemma LinkSurvivesActions(r: Record, s: RA.Store, t: RA.Store)
    requires RI.Inv(s) && RR.GoodStep(s, t) && LinkIsValid(r, s.actions)
    ensures LinkIsValid(r, t.actions)
  {
    hide Filter, RI.Inv, RR.Persists;
    if r.life.actionId.Some? {
      var id := r.life.actionId.value;
      ReferenceIsUnique(s, id, r.content.opportunityId);
      var a := ActionReference(s.actions, id, r.content.opportunityId).value;
      var i :| 0 <= i < |s.actions| && s.actions[i] == a;
      assert RR.Persists(s.actions[i], t.actions[i]);
      PersistingKeepsReference(s.actions[i], t.actions[i]);
      UniqueIsReference(t, i, r.content.opportunityId);
    }
  }

  lemma PersistingKeepsReference(a: RA.Action, b: RA.Action)
    requires RR.Persists(a, b)
    ensures b.id == a.id && b.opportunityId == a.opportunityId && b.basis == a.basis && b.createdAt == a.createdAt
  {
  }

  lemma ReferenceIsUnique(s: RA.Store, id: string, opportunityId: string)
    requires ActionReference(s.actions, id, opportunityId).Some?
    ensures var a := ActionReference(s.actions, id, opportunityId).value;
            a in s.actions && a.id == id && a.opportunityId == opportunityId
  {
    hide Filter;
    FilterMembers(s.actions, RA.HasId(id), ActionReference(s.actions, id, opportunityId).value);
  }

  lemma UniqueIsReference(s: RA.Store, i: nat, opportunityId: string)
    requires RI.Inv(s) && i < |s.actions| && s.actions[i].opportunityId == opportunityId
    ensures ActionReference(s.actions, s.actions[i].id, opportunityId) == Some(s.actions[i])
  {
    hide RI.IsSound, RI.OneActivePerOpportunity, RI.LinksAreKnown;
    var p := RA.HasId(s.actions[i].id);
    assert forall j | 0 <= j < |s.actions| && j != i :: !p(s.actions[j]);
    FilterReplaceLast(s.actions, i, s.actions[i], p);
    FilterNone(s.actions[..i], p);
  }

  /** No revenue action step, interrupted or not, makes an accepted case collection unacceptable. */
  lemma ActionStepsKeepAcceptance(records: seq<Record>, tenantId: string, s: RA.Store, t: RA.Store)
    requires RI.Inv(s) && RR.GoodStep(s, t)
    ensures IsAccepted(records, tenantId, s.actions) ==> IsAccepted(records, tenantId, t.actions)
    ensures CaseInv(records, tenantId, s.actions) ==> CaseInv(records, tenantId, t.actions)
  {
    hide RI.Inv, RR.GoodStep, IsPersisted, LinkIsValid, AreChains, HaveDistinctIds, PredecessorIsValid,
      ReplacementIsValid, AreDistinct;
    forall i | 0 <= i < |records| && LinkIsValid(records[i], s.actions) ensures LinkIsValid(records[i], t.actions) {
      LinkSurvivesActions(records[i], s, t);
    }
  }
}

/** Reconciliation: under increasing detection times the chain of a series grows at its end. */
module LeakCaseReconcile {
  import opened Text
  import opened Lists
  import RA = RevenueActions
  import opened LeakCases
  import opened LeakCaseRebuild
  import opened LeakCaseStore
  import opened LeakCaseInvariant
  import opened LeakCaseSteps

  lemma {:induction false} NewestIsLast(series: seq<Record>)
    requires series != [] && HasIncreasingTimes(series)
    ensures Newest(series) == series[|series| - 1]
  {
    if |series| > 1 {
      var front := series[..|series| - 1];
      assert forall j | 0 <= j < |front| :: front[j] == series[j];
      NewestIsLast(front);
    }
  }

  /** Of a series at most one case is active, the last one. */
  lemma ActiveOfSeries(records: seq<Record>, tenantId: string, actions: seq<RA.Action>, key: SeriesKey)
    requires CaseInv(records, tenantId, actions)
    ensures var active := Filter(records, ActiveInSeries(tenantId, key));
            var i := FirstIndex(records, ActiveInSeries(tenantId, key));
            && |active| <= 1 && (active == [] <==> i.None?)
            && (active != [] ==>
                  && active == [records[i.value]]
                  && SeriesOf(records, tenantId, key) == SeriesOf(records[..i.value], tenantId, key) + active)
  {
    hide CaseInv;
    var p := ActiveInSeries(tenantId, key);
    var i := FirstIndex(records, p);
    FirstIsFirstOfFilter(records, p);
    if i.Some? {
      forall j | i.value < j < |records| ensures !InSeries(tenantId, key)(records[j]) && !p(records[j]) {
        ActiveIsLast(records, tenantId, actions, i.value, j);
      }
      FilterNone(records[..i.value], p);
      FilterReplaceLast(records, i.value, records[i.value], p);
      FilterReplaceLast(records, i.value, records[i.value], InSeries(tenantId, key));
    }
  }

  /** Without an active case the newest one is dismissed. */
  lemma EndOfTerminalSeries(records: seq<Record>, tenantId: string, actions: seq<RA.Action>, key: SeriesKey)
    requires CaseInv(records, tenantId, actions)
    requires Filter(records, ActiveInSeries(tenantId, key)) == [] && SeriesOf(records, tenantId, key) != []
    ensures var series := SeriesOf(records, tenantId, key);
            series[|series| - 1].life.state == DISMISSED
  {
    hide Filter, FirstIndex, IsPersisted, LinkIsValid, HaveDistinctIds;
    var series := SeriesOf(records, tenantId, key);
    var i := RecordOfPlace(records, tenantId, key, |series| - 1);
    FilterMembers(records, ActiveInSeries(tenantId, key), records[i]);
    assert IsChain(series);
  }

  // ------------------------------------------------------------------ a case appended

  ghost predicate AreSound(records: seq<Record>, tenantId: string, actions: seq<RA.Action>) {
    forall i | 0 <= i < |records| :: IsPersisted(records[i], tenantId) && LinkIsValid(records[i], actions)
  }

  lemma AppendKeepsInv(records: seq<Record>, tenantId: string, actions: seq<RA.Action>, next: Record)
    requires AreSound(records, tenantId, actions) && HaveDistinctIds(records)
    requires CaseIndex(records, next.content.id).None?
    requires IsPersisted(next, tenantId) && next.life.actionId.None?
    requires IsChain(SeriesOf(records, tenantId, next.content.seriesKey) + [next])
    requires forall key: SeriesKey | key != next.content.seriesKey :: IsChain(SeriesOf(records, tenantId, key))
    ensures CaseInv(records + [next], tenantId, actions)
  {
    hide Filter, IsChain, IsRebuilt, Replay, FirstIndex;
    var grown := records + [next];
    forall key: SeriesKey ensures IsChain(SeriesOf(grown, tenantId, key)) {
      FilterAppend(records, next, InSeries(tenantId, key));
      if key != next.content.seriesKey {
        assert SeriesOf(grown, tenantId, key) == SeriesOf(records, tenantId, key);
      } else {
        assert SeriesOf(grown, tenantId, key) == SeriesOf(records, tenantId, key) + [next];
      }
    }
    forall k | 0 <= k < |records| ensures records[k].content.id != next.content.id {
      assert !CaseWithId(next.content.id)(records[k]);
    }
  }

  lemma ChainGrows(series: seq<Record>, next: Record)
    requires series != [] && next.life.state != SUPERSEDED
    requires forall k | 0 < k < |series| :: Follows(series[k - 1], series[k])
    requires series[0].supersedes.None? && Follows(series[|series| - 1], next)
    ensures IsChain(series + [next])
  {
    var t := series + [next];
    forall k | 0 < k < |t| ensures Follows(t[k - 1], t[k]) {
      if k < |series| { assert Follows(series[k - 1], series[k]); }
    }
  }

  lemma ChainRoot(next: Record)
    requires next.supersedes.None? && next.life.state != SUPERSEDED
    ensures IsChain([next])
  {
  }

  // ------------------------------------------------------------------ the three ways to create a case

  /** The first case of a series. */
  lemma RootKeepsInv(records: seq<Record>, tenantId: string, actions: seq<RA.Action>, d: Detection)
    requires CaseInv(records, tenantId, actions) && CaseIndex(records, d.content.id).None?
    requires IsBuilt(d) && IsBoundedText(d.subjectId, SUBJECT_MAX)
    requires SeriesOf(records, tenantId, d.content.seriesKey) == []
    ensures CaseInv(records + [RecordOf(d, tenantId, None)], tenantId, actions)
  {
    hide Filter, IsChain, IsPersisted, FirstIndex, LinkIsValid, BuildDetection, HaveDistinctIds, IsBoundedText;
    var next := RecordOf(d, tenantId, None);
    BuiltRecordIsPersisted(d, tenantId, None);
    ChainRoot(next);
    assert SeriesOf(records, tenantId, d.content.seriesKey) + [next] == [next];
    forall key: SeriesKey | key != d.content.seriesKey ensures IsChain(SeriesOf(records, tenantId, key)) {
    }
    AppendKeepsInv(records, tenantId, actions, next);
  }

  /** A case after a dismissed one. */
  lemma RestartKeepsInv(records: seq<Record>, tenantId: string, actions: seq<RA.Action>, d: Detection, older: Record)
    requires CaseInv(records, tenantId, actions) && CaseIndex(records, d.content.id).None?
    requires IsBuilt(d) && IsBoundedText(d.subjectId, SUBJECT_MAX)
    requires var series := SeriesOf(records, tenantId, d.content.seriesKey);
             && series != [] && older == series[|series| - 1] && older.life.state == DISMISSED
    requires older.content.detectedAt <= d.content.detectedAt
    ensures CaseInv(records + [RecordOf(d, tenantId, Some(older.content.id))], tenantId, actions)
  {
    hide Filter, IsPersisted, FirstIndex, LinkIsValid, BuildDetection, HaveDistinctIds, IsBoundedText;
    var next := RecordOf(d, tenantId, Some(older.content.id));
    var series := SeriesOf(records, tenantId, d.content.seriesKey);
    assert IsChain(series);
    IdOfOlder(records, tenantId, actions, d.content.seriesKey, |series| - 1, d.content.id);
    BuiltRecordIsPersisted(d, tenantId, Some(older.content.id));
    ChainGrows(series, next);
    AppendKeepsInv(records, tenantId, actions, next);
  }

  /** A case of a series has a bounded id, different from a fresh one. */
  lemma IdOfOlder(records: seq<Record>, tenantId: string, actions: seq<RA.Action>, key: SeriesKey, a: nat,
                  newId: string)
    requires CaseInv(records, tenantId, actions) && a < |SeriesOf(records, tenantId, key)|
    requires CaseIndex(records, newId).None?
    ensures var r := SeriesOf(records, tenantId, key)[a];
            IsBoundedText(r.content.id, ID_MAX) && r.content.id != newId && IsPersisted(r, tenantId)
  {
    hide Filter, FirstIndex, LinkIsValid, AreChains, HaveDistinctIds, Replay, IsBoundedText;
    var i := RecordOfPlace(records, tenantId, key, a);
    assert IsPersisted(records[i], tenantId) && !CaseWithId(newId)(records[i]);
    PersistedIdIsBounded(records[i], tenantId);
  }

  lemma PersistedIdIsBounded(r: Record, tenantId: string)
    requires IsPersisted(r, tenantId)
    ensures IsBoundedText(r.content.id, ID_MAX)
  {
    hide Replay, IsBoundedText, NormalizeCommercialValue, NonEmpty;
    NonEmptyIsBounded(r.content.id, ID_MAX);
  }

  /** A case that supersedes the active one. */
  lemma SuccessorKeepsInv(records: seq<Record>, tenantId: string, actions: seq<RA.Action>, q: Request, d: Detection,
                          i: nat)
    requires CaseInv(records, tenantId, actions) && CaseIndex(records, d.content.id).None?
    requires IsBuilt(d) && IsBoundedText(d.subjectId, SUBJECT_MAX) && IsBoundedText(d.content.id, ID_MAX)
    requires i < |records| && IsActive(records[i].life.state) && records[i].content.seriesKey == d.content.seriesKey
    requires IsPersisted(SupersededRecord(records[i], d, q.subjectId), tenantId)
    requires records[i].content.detectedAt <= d.content.detectedAt
    ensures CaseInv(records[i := SupersededRecord(records[i], d, q.subjectId)]
                    + [RecordOf(d, tenantId, Some(records[i].content.id))], tenantId, actions)
  {
    hide Filter, IsPersisted, FirstIndex, BuildDetection, HaveDistinctIds, IsBoundedText, LinkIsValid;
    var r := records[i];
    var sup := SupersededRecord(r, d, q.subjectId);
    var next := RecordOf(d, tenantId, Some(r.content.id));
    var key := d.content.seriesKey;
    var updated := records[i := sup];
    InvAt(records, tenantId, actions, i);
    SeriesAfterReplace(records, tenantId, actions, i, sup);
    ReplacedKeepsIds(records, i, sup);
    SupersededLinkIsValid(r, d, q.subjectId, actions);
    FreshStaysFresh(records, i, sup, d.content.id);
    PersistedIdIsBounded(r, tenantId);
    FreshDiffers(records, i, d.content.id);
    BuiltRecordIsPersisted(d, tenantId, Some(r.content.id));
    var pre := SeriesOf(records[..i], tenantId, key);
    assert IsChain(pre + [r]);
    ChainThenSuccessor(pre, r, sup, next);
    forall other: SeriesKey | other != key ensures IsChain(SeriesOf(updated, tenantId, other)) {
      assert IsChain(SeriesOf(records, tenantId, other));
    }
    AppendKeepsInv(updated, tenantId, actions, next);
  }

  lemma SupersededLinkIsValid(r: Record, d: Detection, subjectId: string, actions: seq<RA.Action>)
    requires LinkIsValid(r, actions)
    ensures LinkIsValid(SupersededRecord(r, d, subjectId), actions)
  {
    hide ActionReference;
  }

  lemma FreshDiffers(records: seq<Record>, i: nat, id: string)
    requires CaseIndex(records, id).None? && i < |records|
    ensures records[i].content.id != id
  {
    hide FirstIndex;
    assert !CaseWithId(id)(records[i]);
  }

  lemma FreshStaysFresh(records: seq<Record>, i: nat, r: Record, id: string)
    requires CaseIndex(records, id).None? && i < |records| && r.content.id == records[i].content.id
    ensures CaseIndex(records[i := r], id).None?
  {
    hide FirstIndex;
    var updated := records[i := r];
    forall k | 0 <= k < |updated| ensures !CaseWithId(id)(updated[k]) {
      assert !CaseWithId(id)(records[k]);
    }
  }

  lemma ChainThenSuccessor(pre: seq<Record>, r: Record, sup: Record, next: Record)
    requires IsChain(pre + [r]) && sup.content == r.content && sup.supersedes == r.supersedes
    requires Follows(sup, next) && next.life.state != SUPERSEDED
    ensures IsChain(pre + [sup] + [next])
  {
    var s, t := pre + [r], pre + [sup];
    forall k | 0 < k < |t| ensures Follows(t[k - 1], t[k]) {
      assert Follows(s[k - 1], s[k]);
    }
    assert t[0] == if pre == [] then sup else s[0];
    ChainGrows(t, next);
  }

  // ------------------------------------------------------------------ a whole reconciliation

  /** What a detection must satisfy to be handed to the store: built, with a fresh bounded id. */
  predicate IsReconcilable(records: seq<Record>, d: Detection) {
    && IsBuilt(d) && IsBoundedText(d.subjectId, SUBJECT_MAX) && IsBoundedText(d.content.id, ID_MAX)
    && CaseIndex(records, d.content.id).None?
  }

  /** The detection of an orderly call: not older than its series, under a subject that the superseded case can log. */
  predicate IsOrderly(records: seq<Record>, tenantId: string, q: Request, d: Detection) {
    var series := SeriesOf(records, tenantId, d.content.seriesKey);
    && (Filter(records, ActiveInSeries(tenantId, d.content.seriesKey)) != [] ==> ByteLength(q.subjectId) <= SUBJECT_MAX)
    && (series != [] ==> Newest(series).content.detectedAt <= d.content.detectedAt)
  }

  /** Under increasing times an orderly reconciliation keeps the chains. */
  lemma ReconcileKeepsInv(records: seq<Record>, opportunities: seq<string>, actions: seq<RA.Action>, tenantId: string,
                          q: Request, d: Detection)
    requires CaseInv(records, tenantId, actions) && TimesIncrease(records, tenantId)
    requires IsIssued(q) && q.tenantId == tenantId && IsReconcilable(records, d) && IsOrderly(records, tenantId, q, d)
    requires ReconcileRecord(records, opportunities, q, d).Settled?
    ensures CaseInv(ReconcileRecord(records, opportunities, q, d).records, tenantId, actions)
  {
    hide IsBuilt, IsBoundedText, Filter, FirstIndex, CaseInv, NormalizeCommercialValue, IsPersisted, RecordOf,
      SupersededRecord, Newest, ByteLength, HasIncreasingTimes;
    var key := d.content.seriesKey;
    var r := ReconcileRecord(records, opportunities, q, d);
    var series := SeriesOf(records, tenantId, key);
    var i := FirstIndex(records, ActiveInSeries(tenantId, key));
    ActiveOfSeries(records, tenantId, actions, key);
    if r.answer.created {
      assert HasIncreasingTimes(series);
      if series != [] { NewestIsLast(series); }
      if i.Some? {
        InvAt(records, tenantId, actions, i.value);
        SupersededIsPersisted(records[i.value], d, q, tenantId);
        SuccessorKeepsInv(records, tenantId, actions, q, d, i.value);
      } else if series != [] {
        EndOfTerminalSeries(records, tenantId, actions, key);
        RestartKeepsInv(records, tenantId, actions, d, series[|series| - 1]);
      } else {
        RootKeepsInv(records, tenantId, actions, d);
      }
    }
  }
}

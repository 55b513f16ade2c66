/** A scan repeated while the evidence stands replays every case and leaves the store unchanged. */
module PortfolioRescan {
  import opened Text
  import opened Lists
  import opened Sorting
  import RA = RevenueActions
  import opened LeakCases
  import opened LeakCaseStore
  import opened LeakCaseRuns
  import opened Detector
  import opened DetectorWindow
  import opened PortfolioScan

  // ------------------------------------------------------------------ a case that says the same

  /** At most one case of the series is active, and the active one, or else the newest, has the detection's meaning. */
  predicate IsReflected(records: seq<Record>, tenantId: string, d: Detection) {
    var key := d.content.seriesKey;
    var active := Filter(records, ActiveInSeries(tenantId, key));
    var series := SeriesOf(records, tenantId, key);
    && |active| <= 1
    && if active != [] then active[0].content.semanticKey == d.content.semanticKey
       else series != [] && Newest(series).content.semanticKey == d.content.semanticKey
  }

  predicate SameMeaning(a: Detection, b: Detection) {
    && a.content.seriesKey == b.content.seriesKey && a.content.semanticKey == b.content.semanticKey
    && a.content.opportunityId == b.content.opportunityId && a.content.value == b.content.value
  }

  /** What a reconciliation demands of a detection whatever is stored. */
  predicate IsAdmissible(opportunities: seq<string>, d: Detection) {
    d.content.opportunityId in opportunities && NormalizeCommercialValue(d.content.value) == Some(d.content.value)
  }

  /** A reflected detection is answered as a duplicate and changes nothing. */
  lemma ReflectedIsReplayed(records: seq<Record>, opportunities: seq<string>, q: Request, d: Detection)
    requires IsReflected(records, q.tenantId, d) && IsAdmissible(opportunities, d)
    ensures var r := ReconcileRecord(records, opportunities, q, d);
            && r.Settled? && r.records == records && r.answer.duplicate && !r.answer.created
  {
    hide Filter, FirstIndex, NormalizeCommercialValue, Newest;
  }

  /** The new case is the only active one of its series. */
  lemma CreatedIsOnlyActive(records: seq<Record>, opportunities: seq<string>, q: Request, d: Detection)
    requires ReconcileRecord(records, opportunities, q, d).Settled?
    requires ReconcileRecord(records, opportunities, q, d).answer.created
    ensures var r := ReconcileRecord(records, opportunities, q, d);
            Filter(r.records, ActiveInSeries(q.tenantId, d.content.seriesKey)) == [r.answer.record]
            && r.answer.record.content == d.content
  {
    hide Filter, FirstIndex, NormalizeCommercialValue, Newest;
    var p := ActiveInSeries(q.tenantId, d.content.seriesKey);
    var r := ReconcileRecord(records, opportunities, q, d);
    var front := r.records[..|r.records| - 1];
    assert r.records == front + [r.answer.record] && |front| == |records|;
    FirstIsFirstOfFilter(records, p);
    forall j | 0 <= j < |front| ensures !p(front[j]) {
      if p(records[j]) { OnlyOneKept(records, p, j); }
    }
    FilterNone(front, p);
    FilterAppend(front, r.answer.record, p);
  }

  /** After its own reconciliation, in whatever store, a detection is reflected. */
  lemma ReconciledIsReflected(records: seq<Record>, opportunities: seq<string>, q: Request, d: Detection)
    requires ReconcileRecord(records, opportunities, q, d).Settled?
    ensures IsReflected(ReconcileRecord(records, opportunities, q, d).records, q.tenantId, d)
    ensures IsAdmissible(opportunities, d)
  {
    hide Filter, FirstIndex, NormalizeCommercialValue, Newest, SupersededRecord, RecordOf;
    if ReconcileRecord(records, opportunities, q, d).answer.created {
      CreatedIsOnlyActive(records, opportunities, q, d);
    }
  }

  /** The reconciliation of another series does not disturb it. */
  lemma OthersStayReflected(records: seq<Record>, opportunities: seq<string>, q: Request, d: Detection,
                            other: Detection)
    requires ReconcileRecord(records, opportunities, q, d).Settled?
    requires other.content.seriesKey != d.content.seriesKey && IsReflected(records, q.tenantId, other)
    ensures IsReflected(ReconcileRecord(records, opportunities, q, d).records, q.tenantId, other)
  {
    hide Filter, ReconcileRecord, Newest;
    OtherFiltersStay(records, opportunities, q, d, ActiveInSeries(q.tenantId, other.content.seriesKey));
    OtherFiltersStay(records, opportunities, q, d, InSeries(q.tenantId, other.content.seriesKey));
  }

  // ------------------------------------------------------------------ batches

  /** The detections are of different series. */
  predicate HaveSeparateSeries(ds: seq<Detection>) {
    forall j, k | 0 <= j < k < |ds| :: ds[j].content.seriesKey != ds[k].content.seriesKey
  }

  lemma {:induction false} BatchIsReflected(records: seq<Record>, opportunities: seq<string>, q: Request,
                                            ds: seq<Detection>)
    requires HaveSeparateSeries(ds) && ReconcileAll(records, opportunities, q, ds).Batch?
    ensures var after := ReconcileAll(records, opportunities, q, ds).records;
            forall k | 0 <= k < |ds| :: IsReflected(after, q.tenantId, ds[k]) && IsAdmissible(opportunities, ds[k])
  {
    hide ReconcileRecord, IsReflected, IsAdmissible;
    if ds != [] {
      var n := |ds| - 1;
      BatchIsReflected(records, opportunities, q, ds[..n]);
      var before := ReconcileAll(records, opportunities, q, ds[..n]).records;
      ReconciledIsReflected(before, opportunities, q, ds[n]);
      forall k | 0 <= k < n
        ensures IsReflected(ReconcileRecord(before, opportunities, q, ds[n]).records, q.tenantId, ds[k])
        ensures IsAdmissible(opportunities, ds[k])
      {
        assert ds[..n][k] == ds[k];
        OthersStayReflected(before, opportunities, q, ds[n], ds[k]);
      }
    }
  }

  /** A batch of reflected detections is answered by duplicates and changes nothing. */
  lemma {:induction false} ReflectedBatchIsReplayed(records: seq<Record>, opportunities: seq<string>, q: Request,
                                                    ds: seq<Detection>)
    requires forall k | 0 <= k < |ds| :: IsReflected(records, q.tenantId, ds[k]) && IsAdmissible(opportunities, ds[k])
    ensures var r := ReconcileAll(records, opportunities, q, ds);
            && r.Batch? && r.records == records && |r.answers| == |ds|
            && forall k | 0 <= k < |ds| :: r.answers[k].duplicate && !r.answers[k].created
  {
    hide ReconcileRecord, IsReflected, IsAdmissible;
    if ds != [] {
      ReflectedBatchIsReplayed(records, opportunities, q, ds[..|ds| - 1]);
      ReflectedIsReplayed(records, opportunities, q, ds[|ds| - 1]);
    }
  }

  lemma ReflectionFollowsMeaning(records: seq<Record>, tenantId: string, opportunities: seq<string>, a: Detection,
                                 b: Detection)
    requires IsReflected(records, tenantId, a) && IsAdmissible(opportunities, a) && SameMeaning(a, b)
    ensures IsReflected(records, tenantId, b) && IsAdmissible(opportunities, b)
  {
    hide Filter, Newest, NormalizeCommercialValue;
  }

  /** A batch that went through was of this tenant, and left an accepted store that reflects it. */
  lemma BatchOutcome(records: seq<Record>, opportunities: seq<string>, actions: seq<RA.Action>, tenantId: string,
                     q: Request, ds: seq<Detection>)
    requires HaveSeparateSeries(ds) && ReconcileBatch(records, actions, opportunities, tenantId, q, ds).Batch?
    ensures q.tenantId == tenantId
    ensures var first := ReconcileBatch(records, actions, opportunities, tenantId, q, ds).records;
            && IsAccepted(first, tenantId, actions)
            && forall k | 0 <= k < |ds| :: IsReflected(first, tenantId, ds[k]) && IsAdmissible(opportunities, ds[k])
  {
    hide ReconcileAll, IsReflected, IsAdmissible, IsAccepted, AnyCreated, HaveSeparateSeries;
    BatchIsReflected(records, opportunities, q, ds);
    UncreatedBatchKeeps(records, opportunities, q, ds);
  }

  /**
   * Reconciling detections of the same meanings again, whenever and under whatever ids, is answered by duplicates
   * and changes nothing, provided the first batch, of different series, went through.
   */
  lemma SecondBatchIsReplayed(records: seq<Record>, opportunities: seq<string>, actions: seq<RA.Action>,
                              tenantId: string, q: Request, ds: seq<Detection>, p: Request, es: seq<Detection>)
    requires p.tenantId == tenantId && HaveSeparateSeries(ds)
    requires ReconcileBatch(records, actions, opportunities, tenantId, q, ds).Batch?
    requires |es| == |ds| && forall k | 0 <= k < |ds| :: SameMeaning(ds[k], es[k])
    ensures var first := ReconcileBatch(records, actions, opportunities, tenantId, q, ds).records;
            var r := ReconcileBatch(first, actions, opportunities, tenantId, p, es);
            && r.Batch? && r.records == first && |r.answers| == |es|
            && forall k | 0 <= k < |es| :: r.answers[k].duplicate
  {
    hide ReconcileAll, IsReflected, IsAdmissible, IsAccepted, SameMeaning, HaveSeparateSeries;
    BatchOutcome(records, opportunities, actions, tenantId, q, ds);
    var first := ReconcileBatch(records, actions, opportunities, tenantId, q, ds).records;
    forall k | 0 <= k < |es| ensures IsReflected(first, tenantId, es[k]) && IsAdmissible(opportunities, es[k]) {
      ReflectionFollowsMeaning(first, tenantId, opportunities, ds[k], es[k]);
    }
    ReflectedBatchIsReplayed(first, opportunities, p, es);
  }

  /** A batch without created case leaves the working copy as it was read. */
  lemma {:induction false} UncreatedBatchKeeps(records: seq<Record>, opportunities: seq<string>, q: Request,
                                               ds: seq<Detection>)
    ensures var r := ReconcileAll(records, opportunities, q, ds);
            r.Batch? && !AnyCreated(r.answers) ==> r.records == records
  {
    hide ReconcileRecord;
    if ds != [] {
      var front := ds[..|ds| - 1];
      UncreatedBatchKeeps(records, opportunities, q, front);
      var before := ReconcileAll(records, opportunities, q, front);
      var r := ReconcileAll(records, opportunities, q, ds);
      if r.Batch? {
        UncreatedKeepsRecords(before.records, opportunities, q, ds[|ds| - 1]);
        assert r.answers[..|before.answers|] == before.answers;
        assert r.answers[|before.answers|] == ReconcileRecord(before.records, opportunities, q, ds[|ds| - 1]).answer;
        if AnyCreated(before.answers) {
          var i :| 0 <= i < |before.answers| && before.answers[i].created;
          assert r.answers[i].created;
        }
      }
    }
  }

  // ------------------------------------------------------------------ from evidence to detections

  /** The same input under other ids, times and subjects means the same. */
  lemma MeaningIgnoresTime(input: Input, id: string, at: int, subject: string, otherId: string, later: int,
                           otherSubject: string)
    requires BuildDetection(input, id, at, subject).Some? && at <= later
    requires NonEmpty(otherId, ID_MAX).Some? && NonEmpty(otherSubject, SUBJECT_MAX).Some?
    ensures BuildDetection(input, otherId, later, otherSubject).Some?
    ensures SameMeaning(BuildDetection(input, id, at, subject).value,
              BuildDetection(input, otherId, later, otherSubject).value)
  {
    hide NonEmpty, NormalizeCommercialValue, ToUpper, IsReasonCode;
  }

  lemma {:induction false} BuiltAt(inputs: seq<Input>, ids: seq<string>, at: int, subject: string, k: nat)
    requires |inputs| <= |ids| && BuildAll(inputs, ids, at, subject).Some? && k < |inputs|
    ensures |BuildAll(inputs, ids, at, subject).value| == |inputs|
    ensures BuildDetection(inputs[k], ids[k], at, subject) == Some(BuildAll(inputs, ids, at, subject).value[k])
  {
    hide BuildDetection;
    var n := |inputs| - 1;
    BuildAllLength(inputs[..n], ids, at, subject);
    if k < n { BuiltAt(inputs[..n], ids, at, subject, k); }
  }

  /** Inputs that were built once are built again, at any later time and under any usable ids. */
  lemma {:induction false} Rebuilt(inputs: seq<Input>, ids: seq<string>, at: int, subject: string,
                                   others: seq<string>, later: int, otherSubject: string)
    requires |inputs| <= |ids| && |inputs| <= |others| && at <= later
    requires BuildAll(inputs, ids, at, subject).Some?
    requires (forall k | 0 <= k < |others| :: NonEmpty(others[k], ID_MAX).Some?)
    requires NonEmpty(otherSubject, SUBJECT_MAX).Some?
    ensures BuildAll(inputs, others, later, otherSubject).Some?
    ensures |BuildAll(inputs, ids, at, subject).value| == |inputs|
    ensures |BuildAll(inputs, others, later, otherSubject).value| == |inputs|
    ensures forall k | 0 <= k < |inputs| ::
              SameMeaning(BuildAll(inputs, ids, at, subject).value[k],
                BuildAll(inputs, others, later, otherSubject).value[k])
  {
    hide BuildDetection, SameMeaning, NonEmpty;
    BuildAllLength(inputs, ids, at, subject);
    if inputs != [] {
      var n := |inputs| - 1;
      Rebuilt(inputs[..n], ids, at, subject, others, later, otherSubject);
      MeaningIgnoresTime(inputs[n], ids[n], at, subject, others[n], later, otherSubject);
    }
  }

  // ------------------------------------------------------------------ separate series

  /** Every input comes from one opportunity, in order. */
  lemma {:induction false} InputComesFrom(s: Source, ordered: seq<RawOpportunity>, at: int, hash: Json -> string,
                                          k: nat)
    returns (i: nat)
    requires k < |Inputs(s, ordered, at, hash)|
    ensures i < |ordered| && EvaluationOf(s, ordered[i], at, hash).detection == Some(Inputs(s, ordered, at, hash)[k])
    ensures |Inputs(s, ordered[..i], at, hash)| == k
  {
    hide EvaluationOf;
    var n := |ordered| - 1;
    var before := Inputs(s, ordered[..n], at, hash);
    if k < |before| {
      i := InputComesFrom(s, ordered[..n], at, hash, k);
      assert ordered[..n][..i] == ordered[..i];
    } else {
      i := n;
    }
  }

  lemma DetectionNamesOpportunity(s: Source, o: RawOpportunity, at: int, hash: Json -> string)
    requires EvaluationOf(s, o, at, hash).detection.Some?
    ensures EvaluationOf(s, o, at, hash).detection.value.entityId == TrimmedText(o.id)
  {
    hide NormalizedActivities, NormalizedTasks, NormalizeNextAction, CanonicalCommercialValue, AllTaskStamps,
      LatestActivityBaseline, Latest, EvidenceOf, Filter, AllActivityStamps, NormalizeStage, Known, SourceBasis;
  }

  lemma SeriesNamesEntity(input: Input, id: string, at: int, subject: string)
    requires BuildDetection(input, id, at, subject).Some?
    ensures var d := BuildDetection(input, id, at, subject).value;
            d.content.seriesKey.entityId == Trim(input.entityId) && d.content.id == Trim(id)
            && d.content.detectedAt == at
  {
    hide Trim, ToUpper, NormalizeCommercialValue, IsReasonCode, ByteLength;
  }

  lemma TrimmedIdIsTrimmed(o: RawOpportunity)
    ensures Trim(TrimmedText(o.id)) == TrimmedText(o.id)
  {
    if o.id.Text? { TrimIdempotent(o.id.text); }
  }

  /** The detections of a scan are of different series, whatever their ids. */
  lemma DetectionsAreSeparate(s: Source, ordered: seq<RawOpportunity>, ids: seq<string>, at: int, subject: string,
                              hash: Json -> string)
    requires HasDistinctKeys(ordered, OpportunityId()) && |Inputs(s, ordered, at, hash)| <= |ids|
    requires BuildAll(Inputs(s, ordered, at, hash), ids, at, subject).Some?
    ensures HaveSeparateSeries(BuildAll(Inputs(s, ordered, at, hash), ids, at, subject).value)
  {
    hide EvaluationOf, BuildDetection, TrimmedText, BuildAll, Inputs;
    var inputs := Inputs(s, ordered, at, hash);
    var ds := BuildAll(inputs, ids, at, subject).value;
    BuildAllLength(inputs, ids, at, subject);
    forall j, k | 0 <= j < k < |ds| ensures ds[j].content.seriesKey != ds[k].content.seriesKey {
      var a := InputComesFrom(s, ordered, at, hash, j);
      var b := InputComesFrom(s, ordered, at, hash, k);
      EntityOfDetection(s, ordered[a], inputs[j], ids[j], at, subject, hash);
      EntityOfDetection(s, ordered[b], inputs[k], ids[k], at, subject, hash);
      BuiltAt(inputs, ids, at, subject, j);
      BuiltAt(inputs, ids, at, subject, k);
      assert a != b;
    }
  }

  lemma EntityOfDetection(s: Source, o: RawOpportunity, input: Input, id: string, at: int, subject: string,
                          hash: Json -> string)
    requires EvaluationOf(s, o, at, hash).detection == Some(input)
    ensures BuildDetection(input, id, at, subject).Some? ==>
              BuildDetection(input, id, at, subject).value.content.seriesKey.entityId == TrimmedText(o.id)
  {
    hide EvaluationOf, BuildDetection, Trim, TrimmedText;
    DetectionNamesOpportunity(s, o, at, hash);
    TrimmedIdIsTrimmed(o);
    if BuildDetection(input, id, at, subject).Some? { SeriesNamesEntity(input, id, at, subject); }
  }

  // ------------------------------------------------------------------ the scan and the scan after it

  /** The evidence reports the same at both times. */
  ghost predicate Stands(s: Source, at: int, later: int, hash: Json -> string) {
    forall o | o in s.portfolio :: EvaluationOf(s, o, later, hash).detection == EvaluationOf(s, o, at, hash).detection
  }

  lemma {:induction false} StandingInputs(s: Source, ordered: seq<RawOpportunity>, at: int, later: int,
                                          hash: Json -> string)
    requires Stands(s, at, later, hash) && forall o | o in ordered :: o in s.portfolio
    ensures Inputs(s, ordered, later, hash) == Inputs(s, ordered, at, hash)
  {
    hide EvaluationOf;
    if ordered != [] {
      assert ordered[|ordered| - 1] in ordered;
      StandingInputs(s, ordered[..|ordered| - 1], at, later, hash);
    }
  }

  /** Evidence stands between two times of the leak window, and wherever nothing is idle. */
  lemma WindowStands(s: Source, at: int, later: int, hash: Json -> string)
    requires forall o | o in s.portfolio ::
               var g := GatherFacts(o, Some(s.activities), Some(s.tasks));
               g.Gathered? && IsIdle(g.facts) ==> InWindow(g.facts, at) && InWindow(g.facts, later)
    ensures Stands(s, at, later, hash)
  {
    hide GatherFacts, Judge, InWindow, IsIdle;
    forall o | o in s.portfolio
      ensures EvaluationOf(s, o, later, hash).detection == EvaluationOf(s, o, at, hash).detection
    {
      if EvaluationOf(s, o, at, hash).detection.Some? {
        NoLeakOtherwise(o, Some(s.activities), Some(s.tasks), at, hash);
      }
      if EvaluationOf(s, o, later, hash).detection.Some? {
        NoLeakOtherwise(o, Some(s.activities), Some(s.tasks), later, hash);
      }
      var g := GatherFacts(o, Some(s.activities), Some(s.tasks));
      if g.Gathered? && IsIdle(g.facts) { LeakWindow(o, Some(s.activities), Some(s.tasks), at, later, hash); }
    }
  }

  lemma {:induction false} ReplayedItems(s: Source, ordered: seq<RawOpportunity>, at: int, hash: Json -> string,
                                         answers: seq<Reconciled>)
    requires |answers| == |Inputs(s, ordered, at, hash)|
    requires forall k | 0 <= k < |answers| :: answers[k].duplicate
    ensures forall i | i in Items(s, ordered, at, hash, answers) :: i.disposition in {READ_ONLY, REPLAYED}
  {
    hide Evaluate;
    if ordered != [] {
      var front := ordered[..|ordered| - 1];
      ReplayedItems(s, front, at, hash, answers[..|Inputs(s, front, at, hash)|]);
    }
  }

  /**
   * Scanning twice: if the first scan went through, in whatever store, and its evidence stands at the later time, the
   * second one leaves the case store unchanged and reports every detection as replayed, whatever ids it drew.
   */
  lemma RescanReplays(cases: seq<Record>, actions: seq<RA.Action>, tenantId: string, s: Source, hash: Json -> string,
                      q: Request, ids: seq<string>, at: int, p: Request, others: seq<string>, later: int)
    requires |s.portfolio| <= |ids| && |s.portfolio| <= |others| && at <= later && Stands(s, at, later, hash)
    requires p.tenantId == tenantId && NonEmpty(p.subjectId, SUBJECT_MAX).Some?
    requires forall k | 0 <= k < |others| :: NonEmpty(others[k], ID_MAX).Some?
    requires Scan(cases, actions, tenantId, q, s, ids, at, hash).result.Scanned?
    ensures var first := Scan(cases, actions, tenantId, q, s, ids, at, hash).cases;
            var second := Scan(first, actions, tenantId, p, s, others, later, hash);
            && second.cases == first && second.result.Scanned?
            && forall i | i in second.result.items :: i.disposition in {READ_ONLY, REPLAYED}
  {
    hide BuildAll, Inputs, Items, ReconcileBatch, Stands, SortBy, HasDistinctKeys, HasCanonicalId, NonEmpty,
      SameMeaning, HaveSeparateSeries;
    var ordered := SortBy(s.portfolio, IdOrder());
    SortIsPermutation(s.portfolio, IdOrder());
    SameMembers(ordered, s.portfolio);
    DistinctKeysIgnoreOrder(s.portfolio, ordered, OpportunityId());
    var inputs := Inputs(s, ordered, at, hash);
    InputsAreFew(s, ordered, at, hash);
    StandingInputs(s, ordered, at, later, hash);
    Rebuilt(inputs, ids, at, q.subjectId, others, later, p.subjectId);
    DetectionsAreSeparate(s, ordered, ids, at, q.subjectId, hash);
    var ds := BuildAll(inputs, ids, at, q.subjectId).value;
    var es := BuildAll(inputs, others, later, p.subjectId).value;
    var known := MapBy(s.portfolio, OpportunityId());
    SecondBatchIsReplayed(cases, known, actions, tenantId, q, ds, p, es);
    var first := ReconcileBatch(cases, actions, known, tenantId, q, ds).records;
    ReplayedItems(s, ordered, later, hash, ReconcileBatch(first, actions, known, tenantId, p, es).answers);
  }
}

/** The portfolio scan: evaluate, reconcile in one batch, report, summarise. */
module PortfolioScan {
  import opened Text
  import opened Lists
  import opened Sorting
  import RA = RevenueActions
  import opened LeakCases
  import opened LeakCaseStore
  import opened LeakCaseRepository
  import opened Detector
  import opened PilotEvidence

  const PORTFOLIO_SCAN_LIMIT := 100

  datatype Disposition = READ_ONLY | CREATED | REPLAYED | WAS_SUPERSEDED

  datatype Item = Item(
    opportunityId: string, outcome: Outcome, reason: Reason, disposition: Disposition,
    caseId: Option<string>, supersededId: Option<string>)

  // ------------------------------------------------------------------ the portfolio

  predicate HasCanonicalId(o: RawOpportunity) {
    o.id.Text? && IsBoundedText(o.id.text, 512)
  }

  function OpportunityId(): RawOpportunity -> string {
    (o: RawOpportunity) => TrimmedText(o.id)
  }

  /** Few enough opportunities, all with canonical ids of their own. */
  predicate IsScannable(portfolio: seq<RawOpportunity>) {
    && |portfolio| <= PORTFOLIO_SCAN_LIMIT
    && (forall o | o in portfolio :: HasCanonicalId(o))
    && HasDistinctKeys(portfolio, OpportunityId())
  }

  function IdOrder(): (RawOpportunity, RawOpportunity) -> bool {
    (a: RawOpportunity, b: RawOpportunity) => Before(TrimmedText(a.id), TrimmedText(b.id))
  }

  /** The stored evidence that a scan reads. */
  datatype Source = Source(portfolio: seq<RawOpportunity>, activities: seq<RawActivity>, tasks: seq<RawTask>)

  function EvaluationOf(s: Source, o: RawOpportunity, at: int, hash: Json -> string): Evaluation {
    Evaluate(o, Some(s.activities), Some(s.tasks), at, hash)
  }

  /** The detection inputs of the evaluated opportunities, in their order. */
  function Inputs(s: Source, ordered: seq<RawOpportunity>, at: int, hash: Json -> string): seq<Input> {
    if ordered == [] then []
    else
      var last := EvaluationOf(s, ordered[|ordered| - 1], at, hash).detection;
      Inputs(s, ordered[..|ordered| - 1], at, hash) + if last.Some? then [last.value] else []
  }

  /** Every input built under the next fresh id, None when the builder refuses one. */
  function BuildAll(inputs: seq<Input>, ids: seq<string>, at: int, subjectId: string): Option<seq<Detection>>
    requires |inputs| <= |ids|
  {
    if inputs == [] then Some([])
    else
      var n := |inputs| - 1;
      var before := BuildAll(inputs[..n], ids, at, subjectId);
      var d := BuildDetection(inputs[n], ids[n], at, subjectId);
      if before.None? || d.None? then None else Some(before.value + [d.value])
  }

  function DispositionOf(r: Reconciled): Disposition {
    if r.duplicate then REPLAYED else if r.supersededId.Some? then WAS_SUPERSEDED else CREATED
  }

  /** The report, with the answers handed out to the opportunities that had a detection. */
  function Items(s: Source, ordered: seq<RawOpportunity>, at: int, hash: Json -> string, answers: seq<Reconciled>)
    : seq<Item>
    requires |answers| == |Inputs(s, ordered, at, hash)|
  {
    if ordered == [] then []
    else
      var o := ordered[|ordered| - 1];
      var front := ordered[..|ordered| - 1];
      var e := EvaluationOf(s, o, at, hash);
      var n := |Inputs(s, front, at, hash)|;
      Items(s, front, at, hash, answers[..n])
      + if e.detection.Some?
        then [Item(TrimmedText(o.id), e.outcome, e.reason, DispositionOf(answers[n]),
                   Some(answers[n].record.content.id), answers[n].supersededId)]
        else [Item(TrimmedText(o.id), e.outcome, e.reason, READ_ONLY, None, None)]
  }

  // ------------------------------------------------------------------ the summary

  datatype Summary = Summary(
    evaluated: nat, leaks: nat, noLeaks: nat, insufficient: nat, staleSources: nat, suppressed: nat,
    detected: nat, created: nat, replayed: nat, superseded: nat, reasons: map<(Outcome, Reason), nat>)

  function WithOutcome(outcome: Outcome): Item -> bool {
    (i: Item) => i.outcome == outcome
  }

  function LeakWith(disposition: Disposition): Item -> bool {
    (i: Item) => i.outcome == ELIGIBLE_LEAK_DETECTED && i.disposition == disposition
  }

  function WithReason(outcome: Outcome, reason: Reason): Item -> bool {
    (i: Item) => i.outcome == outcome && i.reason == reason
  }

  /** One more item under its outcome and reason. */
  function CountReason(reasons: map<(Outcome, Reason), nat>, i: Item): map<(Outcome, Reason), nat> {
    var key := (i.outcome, i.reason);
    reasons[key := (if key in reasons then reasons[key] else 0) + 1]
  }

  function ReasonCounts(items: seq<Item>): map<(Outcome, Reason), nat> {
    if items == [] then map[] else CountReason(ReasonCounts(items[..|items| - 1]), items[|items| - 1])
  }

  /** The reasons listed under an outcome are those that occur, each with the number of its items. */
  lemma {:induction false} ReasonsAreCounted(items: seq<Item>, outcome: Outcome, reason: Reason)
    ensures var n := Count(items, WithReason(outcome, reason)); var reasons := ReasonCounts(items);
            && ((outcome, reason) in reasons <==> n > 0)
            && (n > 0 ==> reasons[(outcome, reason)] == n)
  {
    hide Count;
    if items == [] {
      assert items[..0] == items;
      CountNothing(items, WithReason(outcome, reason));
    } else {
      var front, last := items[..|items| - 1], items[|items| - 1];
      assert items == front + [last];
      ReasonsAreCounted(front, outcome, reason);
      CountAppend(front, last, WithReason(outcome, reason));
    }
  }

  function SummaryOf(items: seq<Item>): Summary {
    Summary(|items|,
      Count(items, WithOutcome(ELIGIBLE_LEAK_DETECTED)), Count(items, WithOutcome(ELIGIBLE_NO_LEAK)),
      Count(items, WithOutcome(INSUFFICIENT_EVIDENCE)),
      Count(items, WithOutcome(STALE_OR_UNTRUSTWORTHY_SOURCE)),
      Count(items, WithOutcome(DATA_HEALTH_SUPPRESSED)),
      Count(items, WithOutcome(ELIGIBLE_LEAK_DETECTED)), Count(items, LeakWith(CREATED)),
      Count(items, LeakWith(REPLAYED)), Count(items, LeakWith(WAS_SUPERSEDED)), ReasonCounts(items))
  }

  /** The counting loop of the summary. */
  method SummarizeScan(items: seq<Item>) returns (r: Summary)
    ensures r == SummaryOf(items)
  {
    hide Count;
    r := Summary(0, 0, 0, 0, 0, 0, 0, 0, 0, 0, map[]);
    var n := 0;
    NothingCounted();
    while n < |items|
      invariant 0 <= n <= |items|
      invariant r == SummaryOf(items[..n])
    {
      var i := items[n];
      assert items[..n + 1] == items[..n] + [i];
      SummaryStep(items[..n], i);
      match i.outcome {
        case ELIGIBLE_LEAK_DETECTED => r := r.(leaks := r.leaks + 1, detected := r.detected + 1);
        case ELIGIBLE_NO_LEAK => r := r.(noLeaks := r.noLeaks + 1);
        case INSUFFICIENT_EVIDENCE => r := r.(insufficient := r.insufficient + 1);
        case STALE_OR_UNTRUSTWORTHY_SOURCE => r := r.(staleSources := r.staleSources + 1);
        case DATA_HEALTH_SUPPRESSED => r := r.(suppressed := r.suppressed + 1);
      }
      if i.outcome == ELIGIBLE_LEAK_DETECTED {
        if i.disposition == CREATED { r := r.(created := r.created + 1); }
        if i.disposition == REPLAYED { r := r.(replayed := r.replayed + 1); }
        if i.disposition == WAS_SUPERSEDED { r := r.(superseded := r.superseded + 1); }
      }
      r := r.(evaluated := r.evaluated + 1, reasons := CountReason(r.reasons, i));
      n := n + 1;
    }
    assert items[..n] == items;
  }

  lemma NothingCounted()
    ensures SummaryOf([]) == Summary(0, 0, 0, 0, 0, 0, 0, 0, 0, 0, map[])
  {
  }

  lemma SummaryStep(items: seq<Item>, i: Item)
    ensures var a := SummaryOf(items); var b := SummaryOf(items + [i]);
            && b.evaluated == a.evaluated + 1 && b.reasons == CountReason(a.reasons, i)
            && b.leaks == a.leaks + (if i.outcome == ELIGIBLE_LEAK_DETECTED then 1 else 0)
            && b.noLeaks == a.noLeaks + (if i.outcome == ELIGIBLE_NO_LEAK then 1 else 0)
            && b.insufficient == a.insufficient + (if i.outcome == INSUFFICIENT_EVIDENCE then 1 else 0)
            && b.staleSources == a.staleSources + (if i.outcome == STALE_OR_UNTRUSTWORTHY_SOURCE then 1 else 0)
            && b.suppressed == a.suppressed + (if i.outcome == DATA_HEALTH_SUPPRESSED then 1 else 0)
            && b.detected == b.leaks && a.detected == a.leaks
            && b.created == a.created + (if LeakWith(CREATED)(i) then 1 else 0)
            && b.replayed == a.replayed + (if LeakWith(REPLAYED)(i) then 1 else 0)
            && b.superseded == a.superseded + (if LeakWith(WAS_SUPERSEDED)(i) then 1 else 0)
  {
    hide Count;
    CountAppend(items, i, WithOutcome(ELIGIBLE_LEAK_DETECTED));
    CountAppend(items, i, WithOutcome(ELIGIBLE_NO_LEAK));
    CountAppend(items, i, WithOutcome(INSUFFICIENT_EVIDENCE));
    CountAppend(items, i, WithOutcome(STALE_OR_UNTRUSTWORTHY_SOURCE));
    CountAppend(items, i, WithOutcome(DATA_HEALTH_SUPPRESSED));
    CountAppend(items, i, LeakWith(CREATED));
    CountAppend(items, i, LeakWith(REPLAYED));
    CountAppend(items, i, LeakWith(WAS_SUPERSEDED));
  }

  /** A leak was reconciled and nothing else was. */
  predicate IsReported(i: Item) {
    i.outcome == ELIGIBLE_LEAK_DETECTED <==> i.disposition != READ_ONLY
  }

  /** The counts partition the evaluated opportunities, and the dispositions partition the leaks. */
  lemma {:induction false} SummaryConserves(items: seq<Item>)
    requires forall i | i in items :: IsReported(i)
    ensures var s := SummaryOf(items);
            && s.evaluated == |items|
            && s.leaks + s.noLeaks + s.insufficient + s.staleSources + s.suppressed == s.evaluated
            && s.created + s.replayed + s.superseded == s.detected && s.detected == s.leaks
  {
    hide Count;
    if items == [] {
      NothingCounted();
    } else {
      var front, last := items[..|items| - 1], items[|items| - 1];
      assert items == front + [last];
      assert last in items && forall i | i in front :: i in items;
      SummaryConserves(front);
      SummaryStep(front, last);
    }
  }

  /** Exactly the leaks come with a detection. */
  lemma LeakHasDetection(o: RawOpportunity, activities: Option<seq<RawActivity>>, tasks: Option<seq<RawTask>>,
                         at: int, hash: Json -> string)
    ensures var e := Evaluate(o, activities, tasks, at, hash);
            e.outcome == ELIGIBLE_LEAK_DETECTED <==> e.detection.Some?
  {
    hide NormalizedActivities, NormalizedTasks, NormalizeNextAction, CanonicalCommercialValue, AllTaskStamps,
      LatestActivityBaseline, Latest, EvidenceOf, DetectionOf, Filter, AllActivityStamps, NormalizeStage, Known;
  }

  lemma {:induction false} ItemsAreReported(s: Source, ordered: seq<RawOpportunity>, at: int, hash: Json -> string,
                                            answers: seq<Reconciled>)
    requires |answers| == |Inputs(s, ordered, at, hash)|
    ensures |Items(s, ordered, at, hash, answers)| == |ordered|
    ensures forall i | i in Items(s, ordered, at, hash, answers) :: IsReported(i)
  {
    hide Evaluate;
    if ordered != [] {
      LeakHasDetection(ordered[|ordered| - 1], Some(s.activities), Some(s.tasks), at, hash);
      var front := ordered[..|ordered| - 1];
      ItemsAreReported(s, front, at, hash, answers[..|Inputs(s, front, at, hash)|]);
    }
  }

  // ------------------------------------------------------------------ the scan

  datatype ScanFailure =
    | SCAN_LIMIT_EXCEEDED | SCAN_SOURCE_INVALID | DETECTION_REFUSED | RECONCILIATION_REFUSED(error: Error)

  datatype ScanResult = Scanned(items: seq<Item>) | ScanFailed(reason: ScanFailure)

  datatype ScanStep = ScanStep(cases: seq<Record>, result: ScanResult)

  /** scanWithRepositories; ids are the fresh ids handed out, one for every detection. */
  function Scan(cases: seq<Record>, actions: seq<RA.Action>, tenantId: string, q: Request, s: Source,
                ids: seq<string>, at: int, hash: Json -> string): ScanStep
    requires |s.portfolio| <= |ids|
  {
    if |s.portfolio| > PORTFOLIO_SCAN_LIMIT then ScanStep(cases, ScanFailed(SCAN_LIMIT_EXCEEDED))
    else if !IsScannable(s.portfolio) then ScanStep(cases, ScanFailed(SCAN_SOURCE_INVALID))
    else
      var ordered := SortBy(s.portfolio, IdOrder());
      SortKeepsLength(s.portfolio, IdOrder());
      InputsAreFew(s, ordered, at, hash);
      var built := BuildAll(Inputs(s, ordered, at, hash), ids, at, q.subjectId);
      if built.None? then ScanStep(cases, ScanFailed(DETECTION_REFUSED))
      else
        var known := MapBy(s.portfolio, OpportunityId());
        var r := ReconcileBatch(cases, actions, known, tenantId, q, built.value);
        if r.BatchRefused? then ScanStep(cases, ScanFailed(RECONCILIATION_REFUSED(r.error)))
        else
          BuildAllLength(Inputs(s, ordered, at, hash), ids, at, q.subjectId);
          BatchLength(cases, actions, known, tenantId, q, built.value);
          ScanStep(r.records, Scanned(Items(s, ordered, at, hash, r.answers)))
  }

  lemma SortKeepsLength<T>(s: seq<T>, less: (T, T) -> bool)
    ensures |SortBy(s, less)| == |s|
  {
    SortIsPermutation(s, less);
    assert |multiset(SortBy(s, less))| == |multiset(s)|;
  }

  lemma {:induction false} InputsAreFew(s: Source, ordered: seq<RawOpportunity>, at: int, hash: Json -> string)
    ensures |Inputs(s, ordered, at, hash)| <= |ordered|
  {
    hide EvaluationOf;
    if ordered != [] { InputsAreFew(s, ordered[..|ordered| - 1], at, hash); }
  }

  lemma {:induction false} BuildAllLength(inputs: seq<Input>, ids: seq<string>, at: int, subjectId: string)
    requires |inputs| <= |ids|
    ensures var r := BuildAll(inputs, ids, at, subjectId); r.Some? ==> |r.value| == |inputs|
  {
    hide BuildDetection;
    if inputs != [] { BuildAllLength(inputs[..|inputs| - 1], ids, at, subjectId); }
  }

  lemma {:induction false} AllLength(cases: seq<Record>, known: seq<string>, q: Request, ds: seq<Detection>)
    ensures var r := ReconcileAll(cases, known, q, ds); r.Batch? ==> |r.answers| == |ds|
  {
    hide ReconcileRecord;
    if ds != [] { AllLength(cases, known, q, ds[..|ds| - 1]); }
  }

  lemma BatchLength(cases: seq<Record>, actions: seq<RA.Action>, known: seq<string>, tenantId: string, q: Request,
                    ds: seq<Detection>)
    ensures var r := ReconcileBatch(cases, actions, known, tenantId, q, ds); r.Batch? ==> |r.answers| == |ds|
  {
    hide ReconcileAll, IsAccepted;
    AllLength(cases, known, q, ds);
  }

  lemma InputsStep(s: Source, ordered: seq<RawOpportunity>, n: nat, at: int, hash: Json -> string)
    requires n < |ordered|
    ensures Inputs(s, ordered[..n + 1], at, hash) == Inputs(s, ordered[..n], at, hash)
              + if EvaluationOf(s, ordered[n], at, hash).detection.Some?
                then [EvaluationOf(s, ordered[n], at, hash).detection.value] else []
  {
    hide EvaluationOf;
    assert ordered[..n + 1][..n] == ordered[..n];
  }

  lemma BuildStep(before: seq<Input>, input: Input, ids: seq<string>, at: int, subjectId: string)
    requires |before| < |ids|
    ensures BuildAll(before + [input], ids, at, subjectId) ==
            var built := BuildAll(before, ids, at, subjectId);
            var d := BuildDetection(input, ids[|before|], at, subjectId);
            if built.None? || d.None? then None else Some(built.value + [d.value])
  {
    hide BuildDetection;
    assert (before + [input])[..|before|] == before;
  }

  /** The loop that builds a detection for every evaluation that has one. */
  method BuildDetections(s: Source, ordered: seq<RawOpportunity>, ids: seq<string>, at: int, subjectId: string,
                         hash: Json -> string)
    returns (built: Option<seq<Detection>>)
    requires |ordered| <= |ids| && |Inputs(s, ordered, at, hash)| <= |ids|
    ensures built == BuildAll(Inputs(s, ordered, at, hash), ids, at, subjectId)
  {
    hide EvaluationOf, BuildDetection, Inputs, BuildAll;
    var detections: seq<Detection> := [];
    var n := 0;
    NothingIsBuilt(s, ordered[..0], ids, at, subjectId, hash);
    while n < |ordered|
      invariant 0 <= n <= |ordered|
      invariant |Inputs(s, ordered[..n], at, hash)| <= n
      invariant BuildAll(Inputs(s, ordered[..n], at, hash), ids, at, subjectId) == Some(detections)
      invariant |detections| == |Inputs(s, ordered[..n], at, hash)|
    {
      var e := EvaluationOf(s, ordered[n], at, hash);
      ghost var before := Inputs(s, ordered[..n], at, hash);
      InputsStep(s, ordered, n, at, hash);
      if e.detection.Some? {
        var d := BuildDetection(e.detection.value, ids[|detections|], at, subjectId);
        BuildStep(before, e.detection.value, ids, at, subjectId);
        if d.None? {
          RefusedInputRefusesAll(s, ordered, n + 1, ids, at, subjectId, hash);
          return None;
        }
        detections := detections + [d.value];
      } else {
        assert before + [] == before;
      }
      n := n + 1;
    }
    assert ordered[..n] == ordered;
    return Some(detections);
  }

  lemma NothingIsBuilt(s: Source, none: seq<RawOpportunity>, ids: seq<string>, at: int, subjectId: string,
                       hash: Json -> string)
    requires none == []
    ensures Inputs(s, none, at, hash) == [] && BuildAll([], ids, at, subjectId) == Some([])
  {
  }

  method ScanStalledOpportunities(repository: JsonRepository, actions: seq<RA.Action>, q: Request, s: Source,
                                  ids: seq<string>, at: int, hash: Json -> string)
    returns (result: ScanResult)
    requires |s.portfolio| <= |ids|
    modifies repository`cases
    ensures ScanStep(repository.cases, result)
            == Scan(old(repository.cases), actions, repository.tenantId, q, s, ids, at, hash)
  {
    hide ReconcileBatch, EvaluationOf, BuildAll, Inputs, Items, IsScannable, SortBy, MapBy;
    if |s.portfolio| > PORTFOLIO_SCAN_LIMIT {
      return ScanFailed(SCAN_LIMIT_EXCEEDED);
    }
    if !IsScannable(s.portfolio) {
      return ScanFailed(SCAN_SOURCE_INVALID);
    }
    var ordered := SortBy(s.portfolio, IdOrder());
    SortKeepsLength(s.portfolio, IdOrder());
    InputsAreFew(s, ordered, at, hash);
    var built := BuildDetections(s, ordered, ids, at, q.subjectId, hash);
    if built.None? {
      return ScanFailed(DETECTION_REFUSED);
    }
    BuildAllLength(Inputs(s, ordered, at, hash), ids, at, q.subjectId);
    var known := MapBy(s.portfolio, OpportunityId());
    BatchLength(repository.cases, actions, known, repository.tenantId, q, built.value);
    var batch := repository.ReconcileBatch(q, built.value, actions, known);
    if batch.BatchRefused? {
      return ScanFailed(RECONCILIATION_REFUSED(batch.error));
    }
    result := Scanned(Items(s, ordered, at, hash, batch.answers));
  }

  lemma {:induction false} RefusedInputRefusesAll(s: Source, ordered: seq<RawOpportunity>, n: nat, ids: seq<string>,
                                                  at: int, subjectId: string, hash: Json -> string)
    requires n <= |ordered| <= |ids| && |Inputs(s, ordered[..n], at, hash)| <= n
    requires BuildAll(Inputs(s, ordered[..n], at, hash), ids, at, subjectId).None?
    ensures |Inputs(s, ordered, at, hash)| <= |ids|
    ensures BuildAll(Inputs(s, ordered, at, hash), ids, at, subjectId).None?
    decreases |ordered|
  {
    hide EvaluationOf, BuildDetection;
    InputsAreFew(s, ordered, at, hash);
    if n == |ordered| {
      assert ordered[..n] == ordered;
    } else {
      var front := ordered[..|ordered| - 1];
      assert front[..n] == ordered[..n];
      RefusedInputRefusesAll(s, front, n, ids, at, subjectId, hash);
      var before := Inputs(s, front, at, hash);
      var all := Inputs(s, ordered, at, hash);
      if |all| > |before| { assert all[..|before|] == before; } else { assert all == before; }
    }
  }

  // ------------------------------------------------------------------ the facts for the evidence log

  function ScanFactsOf(s: Summary): ScanFacts {
    ScanFacts(s.evaluated, s.leaks, s.noLeaks, s.insufficient, s.staleSources, s.suppressed, 0)
  }

  /** Every scan that goes through reports each opportunity once, in facts that the evidence log accepts. */
  lemma ScanFactsAreValid(cases: seq<Record>, actions: seq<RA.Action>, tenantId: string, q: Request, s: Source,
                          ids: seq<string>, at: int, hash: Json -> string)
    requires |s.portfolio| <= |ids| && Scan(cases, actions, tenantId, q, s, ids, at, hash).result.Scanned?
    ensures var items := Scan(cases, actions, tenantId, q, s, ids, at, hash).result.items;
            && AreValidScanFacts(ScanFactsOf(SummaryOf(items)))
            && ScanFactsOf(SummaryOf(items)).evaluated == |s.portfolio|
  {
    hide ReconcileBatch, BuildAll, Inputs, Items, IsScannable, SortBy, MapBy, Count, ReasonCounts, EvaluationOf;
    var ordered := SortBy(s.portfolio, IdOrder());
    SortKeepsLength(s.portfolio, IdOrder());
    InputsAreFew(s, ordered, at, hash);
    var inputs := Inputs(s, ordered, at, hash);
    BuildAllLength(inputs, ids, at, q.subjectId);
    var ds := BuildAll(inputs, ids, at, q.subjectId).value;
    var known := MapBy(s.portfolio, OpportunityId());
    BatchLength(cases, actions, known, tenantId, q, ds);
    var answers := ReconcileBatch(cases, actions, known, tenantId, q, ds).answers;
    ItemsAreReported(s, ordered, at, hash, answers);
    SummaryConserves(Items(s, ordered, at, hash, answers));
  }
}

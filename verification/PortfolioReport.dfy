/** What the report of a portfolio scan says of every opportunity. */
module PortfolioReport {
  import opened Text
  import opened Lists
  import opened Sorting
  import RA = RevenueActions
  import opened LeakCases
  import opened LeakCaseStore
  import opened Detector
  import opened PortfolioScan
  import LA = LeakCaseAnswers
  import PR = PortfolioRescan

  // ------------------------------------------------------------------ what an answer can say

  /** An answer either repeats a stored case or opens one, and only then can it name a superseded one. */
  predicate IsAnswer(a: Reconciled) {
    && a.created == !a.duplicate
    && (a.duplicate ==> a.supersededId.None?)
  }

  lemma {:induction false} AnswersAreFormed(records: seq<Record>, opportunities: seq<string>, q: Request,
                                            ds: seq<Detection>)
    ensures var r := ReconcileAll(records, opportunities, q, ds);
            r.Batch? ==>
              |r.answers| == |ds|
              && forall k | 0 <= k < |ds| ::
                   IsAnswer(r.answers[k]) && r.answers[k].record.content.seriesKey == ds[k].content.seriesKey
  {
    hide ReconcileRecord;
    if ds != [] {
      var front := ds[..|ds| - 1];
      AnswersAreFormed(records, opportunities, q, front);
      var before := ReconcileAll(records, opportunities, q, front);
      if before.Batch? { AnswerIsFormed(before.records, opportunities, q, ds[|ds| - 1]); }
    }
  }

  lemma AnswerIsFormed(records: seq<Record>, opportunities: seq<string>, q: Request, d: Detection)
    ensures var r := ReconcileRecord(records, opportunities, q, d);
            r.Settled? ==> IsAnswer(r.answer) && r.answer.record.content.seriesKey == d.content.seriesKey
  {
    hide Filter, FirstIndex, NormalizeCommercialValue, Newest;
    var key := d.content.seriesKey;
    var active := Filter(records, ActiveInSeries(q.tenantId, key));
    var series := SeriesOf(records, q.tenantId, key);
    if active != [] { FilterMembers(records, ActiveInSeries(q.tenantId, key), active[0]); }
    if series != [] {
      LA.NewestIsMember(series);
      FilterMembers(records, InSeries(q.tenantId, key), Newest(series));
    }
  }

  // ------------------------------------------------------------------ one item

  /** The item tells what the detector found and what became of it. */
  predicate Tells(i: Item, e: Evaluation, answer: Option<Reconciled>) {
    && i.outcome == e.outcome && i.reason == e.reason
    && (answer.Some? <==> e.detection.Some?)
    && if answer.None? then i.disposition == READ_ONLY && i.caseId.None? && i.supersededId.None?
       else
         && i.caseId == Some(answer.value.record.content.id) && i.supersededId == answer.value.supersededId
         && (i.disposition == REPLAYED <==> !answer.value.created)
         && (i.disposition == CREATED <==> answer.value.created && i.supersededId.None?)
         && (i.disposition == WAS_SUPERSEDED <==> answer.value.created && i.supersededId.Some?)
  }

  /** The answer for opportunity k is that of the next detection in order. */
  function AnswerFor(s: Source, ordered: seq<RawOpportunity>, at: int, hash: Json -> string, answers: seq<Reconciled>,
                     k: nat): Option<Reconciled>
    requires |answers| == |Inputs(s, ordered, at, hash)| && k < |ordered|
  {
    var n := |Inputs(s, ordered[..k], at, hash)|;
    if EvaluationOf(s, ordered[k], at, hash).detection.Some? && n < |answers| then Some(answers[n]) else None
  }

  lemma {:induction false} ItemTells(s: Source, ordered: seq<RawOpportunity>, at: int, hash: Json -> string,
                                     answers: seq<Reconciled>, k: nat)
    requires |answers| == |Inputs(s, ordered, at, hash)| && k < |ordered|
    requires forall n | 0 <= n < |answers| :: IsAnswer(answers[n])
    ensures var items := Items(s, ordered, at, hash, answers);
            && |items| == |ordered| && items[k].opportunityId == TrimmedText(ordered[k].id)
            && Tells(items[k], EvaluationOf(s, ordered[k], at, hash), AnswerFor(s, ordered, at, hash, answers, k))
  {
    hide EvaluationOf;
    var front := ordered[..|ordered| - 1];
    var before := answers[..|Inputs(s, front, at, hash)|];
    ItemsAreReported(s, front, at, hash, before);
    if k < |front| {
      ItemTells(s, front, at, hash, before, k);
      assert front[..k] == ordered[..k];
      InputsGrow(s, front, k, at, hash);
    }
  }

  lemma {:induction false} InputsGrow(s: Source, ordered: seq<RawOpportunity>, k: nat, at: int, hash: Json -> string)
    requires k < |ordered|
    ensures |Inputs(s, ordered[..k], at, hash)|
            + (if EvaluationOf(s, ordered[k], at, hash).detection.Some? then 1 else 0) <= |Inputs(s, ordered, at, hash)|
  {
    hide EvaluationOf;
    var front := ordered[..|ordered| - 1];
    if k < |front| {
      InputsGrow(s, front, k, at, hash);
      assert front[..k] == ordered[..k];
    }
  }

  lemma {:induction false} InputAt(s: Source, ordered: seq<RawOpportunity>, at: int, hash: Json -> string, k: nat)
    requires k < |ordered| && EvaluationOf(s, ordered[k], at, hash).detection.Some?
    ensures var n := |Inputs(s, ordered[..k], at, hash)|;
            && n < |Inputs(s, ordered, at, hash)|
            && Inputs(s, ordered, at, hash)[n] == EvaluationOf(s, ordered[k], at, hash).detection.value
  {
    hide EvaluationOf;
    var front := ordered[..|ordered| - 1];
    if k < |front| {
      InputAt(s, front, at, hash, k);
      assert front[..k] == ordered[..k];
    }
  }

  // ------------------------------------------------------------------ the report

  /** The answer behind the item of opportunity o is about a case of that opportunity. */
  ghost predicate IsToldOf(i: Item, s: Source, o: RawOpportunity, at: int, hash: Json -> string) {
    && i.opportunityId == TrimmedText(o.id)
    && exists answer: Option<Reconciled> ::
         && Tells(i, EvaluationOf(s, o, at, hash), answer)
         && (answer.Some? ==> answer.value.record.content.seriesKey.entityId == i.opportunityId)
  }

  lemma IdOrderIsStrict(portfolio: seq<RawOpportunity>)
    requires HasDistinctKeys(portfolio, OpportunityId())
    ensures IsStrictOrderOn(IdOrder(), portfolio) && HasNoDuplicates(portfolio)
  {
    hide Before, TrimmedText;
    var less := IdOrder();
    forall x, y | x in portfolio && y in portfolio ensures x == y || less(x, y) || less(y, x) {
      BeforeTotal(TrimmedText(x.id), TrimmedText(y.id));
      var i :| 0 <= i < |portfolio| && portfolio[i] == x;
      var j :| 0 <= j < |portfolio| && portfolio[j] == y;
      assert i != j ==> OpportunityId()(portfolio[i]) != OpportunityId()(portfolio[j]);
    }
    forall x, y | x in portfolio && y in portfolio && less(x, y) ensures !less(y, x) {
      BeforeAsymmetric(TrimmedText(x.id), TrimmedText(y.id));
    }
    forall x, y, z | x in portfolio && y in portfolio && z in portfolio && less(x, y) && less(y, z)
      ensures less(x, z)
    {
      BeforeTransitive(TrimmedText(x.id), TrimmedText(y.id), TrimmedText(z.id));
    }
  }

  lemma BatchIsFormed(cases: seq<Record>, actions: seq<RA.Action>, known: seq<string>, tenantId: string, q: Request,
                      ds: seq<Detection>)
    ensures var r := ReconcileBatch(cases, actions, known, tenantId, q, ds);
            r.Batch? ==>
              |r.answers| == |ds|
              && forall k | 0 <= k < |ds| ::
                   IsAnswer(r.answers[k]) && r.answers[k].record.content.seriesKey == ds[k].content.seriesKey
  {
    hide ReconcileAll, IsAccepted;
    AnswersAreFormed(cases, known, q, ds);
  }

  /** The item of opportunity k of a scan, given the detections and the answers of the scan. */
  lemma ScannedItemTells(s: Source, ordered: seq<RawOpportunity>, ids: seq<string>, at: int, subject: string,
                         hash: Json -> string, answers: seq<Reconciled>, k: nat)
    requires |Inputs(s, ordered, at, hash)| <= |ids| && k < |ordered|
    requires BuildAll(Inputs(s, ordered, at, hash), ids, at, subject).Some?
    requires var ds := BuildAll(Inputs(s, ordered, at, hash), ids, at, subject).value;
             && |ds| == |Inputs(s, ordered, at, hash)| == |answers|
             && forall n | 0 <= n < |ds| ::
                  IsAnswer(answers[n]) && answers[n].record.content.seriesKey == ds[n].content.seriesKey
    ensures |Items(s, ordered, at, hash, answers)| == |ordered|
    ensures IsToldOf(Items(s, ordered, at, hash, answers)[k], s, ordered[k], at, hash)
  {
    hide EvaluationOf, BuildAll, Inputs, Items, Tells, BuildDetection, IsAnswer, TrimmedText;
    var inputs := Inputs(s, ordered, at, hash);
    ItemTells(s, ordered, at, hash, answers, k);
    if EvaluationOf(s, ordered[k], at, hash).detection.Some? {
      InputAt(s, ordered, at, hash, k);
      var n := |Inputs(s, ordered[..k], at, hash)|;
      PR.BuiltAt(inputs, ids, at, subject, n);
      PR.EntityOfDetection(s, ordered[k], inputs[n], ids[n], at, subject, hash);
    }
  }

  /**
   * A scan that goes through reports every opportunity once, in strict order of their ids: what the detector found, and
   * for a leak the case of that opportunity that the store answered with, as created, replayed or superseding.
   */
  lemma ReportTells(cases: seq<Record>, actions: seq<RA.Action>, tenantId: string, q: Request, s: Source,
                    ids: seq<string>, at: int, hash: Json -> string, k: nat)
    requires |s.portfolio| <= |ids| && k < |s.portfolio|
    requires Scan(cases, actions, tenantId, q, s, ids, at, hash).result.Scanned?
    ensures var items := Scan(cases, actions, tenantId, q, s, ids, at, hash).result.items;
            var ordered := SortBy(s.portfolio, IdOrder());
            && |items| == |ordered| == |s.portfolio| && multiset(ordered) == multiset(s.portfolio)
            && IsToldOf(items[k], s, ordered[k], at, hash)
            && forall j | 0 <= j < k :: Before(items[j].opportunityId, items[k].opportunityId)
  {
    hide ReconcileBatch, EvaluationOf, BuildAll, Inputs, Items, SortBy, MapBy, Tells, Before, IsAnswer, HasDistinctKeys,
      HasCanonicalId, IsStrictOrderOn, HasNoDuplicates;
    var ordered := SortBy(s.portfolio, IdOrder());
    SortKeepsLength(s.portfolio, IdOrder());
    SortIsPermutation(s.portfolio, IdOrder());
    InputsAreFew(s, ordered, at, hash);
    var inputs := Inputs(s, ordered, at, hash);
    BuildAllLength(inputs, ids, at, q.subjectId);
    var ds := BuildAll(inputs, ids, at, q.subjectId).value;
    var known := MapBy(s.portfolio, OpportunityId());
    BatchIsFormed(cases, actions, known, tenantId, q, ds);
    var answers := ReconcileBatch(cases, actions, known, tenantId, q, ds).answers;
    ScannedItemTells(s, ordered, ids, at, q.subjectId, hash, answers, k);
    IdOrderIsStrict(s.portfolio);
    SortIsSorted(s.portfolio, IdOrder());
    forall j | 0 <= j < k
      ensures Before(Items(s, ordered, at, hash, answers)[j].opportunityId,
                Items(s, ordered, at, hash, answers)[k].opportunityId)
    {
      ScannedItemTells(s, ordered, ids, at, q.subjectId, hash, answers, j);
      assert IdOrder()(ordered[j], ordered[k]);
    }
  }

  /** A scan is refused unread exactly for more than a hundred opportunities, or for ids not usable and unique. */
  lemma ScanRefusedExactlyWhen(cases: seq<Record>, actions: seq<RA.Action>, tenantId: string, q: Request, s: Source,
                               ids: seq<string>, at: int, hash: Json -> string)
    requires |s.portfolio| <= |ids|
    ensures var r := Scan(cases, actions, tenantId, q, s, ids, at, hash);
            && (r.result == ScanFailed(SCAN_LIMIT_EXCEEDED) <==> |s.portfolio| > 100)
            && (r.result == ScanFailed(SCAN_SOURCE_INVALID) <==>
                  && |s.portfolio| <= 100
                  && ((exists o | o in s.portfolio ::
                         !(o.id.Text? && o.id.text != "" && IsTrimmed(o.id.text) && ByteLength(o.id.text) <= 512))
                      || !HasDistinctKeys(s.portfolio, OpportunityId())))
            && (!r.result.Scanned? ==> r.cases == cases)
  {
    hide ReconcileBatch, EvaluationOf, BuildAll, Inputs, Items, SortBy, MapBy, IsTrimmed, ByteLength, HasDistinctKeys;
  }
}

/** When a reported leak can be handed off: the detector's evidence beside the advice. */
module HandoffAdvice {
  import opened Text
  import opened Lists
  import opened Sorting
  import Deals
  import RA = RevenueActions
  import opened LeakCases
  import opened Handoff
  import opened HandoffTheorems
  import DW = DetectorWindow
  import D = Detector

  // ------------------------------------------------------------------ one record read twice

  function StageText(stage: Deals.Stage): string {
    match stage
    case NEW => "NEW"
    case QUALIFIED => "QUALIFIED"
    case CONTACTED => "CONTACTED"
    case REPLIED => "REPLIED"
    case MEETING => "MEETING"
    case PROPOSAL => "PROPOSAL"
    case WON => "WON"
    case LOST => "LOST"
  }

  /** The raw opportunity and the typed one are readings of the same stored record. */
  predicate IsReading(o: D.RawOpportunity, p: Deals.Opportunity) {
    && o.id == D.Text(p.id) && D.NormalizeStage(o.stage) == Some(StageText(p.stage))
    && o.nextAction == if p.nextAction.Some? then D.Text(p.nextAction.value) else D.Null
  }

  predicate IsActivityReading(r: D.RawActivity, v: Deals.Activity) {
    && r.id == D.Text(v.id) && r.kind == D.Text(v.kind) && r.opportunityId == D.Text(v.opportunityId)
    && r.createdAt == D.At(v.createdAt)
  }

  predicate AreReadings(raw: seq<D.RawActivity>, activities: seq<Deals.Activity>) {
    |raw| == |activities| && forall k | 0 <= k < |raw| :: IsActivityReading(raw[k], activities[k])
  }

  function OwnActivity(opportunityId: string): Deals.Activity -> bool {
    (v: Deals.Activity) => v.opportunityId == opportunityId
  }

  /** The evidence that the detector was given is that of the stored opportunity and of its own activities. */
  predicate IsEvidenceOf(o: D.RawOpportunity, raw: seq<D.RawActivity>, s: RA.Store, opportunityId: string) {
    var i := RA.OpportunityIndex(s, opportunityId);
    && i.Some? && IsReading(o, s.opportunities[i.value])
    && AreReadings(raw, Filter(s.activities, OwnActivity(opportunityId)))
  }

  // ------------------------------------------------------------------ own records are enough

  lemma {:induction false} FilterTwice<T>(s: seq<T>, p: T -> bool)
    ensures Filter(Filter(s, p), p) == Filter(s, p)
  {
    if s != [] {
      var n := |s| - 1;
      FilterTwice(s[..n], p);
      assert Filter(s, p) == Filter(s[..n], p) + if p(s[n]) then [s[n]] else [];
      if p(s[n]) {
        FilterAppend(Filter(s[..n], p), s[n], p);
      } else {
        assert Filter(s, p) == Filter(s[..n], p);
      }
    }
  }

  /** The detector sees the same, whether it is given all records or those of the opportunity only. */
  lemma OwnRecordsAreEnough(o: D.RawOpportunity, activities: seq<D.RawActivity>, tasks: seq<D.RawTask>, at: int,
                            hash: Json -> string)
    ensures var id := D.TrimmedText(o.id);
            D.Evaluate(o, Some(Filter(activities, D.ActivityBelongs(id))), Some(Filter(tasks, D.TaskBelongs(id))),
                       at, hash)
            == D.Evaluate(o, Some(activities), Some(tasks), at, hash)
  {
    hide Filter, D.NormalizedActivities, D.NormalizedTasks, D.FactsOf, D.NormalizeStage, D.TrimmedText;
    FilterTwice(activities, D.ActivityBelongs(D.TrimmedText(o.id)));
    FilterTwice(tasks, D.TaskBelongs(D.TrimmedText(o.id)));
  }

  /** So does the advice. */
  lemma {:induction false} LatestOfOwn(activities: seq<Deals.Activity>, opportunityId: string)
    ensures Deals.LatestActivity(Filter(activities, OwnActivity(opportunityId)), opportunityId)
            == Deals.LatestActivity(activities, opportunityId)
  {
    if activities != [] {
      var n := |activities| - 1;
      LatestOfOwn(activities[..n], opportunityId);
      var own := Filter(activities[..n], OwnActivity(opportunityId));
      if OwnActivity(opportunityId)(activities[n]) {
        assert (own + [activities[n]])[..|own|] == own;
      } else {
        assert own + [] == own;
      }
    }
  }

  // ------------------------------------------------------------------ what the same evidence decides

  predicate AgreeOnLatest(a: seq<Deals.Activity>, b: seq<Deals.Activity>, opportunityId: string) {
    var x, y := Deals.LatestActivity(a, opportunityId), Deals.LatestActivity(b, opportunityId);
    && (x.Some? <==> y.Some?)
    && (x.Some? ==> x.value.id == y.value.id && x.value.kind == y.value.kind && x.value.createdAt == y.value.createdAt)
  }

  lemma {:induction false} SameReadingsAgree(raw: seq<D.RawActivity>, a: seq<Deals.Activity>, b: seq<Deals.Activity>,
                                             opportunityId: string)
    requires AreReadings(raw, a) && AreReadings(raw, b)
    ensures AgreeOnLatest(a, b, opportunityId)
  {
    if raw != [] {
      var n := |raw| - 1;
      SameReadingsAgree(raw[..n], a[..n], b[..n], opportunityId);
      assert IsActivityReading(raw[n], a[n]) && IsActivityReading(raw[n], b[n]);
    }
  }

  /** Stores that the same evidence was read from agree on the activity that the advice looks at. */
  lemma SameEvidenceAgrees(o: D.RawOpportunity, raw: seq<D.RawActivity>, s: RA.Store, t: RA.Store,
                           opportunityId: string)
    requires IsEvidenceOf(o, raw, s, opportunityId) && IsEvidenceOf(o, raw, t, opportunityId)
    ensures AgreeOnLatest(s.activities, t.activities, opportunityId)
  {
    hide Filter, FirstIndex, AreReadings, IsReading, Deals.LatestActivity;
    var p := OwnActivity(opportunityId);
    SameReadingsAgree(raw, Filter(s.activities, p), Filter(t.activities, p), opportunityId);
    LatestOfOwn(s.activities, opportunityId);
    LatestOfOwn(t.activities, opportunityId);
  }

  // ------------------------------------------------------------------ two notions of "no next action"

  lemma {:induction false} CollapseKeepsUnspaced(s: string)
    requires forall i | 0 <= i < |CollapseSpaces(s)| :: !IsSpace(CollapseSpaces(s)[i])
    ensures CollapseSpaces(s) == s
  {
    if s != "" {
      var c := CollapseSpaces(s);
      if IsSpace(s[0]) {
        CollapseStartsBlank(s);
        assert IsSpace(c[0]);
        assert false;
      } else {
        assert c == [s[0]] + CollapseSpaces(s[1..]);
        assert forall i | 0 <= i < |CollapseSpaces(s[1..])| :: CollapseSpaces(s[1..])[i] == c[i + 1];
        CollapseKeepsUnspaced(s[1..]);
      }
    }
  }

  lemma {:induction false} CollapseStartsBlank(s: string)
    requires s != "" && IsSpace(s[0])
    ensures CollapseSpaces(s) != "" && CollapseSpaces(s)[0] == ' '
  {
    if |s| > 1 && IsSpace(s[1]) { CollapseStartsBlank(s[1..]); }
  }

  lemma {:induction false} CollapseOfUnspaced(s: string)
    requires forall i | 0 <= i < |s| :: !IsSpace(s[i])
    ensures CollapseSpaces(s) == s
  {
    if s != "" { CollapseOfUnspaced(s[1..]); }
  }

  lemma UnknownIsUnspaced(s: string)
    requires ToLower(s) == "unknown"
    ensures forall i | 0 <= i < |s| :: !IsSpace(s[i])
  {
    forall i | 0 <= i < |s| ensures !IsSpace(s[i]) {
      assert LowerChar(s[i]) == "unknown"[i];
    }
  }

  /** The advice takes a text for no next action when it is blank or says unknown; inner white space does not matter. */
  lemma NoValueIsBlankOrUnknown(text: string)
    ensures !Deals.HasValue(Some(text)) <==> ToLower(NormalizeText(text)) in {"", "unknown"}
  {
    var t := Trim(text);
    CollapsedIsEmpty(t);
    if ToLower(t) == "unknown" {
      UnknownIsUnspaced(t);
      CollapseOfUnspaced(t);
    }
    if ToLower(CollapseSpaces(t)) == "unknown" {
      UnknownIsUnspaced(CollapseSpaces(t));
      CollapseKeepsUnspaced(t);
    }
  }

  /** The texts that the detector takes for no next action, and the advice for one. */
  predicate IsDisputed(nextAction: Option<string>) {
    nextAction.Some? && ToLower(NormalizeText(nextAction.value)) in {"n/a", "na", "not known"}
  }

  /** On evidence of a leak the advice is to define a next action, except where the recorded one is disputed. */
  lemma ReportMeetsAdvice(o: D.RawOpportunity, activities: Option<seq<D.RawActivity>>, tasks: Option<seq<D.RawTask>>,
                          at: int, hash: Json -> string, p: Deals.Opportunity)
    requires D.Evaluate(o, activities, tasks, at, hash).detection.Some? && IsReading(o, p)
    ensures !Deals.HasValue(p.nextAction) <==> !IsDisputed(p.nextAction)
  {
    hide D.Evaluate, D.IsUnknownLiteral, NormalizeText, ToLower, Deals.HasValue;
    DW.NoLeakOtherwise(o, activities, tasks, at, hash);
    NothingRecorded(o, activities, tasks);
    if p.nextAction.Some? {
      NoValueIsBlankOrUnknown(p.nextAction.value);
      UnknownTexts(NormalizeText(p.nextAction.value));
    } else {
      NoneIsNoValue();
    }
  }

  lemma NoneIsNoValue()
    ensures !Deals.HasValue(None)
  {
  }

  lemma UnknownTexts(text: string)
    ensures D.IsUnknownLiteral(text) <==> ToLower(text) in {"unknown", "n/a", "na", "not known"}
    ensures text == "" <==> ToLower(text) == ""
  {
  }

  /** Idle evidence records no next action: none at all, a blank text, or a text that means unknown. */
  lemma NothingRecorded(o: D.RawOpportunity, activities: Option<seq<D.RawActivity>>, tasks: Option<seq<D.RawTask>>)
    requires D.GatherFacts(o, activities, tasks).Gathered? && DW.IsIdle(D.GatherFacts(o, activities, tasks).facts)
    ensures o.nextAction.Null?
            || (o.nextAction.Text?
                && (NormalizeText(o.nextAction.text) == "" || D.IsUnknownLiteral(NormalizeText(o.nextAction.text))))
  {
    hide D.NormalizedActivities, D.NormalizedTasks, D.CanonicalCommercialValue, D.AllTaskStamps, Filter,
      D.NormalizeStage, D.AllActivityStamps, D.Known, D.LatestActivityBaseline, NormalizeText, D.IsUnknownLiteral,
      SortBy, D.ActiveTaskIds;
  }

  // ------------------------------------------------------------------ main result

  lemma AdviceIsCreateTask(s: RA.Store, opportunityId: string, at: int)
    requires RA.OpportunityIndex(s, opportunityId).Some?
    ensures var p := s.opportunities[RA.OpportunityIndex(s, opportunityId).value];
            var b := RA.CurrentBasis(s, opportunityId, None, at);
            b.Some? && (b.value.recommendation.actionType == Deals.CREATE_TASK <==> !Deals.HasValue(p.nextAction))
  {
    hide Deals.HasValue, Deals.LatestActivity, FirstIndex, Deals.IsNotPositive, Deals.FindProspect;
  }

  lemma CreateTaskIsNamed(t: Deals.ActionType)
    ensures RA.TypeName(t) == "CREATE_TASK" <==> t == Deals.CREATE_TASK
  {
    assert "FOLLOW_UP"[0] != "CREATE_TASK"[0] && "RESEARCH"[0] != "CREATE_TASK"[0] && "QUALIFY"[0] != "CREATE_TASK"[0]
        && "ADVANCE"[0] != "CREATE_TASK"[0];
  }

  lemma ExpectedIsCreateTask(c: Content, e: D.Evaluation)
    requires c.leakType == "STALLED_OPPORTUNITY" && c.recommendedActionType == "FOLLOW_UP"
    requires IsReport(e) && e.detection.Some?
    ensures ExpectedType(c, e) == "CREATE_TASK"
  {
    hide SaysNoNextAction;
  }

  /**
   * When a reported leak can be handed off. A case with the meaning of the present report validates exactly when the
   * recorded next action is not one of the texts n/a, na and not known; those are refused as incompatible, because
   * the detector reads them as unknown and the advice does not.
   */
  lemma HandedOffExactlyWhen(s: RA.Store, r: Record, o: D.RawOpportunity, activities: Option<seq<D.RawActivity>>,
                             tasks: Option<seq<D.RawTask>>, hash: Json -> string, detectionId: string,
                             subjectId: string, at: int)
    requires RA.OpportunityIndex(s, r.content.opportunityId).Some?
    requires IsReading(o, s.opportunities[RA.OpportunityIndex(s, r.content.opportunityId).value])
    requires r.content.leakType == "STALLED_OPPORTUNITY" && r.content.recommendedActionType == "FOLLOW_UP"
    requires D.Evaluate(o, activities, tasks, at, hash).detection.Some?
    requires var input := D.Evaluate(o, activities, tasks, at, hash).detection.value;
             var d := BuildDetection(input, detectionId, at, subjectId);
             d.Some? && d.value.content.semanticKey == r.content.semanticKey
    ensures var p := s.opportunities[RA.OpportunityIndex(s, r.content.opportunityId).value];
            Validate(s, r, D.Evaluate(o, activities, tasks, at, hash), detectionId, subjectId, at)
            == if IsDisputed(p.nextAction) then Some(ACTION_INCOMPATIBLE) else None
  {
    hide D.Evaluate, BuildDetection, FirstIndex, RA.CurrentBasis, IsReport, ExpectedType, IsDisputed, Deals.HasValue,
      RA.TypeName;
    var e := D.Evaluate(o, activities, tasks, at, hash);
    var p := s.opportunities[RA.OpportunityIndex(s, r.content.opportunityId).value];
    EvaluationIsReport(o, activities, tasks, at, hash);
    ReportMeetsAdvice(o, activities, tasks, at, hash, p);
    AdviceIsCreateTask(s, r.content.opportunityId, at);
    CreateTaskIsNamed(RA.CurrentBasis(s, r.content.opportunityId, None, at).value.recommendation.actionType);
    ExpectedIsCreateTask(r.content, e);
  }

  // ------------------------------------------------------------------ a concrete refusal

  /** An opportunity in progress without activities whose next action is recorded as n/a. */
  const NOT_APPLICABLE :=
    D.RawOpportunity(true, D.Text("o"), D.Text("NEW"), D.At(0), D.Missing, D.Text("n/a"), D.Null, D.Null)

  lemma PlainTexts()
    ensures Trim("o") == "o" && Trim("NEW") == "NEW" && Trim("n/a") == "n/a"
    ensures NormalizeText("n/a") == "n/a" && ToLower("n/a") == "n/a" && ToUpper("NEW") == "NEW"
            && ToLower("NEW") == "new"
  {
    TrimKeepsTrimmed("o");
    TrimKeepsTrimmed("NEW");
    TrimKeepsTrimmed("n/a");
    CollapseOfUnspaced("n/a");
  }

  lemma NothingNormalized()
    ensures D.NormalizedActivities([]) == D.Good([]) && D.NormalizedTasks([]) == D.Good([])
  {
    assert MapBy([], D.ActivityOf()) == [] && MapBy([], D.TaskOf()) == [];
  }

  lemma NotApplicableFacts()
    ensures var g := D.GatherFacts(NOT_APPLICABLE, Some([]), Some([]));
            && g.Gathered? && DW.IsIdle(g.facts) && g.facts.stamps == [0]
            && DW.StalledSince(g.facts) == D.STALE_AFTER_DAYS * D.DAY
  {
    hide Trim, NormalizeText, ToLower, ToUpper, D.NormalizedActivities, D.NormalizedTasks;
    PlainTexts();
    NothingNormalized();
    assert Filter([], D.ActivityBelongs("o")) == [] && Filter([], D.TaskBelongs("o")) == [];
    assert "new" !in {"unknown", "n/a", "na", "not known"} && "NEW" != "" && "n/a" != "";
    assert D.Known([D.At(0), D.Missing]) == [0];
    assert D.AllActivityStamps([]) == [] && D.AllTaskStamps([]) == [] && [0] + [] + [] == [0];
    assert D.ActiveTaskIds([]) == [] && SortBy([], TextOrder()) == [];
  }

  /** After two weeks it is reported as a leak, and its next action is disputed: the handoff will be refused. */
  lemma NotApplicableIsDisputed(hash: Json -> string)
    ensures D.Evaluate(NOT_APPLICABLE, Some([]), Some([]), D.STALE_AFTER_DAYS * D.DAY, hash).detection.Some?
    ensures IsDisputed(Some("n/a"))
  {
    hide D.Evaluate, D.GatherFacts, NormalizeText, ToLower;
    PlainTexts();
    NotApplicableFacts();
    assert [0][1..] == [] && D.Latest([0]) == Some(0);
    DW.LeakWindow(NOT_APPLICABLE, Some([]), Some([]), D.STALE_AFTER_DAYS * D.DAY, D.STALE_AFTER_DAYS * D.DAY, hash);
  }
}

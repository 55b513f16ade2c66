/** Why evidence is suppressed, told from the stored records. */
module DetectorReasons {
  import opened Text
  import opened Lists
  import opened Sorting
  import opened NumericEvidence
  import opened LeakCases
  import opened Detector
  import opened DetectorEvidence

  // ------------------------------------------------------------------ the opportunity

  /** No stage is recorded: nothing, a blank text, or one that means unknown. */
  predicate LacksStage(o: RawOpportunity) {
    || o.stage.Null?
    || (o.stage.Text?
        && (Trim(o.stage.text) == ""
            || ToLower(ToUpper(Trim(o.stage.text))) in {"unknown", "n/a", "na", "not known"}))
  }

  lemma MissingStage(o: RawOpportunity)
    ensures NormalizeStage(o.stage).None? <==> LacksStage(o)
  {
    hide Trim, ToUpper, ToLower;
    if o.stage.Text? { assert |ToUpper(Trim(o.stage.text))| == |Trim(o.stage.text)|; }
  }

  lemma NextActionReason(value: Raw, tasks: seq<Task>)
    ensures var n := NormalizeNextAction(value, tasks);
            if value.Null? || value.Text? then n.Good? else n == Bad(NEXT_ACTION_EVIDENCE_INVALID)
  {
    hide SortBy, ActiveTaskIds, NormalizeText, IsUnknownLiteral;
  }

  lemma CommercialReason(value: Raw, currency: Raw)
    ensures var r := CanonicalCommercialValue(value, currency);
            r.Bad? ==> r.reason == if currency.Null? || IsCurrency(currency) then COMMERCIAL_VALUE_INVALID
                                   else COMMERCIAL_CURRENCY_INVALID
  {
    hide Trim, ToLower, NormalizeCommercialValue, IsDecimalNumberLiteral, IsNegativeNumberLiteral,
      IsCanonicalNumericLiteralRepresentable;
  }

  // ------------------------------------------------------------------ its records

  /** The own activities are named and of different ids. */
  predicate AreNamedActivities(o: RawOpportunity, records: seq<RawActivity>) {
    && (forall r | r in records && Owns(o, r.opportunityId) :: r.plain && IsNamed(r.id) && IsNamed(r.kind))
    && forall i, j | 0 <= i < j < |records| && Owns(o, records[i].opportunityId) && Owns(o, records[j].opportunityId) ::
         ActivityId()(records[i]) != ActivityId()(records[j])
  }

  predicate AreNamedTasks(o: RawOpportunity, records: seq<RawTask>) {
    && (forall r | r in records && Owns(o, r.opportunityId) :: r.plain && IsNamed(r.id) && IsNamed(r.title))
    && forall i, j | 0 <= i < j < |records| && Owns(o, records[i].opportunityId) && Owns(o, records[j].opportunityId) ::
         TaskId()(records[i]) != TaskId()(records[j])
  }

  predicate HasKnownStatus(r: RawTask) {
    r.status.Text? && ToUpper(Trim(r.status.text)) in {"OPEN", "IN_PROGRESS", "COMPLETED", "CANCELLED"}
  }

  predicate HasGoodTimes(r: RawTask) {
    && r.createdAt.At? && !r.updatedAt.Unreadable? && !r.dueAt.Unreadable? && !r.completedAt.Unreadable?
    && InOrder(r.createdAt, r.updatedAt) && InOrder(r.createdAt, r.completedAt)
  }

  lemma ActivitiesReason(o: RawOpportunity, records: seq<RawActivity>)
    requires o.id.Text?
    ensures var n := NormalizedActivities(Filter(records, ActivityBelongs(Trim(o.id.text))));
            n.Bad? ==> n.reason == if AreNamedActivities(o, records) then CANONICAL_TIMESTAMP_INVALID
                                   else ACTIVITY_EVIDENCE_INVALID
  {
    hide Filter, SortBy, MapBy, Trim;
    var p := ActivityBelongs(Trim(o.id.text));
    DistinctAmongKept(records, p, ActivityId());
    forall r ensures r in Filter(records, p) <==> r in records && Owns(o, r.opportunityId) {
      FilterMembers(records, p, r);
    }
    assert forall i | 0 <= i < |records| :: p(records[i]) <==> Owns(o, records[i].opportunityId);
  }

  lemma SoundAreNamed(o: RawOpportunity, records: seq<RawActivity>)
    requires AreSoundActivities(o, records)
    ensures AreNamedActivities(o, records)
  {
    hide IsNamed, Trim;
  }

  /** The first thing that is wrong with the own tasks of an opportunity. */
  function TasksProblem(o: RawOpportunity, records: seq<RawTask>): Reason {
    if !AreNamedTasks(o, records) then TASK_EVIDENCE_INVALID
    else if exists r | r in records && Owns(o, r.opportunityId) :: !HasKnownStatus(r) then TASK_STATUS_UNRECOGNIZED
    else if exists r | r in records && Owns(o, r.opportunityId) :: !HasGoodTimes(r) then CANONICAL_TIMESTAMP_INVALID
    else TASK_EVIDENCE_INVALID
  }

  lemma TasksReason(o: RawOpportunity, records: seq<RawTask>)
    requires o.id.Text?
    ensures var n := NormalizedTasks(Filter(records, TaskBelongs(Trim(o.id.text))));
            n.Bad? ==> n.reason == TasksProblem(o, records)
  {
    hide Filter, SortBy, MapBy, Trim, ToUpper;
    var p := TaskBelongs(Trim(o.id.text));
    DistinctAmongKept(records, p, TaskId());
    forall r ensures r in Filter(records, p) <==> r in records && Owns(o, r.opportunityId) {
      FilterMembers(records, p, r);
    }
    assert forall i | 0 <= i < |records| :: p(records[i]) <==> Owns(o, records[i].opportunityId);
  }

  // ------------------------------------------------------------------ main result

  /** The first thing that is wrong with evidence that is not sound. */
  ghost function Problem(o: RawOpportunity, activities: seq<RawActivity>, tasks: seq<RawTask>): Reason {
    if !o.plain || !IsNamed(o.id) then OPPORTUNITY_EVIDENCE_INVALID
    else if LacksStage(o) then OPPORTUNITY_STAGE_MISSING
    else if !IsInProgress(o) && !IsOver(o) then OPPORTUNITY_STAGE_UNRECOGNIZED
    else if !AreNamedActivities(o, activities) then ACTIVITY_EVIDENCE_INVALID
    else if !AreSoundActivities(o, activities) then CANONICAL_TIMESTAMP_INVALID
    else if !AreSoundTasks(o, tasks) then TasksProblem(o, tasks)
    else if o.createdAt.Unreadable? || o.updatedAt.Unreadable? || !InOrder(o.createdAt, o.updatedAt) then
      CANONICAL_TIMESTAMP_INVALID
    else if !o.nextAction.Null? && !o.nextAction.Text? then NEXT_ACTION_EVIDENCE_INVALID
    else if !o.currency.Null? && !IsCurrency(o.currency) then COMMERCIAL_CURRENCY_INVALID
    else COMMERCIAL_VALUE_INVALID
  }

  lemma FactsReason(o: RawOpportunity, id: string, stage: string, activities: Checked<seq<Activity>>,
                    tasks: Checked<seq<Task>>)
    ensures var r := FactsOf(o, id, stage, activities, tasks);
            r.Gathered? || r == Suppressed(DATA_HEALTH_SUPPRESSED,
              if activities.Bad? then activities.reason else if tasks.Bad? then tasks.reason
              else if o.createdAt.Unreadable? || o.updatedAt.Unreadable? || !InOrder(o.createdAt, o.updatedAt) then
                CANONICAL_TIMESTAMP_INVALID
              else if !o.nextAction.Null? && !o.nextAction.Text? then NEXT_ACTION_EVIDENCE_INVALID
              else if !o.currency.Null? && !IsCurrency(o.currency) then COMMERCIAL_CURRENCY_INVALID
              else COMMERCIAL_VALUE_INVALID)
  {
    hide CanonicalCommercialValue, Known, AllActivityStamps, AllTaskStamps, IsCurrency, NormalizeNextAction;
    CommercialReason(o.value, o.currency);
    CommercialExactly(o.value, o.currency);
    if tasks.Good? { NextActionReason(o.nextAction, tasks.value); }
  }

  /**
   * Evidence that is not sound gives no detection. It is insufficient when a named opportunity has no stage, and
   * otherwise suppressed for data health, for the first thing that is wrong with it.
   */
  lemma SuppressedExactlyWhen(o: RawOpportunity, activities: seq<RawActivity>, tasks: seq<RawTask>, at: int,
                              hash: Json -> string)
    requires !IsSoundOpportunity(o) || !AreSoundActivities(o, activities) || !AreSoundTasks(o, tasks)
    ensures var e := Evaluate(o, Some(activities), Some(tasks), at, hash);
            && e.detection.None? && e.evidence == map[] && e.reason == Problem(o, activities, tasks)
            && e.outcome == if o.plain && IsNamed(o.id) && LacksStage(o) then INSUFFICIENT_EVIDENCE
                            else DATA_HEALTH_SUPPRESSED
  {
    hide NormalizedActivities, NormalizedTasks, Filter, FactsOf, Trim, AreSoundActivities, AreSoundTasks, IsCurrency,
      NormalizeStage, IsInProgress, IsOver, IsActiveStage, IsClosedStage, LacksStage, TasksProblem, AreNamedActivities,
      IsSoundOpportunity;
    GatheredExactlyWhen(o, activities, tasks);
    MissingStage(o);
    StageExactly(o);
    if o.id.Text? {
      var id := Trim(o.id.text);
      ActivitiesExactly(o, activities);
      TasksExactly(o, tasks);
      ActivitiesReason(o, activities);
      if AreSoundActivities(o, activities) { SoundAreNamed(o, activities); }
      TasksReason(o, tasks);
      FactsReason(o, id, if NormalizeStage(o.stage).Some? then NormalizeStage(o.stage).value else "",
        NormalizedActivities(Filter(activities, ActivityBelongs(id))), NormalizedTasks(Filter(tasks, TaskBelongs(id))));
    }
  }

  /** Without lists of activities and tasks a sound opportunity is suppressed for the one that is missing first. */
  lemma ListsAreNeeded(o: RawOpportunity, activities: Option<seq<RawActivity>>, tasks: Option<seq<RawTask>>, at: int,
                       hash: Json -> string)
    requires IsSoundOpportunity(o) && (activities.None? || tasks.None?)
    ensures var e := Evaluate(o, activities, tasks, at, hash);
            && e.outcome == DATA_HEALTH_SUPPRESSED && e.detection.None? && e.evidence == map[]
            && e.reason == if activities.None? then ACTIVITY_EVIDENCE_INVALID else TASK_EVIDENCE_INVALID
  {
    hide NormalizedActivities, NormalizedTasks, Filter, FactsOf, Trim, IsCurrency, SaysNoValue, IsAmount,
      NormalizeStage, IsInProgress, IsOver, IsActiveStage, IsClosedStage;
    StageExactly(o);
  }
}

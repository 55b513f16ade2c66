/** What the detector decides, told from the stored records alone. */
module DetectorEvidence {
  import opened Text
  import opened Lists
  import opened Sorting
  import opened NumericEvidence
  import opened DecimalValue
  import opened DecimalExact
  import DP = DecimalPrinting
  import opened LeakCases
  import opened Detector
  import opened DetectorWindow

  // ------------------------------------------------------------------ the records of an opportunity

  predicate Owns(o: RawOpportunity, opportunityId: Raw) {
    opportunityId.Text? && o.id.Text? && opportunityId.text == Trim(o.id.text)
  }

  /** A next action is recorded: a text that is neither blank nor one that means unknown. */
  predicate RecordsNextAction(o: RawOpportunity) {
    && o.nextAction.Text? && Trim(o.nextAction.text) != ""
    && ToLower(NormalizeText(o.nextAction.text)) !in {"unknown", "n/a", "na", "not known"}
  }

  /** A task of the opportunity that is still to be done. */
  predicate IsToDo(o: RawOpportunity, r: RawTask) {
    Owns(o, r.opportunityId) && r.status.Text? && ToUpper(Trim(r.status.text)) in {"OPEN", "IN_PROGRESS"}
  }

  predicate IsPlanned(o: RawOpportunity, tasks: seq<RawTask>) {
    RecordsNextAction(o) || exists r | r in tasks :: IsToDo(o, r)
  }

  /** One of the times that the source carries; the due times of tasks are none. */
  predicate IsSourceTime(o: RawOpportunity, activities: seq<RawActivity>, tasks: seq<RawTask>, t: int) {
    || o.createdAt == At(t) || o.updatedAt == At(t)
    || (exists r | r in activities :: Owns(o, r.opportunityId) && (r.createdAt == At(t) || r.updatedAt == At(t)))
    || (exists r | r in tasks ::
          Owns(o, r.opportunityId) && (r.createdAt == At(t) || r.updatedAt == At(t) || r.completedAt == At(t)))
  }

  /** The last sign of life: the newest creation of an own activity, or without any the opportunity's own creation. */
  predicate IsBaseline(o: RawOpportunity, activities: seq<RawActivity>, b: int) {
    if exists r | r in activities :: Owns(o, r.opportunityId) then
      && (exists r | r in activities :: Owns(o, r.opportunityId) && r.createdAt == At(b))
      && (forall r | r in activities && Owns(o, r.opportunityId) && r.createdAt.At? :: r.createdAt.ms <= b)
    else o.createdAt == At(b)
  }

  predicate IsInProgress(o: RawOpportunity) {
    && o.stage.Text?
    && ToUpper(Trim(o.stage.text)) in {"NEW", "QUALIFIED", "CONTACTED", "REPLIED", "MEETING", "PROPOSAL"}
  }

  predicate IsOver(o: RawOpportunity) {
    o.stage.Text? && ToUpper(Trim(o.stage.text)) in {"WON", "LOST"}
  }

  // ------------------------------------------------------------------ normalised members

  lemma {:induction false} MapMembers<T, U>(s: seq<T>, f: T -> U, y: U)
    ensures y in MapBy(s, f) <==> exists x | x in s :: f(x) == y
  {
    if s != [] {
      MapMembers(s[..|s| - 1], f, y);
      assert s == s[..|s| - 1] + [s[|s| - 1]];
    }
  }

  /** The normalised activities are those of the own records, one for one. */
  lemma ActivityMembers(records: seq<RawActivity>, id: string, a: Activity)
    requires NormalizedActivities(Filter(records, ActivityBelongs(id))).Good?
    ensures a in NormalizedActivities(Filter(records, ActivityBelongs(id))).value <==>
            exists r | r in records :: r.opportunityId == Text(id) && ActivityOf()(r) == a
  {
    hide Filter, SortBy, MapBy;
    var own := Filter(records, ActivityBelongs(id));
    SortIsPermutation(MapBy(own, ActivityOf()), ActivityOrder());
    SameMembers(SortBy(MapBy(own, ActivityOf()), ActivityOrder()), MapBy(own, ActivityOf()));
    MapMembers(own, ActivityOf(), a);
    forall r ensures r in own <==> r in records && r.opportunityId == Text(id) {
      FilterMembers(records, ActivityBelongs(id), r);
    }
  }

  lemma TaskMembers(records: seq<RawTask>, id: string, t: Task)
    requires NormalizedTasks(Filter(records, TaskBelongs(id))).Good?
    ensures t in NormalizedTasks(Filter(records, TaskBelongs(id))).value <==>
            exists r | r in records :: r.opportunityId == Text(id) && TaskOf()(r) == t
  {
    hide Filter, SortBy, MapBy;
    var own := Filter(records, TaskBelongs(id));
    SortIsPermutation(MapBy(own, TaskOf()), TaskOrder());
    SameMembers(SortBy(MapBy(own, TaskOf()), TaskOrder()), MapBy(own, TaskOf()));
    MapMembers(own, TaskOf(), t);
    forall r ensures r in own <==> r in records && r.opportunityId == Text(id) {
      FilterMembers(records, TaskBelongs(id), r);
    }
  }

  /** Own records that pass have readable times and a known status. */
  lemma SoundActivities(records: seq<RawActivity>, id: string)
    requires NormalizedActivities(Filter(records, ActivityBelongs(id))).Good?
    ensures forall r | r in records && r.opportunityId == Text(id) :: r.createdAt.At? && !r.updatedAt.Unreadable?
  {
    hide Filter, SortBy, MapBy;
    forall r ensures r in Filter(records, ActivityBelongs(id)) <==> r in records && r.opportunityId == Text(id) {
      FilterMembers(records, ActivityBelongs(id), r);
    }
  }

  lemma SoundTasks(records: seq<RawTask>, id: string)
    requires NormalizedTasks(Filter(records, TaskBelongs(id))).Good?
    ensures forall r | r in records && r.opportunityId == Text(id) ::
              r.createdAt.At? && !r.updatedAt.Unreadable? && !r.completedAt.Unreadable? && r.status.Text? && r.id.Text?
  {
    hide Filter, SortBy, MapBy;
    forall r ensures r in Filter(records, TaskBelongs(id)) <==> r in records && r.opportunityId == Text(id) {
      FilterMembers(records, TaskBelongs(id), r);
    }
  }

  lemma {:induction false} ActiveTaskMembers(tasks: seq<Task>, id: string)
    ensures id in ActiveTaskIds(tasks) <==>
            exists t | t in tasks :: t.id == id && t.status in {"OPEN", "IN_PROGRESS"}
  {
    if tasks != [] {
      ActiveTaskMembers(tasks[1..], id);
      assert tasks == [tasks[0]] + tasks[1..];
    }
  }

  lemma GatheredParts(o: RawOpportunity, activities: seq<RawActivity>, tasks: seq<RawTask>)
    requires GatherFacts(o, Some(activities), Some(tasks)).Gathered?
    ensures o.id.Text?
    ensures var id := Trim(o.id.text); var f := GatherFacts(o, Some(activities), Some(tasks)).facts;
            var a := NormalizedActivities(Filter(activities, ActivityBelongs(id)));
            var t := NormalizedTasks(Filter(tasks, TaskBelongs(id)));
            && a.Good? && t.Good? && f.activities == a.value && f.entityId == id && f.created == o.createdAt
            && NormalizeNextAction(o.nextAction, t.value) == Good(f.nextAction)
            && NormalizeStage(o.stage) == Some(f.stage)
            && CanonicalCommercialValue(o.value, o.currency) == Good(f.commercial)
            && f.stamps == Known([o.createdAt, o.updatedAt]) + AllActivityStamps(a.value) + AllTaskStamps(t.value)
  {
    hide NormalizedActivities, NormalizedTasks, Filter, NormalizeNextAction, CanonicalCommercialValue, Known,
      AllActivityStamps, AllTaskStamps, NormalizeStage;
  }

  // ------------------------------------------------------------------ what is planned

  /** The ids of the active tasks are those of the raw tasks to do. */
  lemma ToDoIds(o: RawOpportunity, tasks: seq<RawTask>, id: string)
    requires o.id.Text? && NormalizedTasks(Filter(tasks, TaskBelongs(Trim(o.id.text)))).Good?
    ensures var t := NormalizedTasks(Filter(tasks, TaskBelongs(Trim(o.id.text)))).value;
            id in ActiveTaskIds(t) <==> exists r | r in tasks :: IsToDo(o, r) && r.id.Text? && Trim(r.id.text) == id
  {
    hide NormalizedTasks, Filter, CollapseSpaces, ToUpper, Trim;
    var own := Trim(o.id.text);
    var t := NormalizedTasks(Filter(tasks, TaskBelongs(own))).value;
    SoundTasks(tasks, own);
    ActiveTaskMembers(t, id);
    if id in ActiveTaskIds(t) {
      var x :| x in t && x.id == id && x.status in {"OPEN", "IN_PROGRESS"};
      TaskMembers(tasks, own, x);
      var r :| r in tasks && r.opportunityId == Text(own) && TaskOf()(r) == x;
      assert IsToDo(o, r) && Trim(r.id.text) == id;
    }
    if r :| r in tasks && IsToDo(o, r) && r.id.Text? && Trim(r.id.text) == id {
      TaskMembers(tasks, own, TaskOf()(r));
      assert TaskOf()(r).id == id && TaskOf()(r).status in {"OPEN", "IN_PROGRESS"};
    }
  }

  lemma RecordedText(text: string)
    ensures NormalizeText(text) == "" <==> Trim(text) == ""
    ensures IsUnknownLiteral(text) <==> ToLower(text) in {"unknown", "n/a", "na", "not known"}
  {
    BlankNormalizes(text);
  }

  lemma NextActionParts(value: Raw, tasks: seq<Task>)
    requires NormalizeNextAction(value, tasks).Good?
    ensures var n := NormalizeNextAction(value, tasks).value;
            && n.taskIds == SortBy(ActiveTaskIds(tasks), TextOrder())
            && (n.present <==> n.value.Some? || n.taskIds != [])
            && (n.value.Some? <==> value.Text? && NormalizeText(value.text) != ""
                                   && !IsUnknownLiteral(NormalizeText(value.text)))
            && (n.value.Some? ==> n.value.value == NormalizeText(value.text))
            && n.source == if n.value.Some? then "OPPORTUNITY" else if n.taskIds != [] then "TASK" else "NONE"
  {
    hide SortBy, NormalizeText, IsUnknownLiteral, ActiveTaskIds;
  }

  /** Something is planned exactly when the records say so, and the tasks named are those to do. */
  lemma PlannedExactlyWhen(o: RawOpportunity, activities: seq<RawActivity>, tasks: seq<RawTask>)
    requires GatherFacts(o, Some(activities), Some(tasks)).Gathered?
    ensures var n := GatherFacts(o, Some(activities), Some(tasks)).facts.nextAction;
            && (n.present <==> IsPlanned(o, tasks))
            && (n.value.Some? <==> RecordsNextAction(o))
            && (RecordsNextAction(o) ==> n.value == Some(NormalizeText(o.nextAction.text)))
            && n.source == (if RecordsNextAction(o) then "OPPORTUNITY" else if n.present then "TASK" else "NONE")
            && forall id :: id in n.taskIds <==>
                 exists r | r in tasks :: IsToDo(o, r) && r.id.Text? && Trim(r.id.text) == id
  {
    hide GatherFacts, NormalizedTasks, NormalizedActivities, SortBy, NormalizeText, Trim, Filter, ActiveTaskIds,
      IsUnknownLiteral, ToLower, IsToDo, NormalizeNextAction, AllTaskStamps, AllActivityStamps, Known;
    var n := GatherFacts(o, Some(activities), Some(tasks)).facts.nextAction;
    GatheredParts(o, activities, tasks);
    var t := NormalizedTasks(Filter(tasks, TaskBelongs(Trim(o.id.text)))).value;
    NextActionParts(o.nextAction, t);
    if o.nextAction.Text? {
      RecordedText(o.nextAction.text);
      RecordedText(NormalizeText(o.nextAction.text));
    }
    SortIsPermutation(ActiveTaskIds(t), TextOrder());
    SameMembers(n.taskIds, ActiveTaskIds(t));
    forall id
      ensures id in n.taskIds <==> exists r | r in tasks :: IsToDo(o, r) && r.id.Text? && Trim(r.id.text) == id
    {
      ToDoIds(o, tasks, id);
    }
    SoundToDo(o, tasks);
    if n.taskIds != [] { assert n.taskIds[0] in n.taskIds; }
    if r :| r in tasks && IsToDo(o, r) { assert Trim(r.id.text) in n.taskIds; }
  }

  lemma SoundToDo(o: RawOpportunity, tasks: seq<RawTask>)
    requires o.id.Text? && NormalizedTasks(Filter(tasks, TaskBelongs(Trim(o.id.text)))).Good?
    ensures forall r | r in tasks && IsToDo(o, r) :: r.id.Text?
  {
    hide NormalizedTasks, Filter;
    SoundTasks(tasks, Trim(o.id.text));
  }

  // ------------------------------------------------------------------ source times and baseline

  lemma {:induction false} KnownMembers(stamps: seq<Stamp>, t: int)
    ensures t in Known(stamps) <==> At(t) in stamps
  {
    if stamps != [] {
      KnownMembers(stamps[1..], t);
      assert stamps == [stamps[0]] + stamps[1..];
    }
  }

  lemma {:induction false} ActivityStampMembers(activities: seq<Activity>, t: int)
    ensures t in AllActivityStamps(activities) <==>
            exists a | a in activities :: a.createdAt == t || a.updatedAt == Some(t)
  {
    if activities != [] {
      ActivityStampMembers(activities[1..], t);
      assert activities == [activities[0]] + activities[1..];
    }
  }

  lemma {:induction false} TaskStampMembers(tasks: seq<Task>, t: int)
    ensures t in AllTaskStamps(tasks) <==>
            exists k | k in tasks :: k.createdAt == t || k.updatedAt == Some(t) || k.completedAt == Some(t)
  {
    if tasks != [] {
      TaskStampMembers(tasks[1..], t);
      assert tasks == [tasks[0]] + tasks[1..];
    }
  }

  lemma ActivityTimes(records: seq<RawActivity>, id: string, t: int)
    requires NormalizedActivities(Filter(records, ActivityBelongs(id))).Good?
    ensures t in AllActivityStamps(NormalizedActivities(Filter(records, ActivityBelongs(id))).value) <==>
            exists r | r in records :: r.opportunityId == Text(id) && (r.createdAt == At(t) || r.updatedAt == At(t))
  {
    hide NormalizedActivities, Filter, AllActivityStamps;
    var a := NormalizedActivities(Filter(records, ActivityBelongs(id))).value;
    SoundActivities(records, id);
    ActivityStampMembers(a, t);
    forall x ensures x in a <==> exists r | r in records :: r.opportunityId == Text(id) && ActivityOf()(r) == x {
      ActivityMembers(records, id, x);
    }
    if r :| r in records && r.opportunityId == Text(id) && (r.createdAt == At(t) || r.updatedAt == At(t)) {
      assert ActivityOf()(r) in a;
    }
  }

  lemma TaskTimes(records: seq<RawTask>, id: string, t: int)
    requires NormalizedTasks(Filter(records, TaskBelongs(id))).Good?
    ensures t in AllTaskStamps(NormalizedTasks(Filter(records, TaskBelongs(id))).value) <==>
            exists r | r in records ::
              r.opportunityId == Text(id) && (r.createdAt == At(t) || r.updatedAt == At(t) || r.completedAt == At(t))
  {
    hide NormalizedTasks, Filter, AllTaskStamps, CollapseSpaces, Trim, ToUpper;
    var k := NormalizedTasks(Filter(records, TaskBelongs(id))).value;
    SoundTasks(records, id);
    TaskStampMembers(k, t);
    forall x ensures x in k <==> exists r | r in records :: r.opportunityId == Text(id) && TaskOf()(r) == x {
      TaskMembers(records, id, x);
    }
    if r :| r in records && r.opportunityId == Text(id)
            && (r.createdAt == At(t) || r.updatedAt == At(t) || r.completedAt == At(t))
    {
      assert TaskOf()(r) in k;
    }
  }

  lemma SourceTimes(o: RawOpportunity, activities: seq<RawActivity>, tasks: seq<RawTask>, t: int)
    requires GatherFacts(o, Some(activities), Some(tasks)).Gathered?
    ensures t in GatherFacts(o, Some(activities), Some(tasks)).facts.stamps <==> IsSourceTime(o, activities, tasks, t)
  {
    hide GatherFacts, NormalizedTasks, NormalizedActivities, Filter, Known, AllActivityStamps, AllTaskStamps,
      NormalizeNextAction, NormalizeStage, CanonicalCommercialValue;
    GatheredParts(o, activities, tasks);
    KnownMembers([o.createdAt, o.updatedAt], t);
    ActivityTimes(activities, Trim(o.id.text), t);
    TaskTimes(tasks, Trim(o.id.text), t);
  }

  lemma BaselineExactly(o: RawOpportunity, activities: seq<RawActivity>, tasks: seq<RawTask>, b: int)
    requires GatherFacts(o, Some(activities), Some(tasks)).Gathered?
    ensures var f := GatherFacts(o, Some(activities), Some(tasks)).facts;
            var baseline := LatestActivityBaseline(f.activities, f.created);
            baseline.Some? && baseline.value.at == b <==> IsBaseline(o, activities, b)
  {
    hide GatherFacts, NormalizedTasks, NormalizedActivities, Filter, Known, AllActivityStamps, AllTaskStamps,
      NormalizeNextAction, NormalizeStage, CanonicalCommercialValue, LatestActivityBaseline, Trim;
    GatheredParts(o, activities, tasks);
    var id := Trim(o.id.text);
    var f := GatherFacts(o, Some(activities), Some(tasks)).facts;
    SoundActivities(activities, id);
    forall x
      ensures x in f.activities <==>
              exists r | r in activities :: Owns(o, r.opportunityId) && ActivityOf()(r) == x
    {
      ActivityMembers(activities, id, x);
    }
    forall r | r in activities && Owns(o, r.opportunityId) ensures ActivityOf()(r) in f.activities {
    }
    if f.activities == [] {
      NoActivityBaseline(f.created);
    } else {
      assert f.activities[0] in f.activities;
      NewestActivity(f.activities, f.created);
    }
  }

  lemma NoActivityBaseline(created: Stamp)
    ensures var baseline := LatestActivityBaseline([], created);
            if created.At? then baseline == Some(Baseline("OPPORTUNITY_CREATED", None, created.ms)) else baseline.None?
  {
  }

  predicate HeadIsNewest(activities: seq<Activity>) {
    activities != [] && forall a | a in activities :: a.createdAt <= activities[0].createdAt
  }

  lemma {:induction false} InsertKeepsNewest(x: Activity, s: seq<Activity>)
    requires s != [] ==> HeadIsNewest(s)
    ensures HeadIsNewest(Insert(x, s, NewerActivity()))
  {
    if s != [] && NewerActivity()(x, s[|s| - 1]) {
      var front := s[..|s| - 1];
      InsertKeepsNewest(x, front);
      InsertIsPermutation(x, front, NewerActivity());
      var r := Insert(x, front, NewerActivity());
      assert x in multiset(r) && x in r;
      if front != [] { assert s[0] in multiset(r) && s[0] in r; }
    }
  }

  lemma {:induction false} SortedHeadIsNewest(s: seq<Activity>)
    requires s != []
    ensures HeadIsNewest(SortBy(s, NewerActivity()))
  {
    hide Insert, HeadIsNewest;
    if |s| > 1 { SortedHeadIsNewest(s[..|s| - 1]); }
    InsertKeepsNewest(s[|s| - 1], SortBy(s[..|s| - 1], NewerActivity()));
  }

  lemma NewestActivity(activities: seq<Activity>, created: Stamp)
    requires activities != []
    ensures var baseline := LatestActivityBaseline(activities, created);
            && baseline.Some?
            && (exists a | a in activities :: a.createdAt == baseline.value.at)
            && (forall a | a in activities :: a.createdAt <= baseline.value.at)
  {
    hide SortBy;
    var sorted := SortBy(activities, NewerActivity());
    SortedHeadIsNewest(activities);
    SortIsPermutation(activities, NewerActivity());
    SameMembers(sorted, activities);
    assert sorted[0] in sorted;
  }

  // ------------------------------------------------------------------ main results

  /** The source has a baseline, nothing of it lies in the future, and some of it is at most ninety days old. */
  ghost predicate IsEligible(o: RawOpportunity, activities: seq<RawActivity>, tasks: seq<RawTask>, at: int) {
    && (exists b :: IsBaseline(o, activities, b))
    && (forall t :: IsSourceTime(o, activities, tasks, t) ==> t <= at)
    && (exists t :: IsSourceTime(o, activities, tasks, t) && at <= t + 90 * 86_400_000)
  }

  /** Fourteen days have passed since the baseline. */
  ghost predicate IsStalled(o: RawOpportunity, activities: seq<RawActivity>, at: int) {
    exists b :: IsBaseline(o, activities, b) && b + 14 * 86_400_000 <= at
  }

  /** The decisions read off the facts. */
  lemma JudgedExactlyWhen(f: Facts, at: int, hash: Json -> string)
    requires IsActiveStage(f.stage) != IsClosedStage(f.stage)
    ensures var e := Judge(f, at, hash); var b := LatestActivityBaseline(f.activities, f.created);
            var eligible := b.Some? && f.stamps != [] && (forall t | t in f.stamps :: t <= at)
                            && (exists t | t in f.stamps :: at <= t + 90 * 86_400_000);
            var stalled := b.Some? && b.value.at + 14 * 86_400_000 <= at;
            && (e.detection.Some? <==> e.outcome == ELIGIBLE_LEAK_DETECTED)
            && (e.reason == STALE_WITHOUT_NEXT_ACTION <==> e.outcome == ELIGIBLE_LEAK_DETECTED)
            && (e.outcome == ELIGIBLE_LEAK_DETECTED <==>
                  eligible && IsActiveStage(f.stage) && stalled && !f.nextAction.present)
            && (e.reason == NEXT_ACTION_PRESENT <==>
                  eligible && IsActiveStage(f.stage) && stalled && f.nextAction.present)
            && (e.reason == RECENT_MEANINGFUL_ACTIVITY <==> eligible && IsActiveStage(f.stage) && !stalled)
            && (e.reason == OPPORTUNITY_CLOSED <==> eligible && IsClosedStage(f.stage))
            && (e.outcome == ELIGIBLE_NO_LEAK <==>
                  e.reason in {NEXT_ACTION_PRESENT, RECENT_MEANINGFUL_ACTIVITY, OPPORTUNITY_CLOSED})
            && (e.reason == CANONICAL_TIMESTAMP_IN_FUTURE <==> exists t | t in f.stamps :: at < t)
            && (e.reason == MEANINGFUL_ACTIVITY_BASELINE_MISSING <==>
                  (b.None? || f.stamps == []) && forall t | t in f.stamps :: t <= at)
  {
    hide LatestActivityBaseline, EvidenceOf, DetectionOf, IsActiveStage, IsClosedStage, Latest;
    LatestIsMaximum(f.stamps);
  }

  lemma StageIsTold(o: RawOpportunity, stage: string)
    requires NormalizeStage(o.stage) == Some(stage) && (IsActiveStage(stage) || IsClosedStage(stage))
    ensures IsInProgress(o) <==> IsActiveStage(stage)
    ensures IsOver(o) <==> IsClosedStage(stage)
    ensures IsActiveStage(stage) != IsClosedStage(stage)
  {
    hide Trim, ToUpper, ToLower;
  }

  lemma GatheredStage(o: RawOpportunity, activities: seq<RawActivity>, tasks: seq<RawTask>)
    requires GatherFacts(o, Some(activities), Some(tasks)).Gathered?
    ensures var f := GatherFacts(o, Some(activities), Some(tasks)).facts;
            IsActiveStage(f.stage) || IsClosedStage(f.stage)
  {
    hide NormalizedActivities, NormalizedTasks, Filter, NormalizeNextAction, CanonicalCommercialValue, Known,
      AllActivityStamps, AllTaskStamps, NormalizeStage;
  }

  /** The clock of the facts is that of the records. */
  lemma ClockIsTold(o: RawOpportunity, activities: seq<RawActivity>, tasks: seq<RawTask>, at: int)
    requires GatherFacts(o, Some(activities), Some(tasks)).Gathered?
    ensures var f := GatherFacts(o, Some(activities), Some(tasks)).facts;
            var b := LatestActivityBaseline(f.activities, f.created);
            && (IsEligible(o, activities, tasks, at) <==>
                  b.Some? && f.stamps != [] && (forall t | t in f.stamps :: t <= at)
                  && exists t | t in f.stamps :: at <= t + 90 * 86_400_000)
            && (b.Some? && b.value.at + 14 * 86_400_000 <= at <==> IsStalled(o, activities, at))
            && ((b.None? || f.stamps == []) <==> !(exists x :: IsBaseline(o, activities, x)))
            && (forall t :: t in f.stamps <==> IsSourceTime(o, activities, tasks, t))
  {
    hide GatherFacts, IsSourceTime, IsBaseline, LatestActivityBaseline;
    var f := GatherFacts(o, Some(activities), Some(tasks)).facts;
    forall t ensures t in f.stamps <==> IsSourceTime(o, activities, tasks, t) {
      SourceTimes(o, activities, tasks, t);
    }
    var b := LatestActivityBaseline(f.activities, f.created);
    forall x ensures b.Some? && b.value.at == x <==> IsBaseline(o, activities, x) {
      BaselineExactly(o, activities, tasks, x);
    }
    BaselineIsStamp(o, Some(activities), Some(tasks));
    if b.Some? { assert IsBaseline(o, activities, b.value.at); }
  }

  /**
   * What the detector answers on sound evidence, told from the stored records: each reason exactly when it applies, and
   * a leak exactly when an eligible opportunity in progress is stalled and nothing is planned.
   */
  lemma DecidedExactlyWhen(o: RawOpportunity, activities: seq<RawActivity>, tasks: seq<RawTask>, at: int,
                           hash: Json -> string)
    requires GatherFacts(o, Some(activities), Some(tasks)).Gathered?
    ensures var e := Evaluate(o, Some(activities), Some(tasks), at, hash);
            var eligible := IsEligible(o, activities, tasks, at);
            var stalled := IsStalled(o, activities, at);
            && (e.detection.Some? <==> e.outcome == ELIGIBLE_LEAK_DETECTED)
            && (e.reason == STALE_WITHOUT_NEXT_ACTION <==> e.outcome == ELIGIBLE_LEAK_DETECTED)
            && (e.outcome == ELIGIBLE_LEAK_DETECTED <==>
                  eligible && IsInProgress(o) && stalled && !IsPlanned(o, tasks))
            && (e.reason == NEXT_ACTION_PRESENT <==> eligible && IsInProgress(o) && stalled && IsPlanned(o, tasks))
            && (e.reason == RECENT_MEANINGFUL_ACTIVITY <==> eligible && IsInProgress(o) && !stalled)
            && (e.reason == OPPORTUNITY_CLOSED <==> eligible && IsOver(o))
            && (e.outcome == ELIGIBLE_NO_LEAK <==>
                  e.reason in {NEXT_ACTION_PRESENT, RECENT_MEANINGFUL_ACTIVITY, OPPORTUNITY_CLOSED})
            && (e.reason == CANONICAL_TIMESTAMP_IN_FUTURE <==>
                  exists t :: IsSourceTime(o, activities, tasks, t) && at < t)
            && (e.reason == MEANINGFUL_ACTIVITY_BASELINE_MISSING <==>
                  !(exists b :: IsBaseline(o, activities, b))
                  && forall t :: IsSourceTime(o, activities, tasks, t) ==> t <= at)
  {
    hide GatherFacts, Judge, IsSourceTime, IsBaseline, IsPlanned, IsInProgress, IsOver, LatestActivityBaseline,
      IsActiveStage, IsClosedStage, IsEligible, IsStalled;
    var f := GatherFacts(o, Some(activities), Some(tasks)).facts;
    GatheredStage(o, activities, tasks);
    GatheredParts(o, activities, tasks);
    StageIsTold(o, f.stage);
    JudgedExactlyWhen(f, at, hash);
    PlannedExactlyWhen(o, activities, tasks);
    ClockIsTold(o, activities, tasks, at);
  }

  lemma JudgedDetection(f: Facts, at: int, hash: Json -> string)
    requires Judge(f, at, hash).detection.Some?
    ensures var d := Judge(f, at, hash).detection.value;
            && d.entityId == f.entityId && d.recommendedActionType == "FOLLOW_UP" && d.value == f.commercial.value
            && d.leakType == "STALLED_OPPORTUNITY" && d.detectorId == "stalled-opportunity" && d.detectorVersion == "1"
            && d.reasonCode == "STALE_WITHOUT_NEXT_ACTION"
            && d.observedAt in f.stamps && d.observedAt <= at && forall t | t in f.stamps :: t <= d.observedAt
  {
    hide LatestActivityBaseline, EvidenceOf, SourceBasis, Latest;
    LatestIsMaximum(f.stamps);
  }

  /** A leak is reported of the opportunity itself, as observed at the newest of its source times. */
  lemma DetectionTells(o: RawOpportunity, activities: seq<RawActivity>, tasks: seq<RawTask>, at: int,
                       hash: Json -> string)
    requires Evaluate(o, Some(activities), Some(tasks), at, hash).detection.Some?
    ensures var d := Evaluate(o, Some(activities), Some(tasks), at, hash).detection.value;
            && o.id.Text? && d.entityId == Trim(o.id.text) && d.recommendedActionType == "FOLLOW_UP"
            && d.leakType == "STALLED_OPPORTUNITY" && d.detectorId == "stalled-opportunity" && d.detectorVersion == "1"
            && d.reasonCode == "STALE_WITHOUT_NEXT_ACTION"
            && IsSourceTime(o, activities, tasks, d.observedAt) && d.observedAt <= at
            && (forall t :: IsSourceTime(o, activities, tasks, t) ==> t <= d.observedAt)
            && CanonicalCommercialValue(o.value, o.currency).Good?
            && d.value == CanonicalCommercialValue(o.value, o.currency).value.value
  {
    hide GatherFacts, IsSourceTime, Judge, CanonicalCommercialValue, NormalizeStage, NormalizeNextAction,
      NormalizedActivities, NormalizedTasks, AllActivityStamps, AllTaskStamps, Known, Filter;
    var f := GatherFacts(o, Some(activities), Some(tasks)).facts;
    GatheredParts(o, activities, tasks);
    JudgedDetection(f, at, hash);
    forall t ensures t in f.stamps <==> IsSourceTime(o, activities, tasks, t) {
      SourceTimes(o, activities, tasks, t);
    }
  }

  /** The hash of a detection's source tells apart whatever the evidence differs in, but for times before the newest. */
  lemma SourcesTellFactsApart(f: Facts, b: Baseline, t: int, g: Facts, c: Baseline, u: int)
    requires SourceBasis(f, b, t) == SourceBasis(g, c, u)
    ensures f.entityId == g.entityId && f.stage == g.stage && b == c && t == u && f.commercial == g.commercial
    ensures f.nextAction == g.nextAction
  {
    var x, y := SourceBasis(f, b, t).fields, SourceBasis(g, c, u).fields;
    assert x["activity_baseline"] == BaselineJson(b) && y["activity_baseline"] == BaselineJson(c);
    assert x["next_action"] == NextActionJson(f.nextAction) && y["next_action"] == NextActionJson(g.nextAction);
    assert x["commercial_value"] == ValueJson(f.commercial.value);
    assert y["commercial_value"] == ValueJson(g.commercial.value);
    assert x["entity_id"] == JText(f.entityId) && x["opportunity_stage"] == JText(f.stage);
    assert x["source_observed_at"] == JTime(t) && x["commercial_value_basis"] == f.commercial.basis;
    ReadBaseline(b, c);
    ReadNextAction(f.nextAction, g.nextAction);
    ReadValue(f.commercial.value, g.commercial.value);
  }

  lemma ReadBaseline(b: Baseline, c: Baseline)
    ensures BaselineJson(b) == BaselineJson(c) ==> b == c
  {
    var x, y := BaselineJson(b).fields, BaselineJson(c).fields;
    assert x["kind"] == JText(b.kind) && y["kind"] == JText(c.kind);
    assert x["at"] == JTime(b.at) && y["at"] == JTime(c.at);
    assert x["entity_id"] == JOption(b.entityId) && y["entity_id"] == JOption(c.entityId);
  }

  lemma {:induction false} TextsAreRead(a: seq<string>, b: seq<string>)
    ensures JTexts(a) == JTexts(b) ==> a == b
  {
    if a != [] && b != [] && JTexts(a) == JTexts(b) {
      assert JTexts(a)[0] == JText(a[0]) && JTexts(b)[0] == JText(b[0]);
      assert JTexts(a)[1..] == JTexts(a[1..]) && JTexts(b)[1..] == JTexts(b[1..]);
      TextsAreRead(a[1..], b[1..]);
      assert a == [a[0]] + a[1..] && b == [b[0]] + b[1..];
    }
  }

  lemma ReadNextAction(m: NextAction, n: NextAction)
    ensures NextActionJson(m) == NextActionJson(n) ==> m == n
  {
    hide JTexts;
    var x, y := NextActionJson(m).fields, NextActionJson(n).fields;
    assert x["present"] == JBool(m.present) && y["present"] == JBool(n.present);
    assert x["source"] == JText(m.source) && y["source"] == JText(n.source);
    assert x["opportunity_value"] == JOption(m.value) && y["opportunity_value"] == JOption(n.value);
    assert x["active_task_ids"] == JArray(JTexts(m.taskIds)) && y["active_task_ids"] == JArray(JTexts(n.taskIds));
    TextsAreRead(m.taskIds, n.taskIds);
  }

  lemma ReadValue(v: CommercialValue, w: CommercialValue)
    ensures ValueJson(v) == ValueJson(w) ==> v == w
  {
    var x, y := ValueJson(v).fields, ValueJson(w).fields;
    assert x["classification"] == JText(v.classification) && y["classification"] == JText(w.classification);
    assert x["amount"] == JOption(v.amount) && y["amount"] == JOption(w.amount);
    assert x["currency"] == JOption(v.currency) && y["currency"] == JOption(w.currency);
  }

  // ------------------------------------------------------------------ the commercial value

  predicate IsCurrency(currency: Raw) {
    && currency.Text? && |currency.text| == 3
    && 'A' <= currency.text[0] <= 'Z' && 'A' <= currency.text[1] <= 'Z' && 'A' <= currency.text[2] <= 'Z'
  }

  predicate SaysNoValue(value: Raw) {
    || value.Null?
    || (value.Text?
        && (Trim(value.text) == "" || ToLower(Trim(value.text)) in {"unknown", "n/a", "na", "not known"}))
  }

  function LiteralOf(value: Raw): string {
    match value
    case Text(text) => text
    case Number(literal) => literal
    case _ => ""
  }

  /** A decimal text or number that is not negative and that the database can hold. */
  ghost predicate IsAmount(value: Raw) {
    && (value.Text? || value.Number?) && IsDecimalNumberLiteral(LiteralOf(value)) && Value(LiteralOf(value)) >= 0.0
    && IsCanonicalNumericLiteralRepresentable(LiteralOf(value))
  }

  /**
   * A value is sound exactly when the currency is missing or a code and the amount is missing or usable. It is known
   * exactly when both are given, and then denotes the same rational in that currency.
   */
  lemma CommercialExactly(value: Raw, currency: Raw)
    ensures var r := CanonicalCommercialValue(value, currency);
            && (r.Good? <==> (currency.Null? || IsCurrency(currency)) && (SaysNoValue(value) || IsAmount(value)))
            && (r.Good? ==>
                  var v := r.value.value;
                  if SaysNoValue(value) || currency.Null? then v == CommercialValue("UNKNOWN", None, None)
                  else
                    && v.classification == "KNOWN" && v.currency == Some(currency.text) && v.amount.Some?
                    && IsDecimalNumberLiteral(v.amount.value) && IsDecimalNumberLiteral(LiteralOf(value))
                    && Value(v.amount.value) == Value(LiteralOf(value)))
  {
    hide IsDecimalNumberLiteral, Value, IsNegativeNumberLiteral, IsCanonicalNumericLiteralRepresentable,
      NormalizeCommercialValue, Trim, ToLower;
    var literal := LiteralOf(value);
    ZeroAndSignAreExact(literal);
    if IsAmount(value) && IsCurrency(currency) { KnownValue(literal, currency.text); }
  }

  lemma KnownValue(literal: string, currency: string)
    requires IsDecimalNumberLiteral(literal) && !IsNegativeNumberLiteral(literal)
    requires IsCanonicalNumericLiteralRepresentable(literal) && IsCurrency(Text(currency))
    ensures var v := NormalizeCommercialValue(CommercialValue("KNOWN", Some(literal), Some(currency)));
            && v.Some? && v.value.classification == "KNOWN" && v.value.currency == Some(currency)
            && v.value.amount.Some? && IsDecimalNumberLiteral(v.value.amount.value)
            && Value(v.value.amount.value) == Value(literal)
  {
    hide IsDecimalNumberLiteral, Value, IsNegativeNumberLiteral, IsCanonicalNumericLiteralRepresentable,
      CanonicalizeDecimalLiteral;
    CodeIsBounded(currency);
    KnownIsBounded();
    RepresentableIsCanonical(literal);
    DP.CanonicalKeepsValue(literal);
  }

  lemma RepresentableIsCanonical(literal: string)
    requires IsCanonicalNumericLiteralRepresentable(literal)
    ensures CanonicalizeDecimalLiteral(literal).Some?
  {
  }

  lemma KnownIsBounded()
    ensures NonEmpty("KNOWN", SUBJECT_MAX) == Some("KNOWN") && ToUpper("KNOWN") == "KNOWN"
  {
    TrimKeepsTrimmed("KNOWN");
    ByteLengthConcat("KNO", "WN");
    ByteLengthConcat("K", "NO");
    assert "KNO" + "WN" == "KNOWN" && "K" + "NO" == "KNO";
  }

  lemma CodeIsBounded(code: string)
    requires IsCurrency(Text(code))
    ensures NonEmpty(code, 3) == Some(code) && IsLetters(code, 3) && ToUpper(code) == code
  {
    TrimKeepsTrimmed(code);
    ByteLengthConcat(code[..2], code[2..]);
    ByteLengthConcat(code[..1], code[1..2]);
    assert code[..2] + code[2..] == code && code[..1] + code[1..2] == code[..2];
  }

  // ------------------------------------------------------------------ sound evidence

  predicate IsNamed(text: Raw) {
    text.Text? && Trim(text.text) != ""
  }

  predicate InOrder(created: Stamp, later: Stamp) {
    created.At? && later.At? ==> created.ms <= later.ms
  }

  predicate IsSoundActivity(r: RawActivity) {
    && r.plain && IsNamed(r.id) && IsNamed(r.kind)
    && r.createdAt.At? && !r.updatedAt.Unreadable? && InOrder(r.createdAt, r.updatedAt)
  }

  /** A task of a known status with readable times in order, which has a completion time exactly when completed. */
  predicate IsSoundTask(r: RawTask) {
    && r.plain && IsNamed(r.id) && IsNamed(r.title)
    && r.status.Text? && ToUpper(Trim(r.status.text)) in {"OPEN", "IN_PROGRESS", "COMPLETED", "CANCELLED"}
    && r.createdAt.At? && !r.updatedAt.Unreadable? && !r.dueAt.Unreadable? && !r.completedAt.Unreadable?
    && InOrder(r.createdAt, r.updatedAt) && InOrder(r.createdAt, r.completedAt)
    && (ToUpper(Trim(r.status.text)) == "COMPLETED" <==> r.completedAt.At?)
  }

  ghost predicate IsSoundOpportunity(o: RawOpportunity) {
    && o.plain && IsNamed(o.id) && (IsInProgress(o) || IsOver(o))
    && !o.createdAt.Unreadable? && !o.updatedAt.Unreadable? && InOrder(o.createdAt, o.updatedAt)
    && (o.nextAction.Null? || o.nextAction.Text?)
    && (o.currency.Null? || IsCurrency(o.currency)) && (SaysNoValue(o.value) || IsAmount(o.value))
  }

  /** The own records are sound and of different ids. */
  ghost predicate AreSoundActivities(o: RawOpportunity, records: seq<RawActivity>) {
    && (forall r | r in records && Owns(o, r.opportunityId) :: IsSoundActivity(r))
    && forall i, j | 0 <= i < j < |records| && Owns(o, records[i].opportunityId) && Owns(o, records[j].opportunityId) ::
         ActivityId()(records[i]) != ActivityId()(records[j])
  }

  ghost predicate AreSoundTasks(o: RawOpportunity, records: seq<RawTask>) {
    && (forall r | r in records && Owns(o, r.opportunityId) :: IsSoundTask(r))
    && forall i, j | 0 <= i < j < |records| && Owns(o, records[i].opportunityId) && Owns(o, records[j].opportunityId) ::
         TaskId()(records[i]) != TaskId()(records[j])
  }

  lemma DistinctAppend<T, K>(s: seq<T>, x: T, key: T -> K)
    ensures HasDistinctKeys(s + [x], key) <==> HasDistinctKeys(s, key) && forall y | y in s :: key(y) != key(x)
  {
    var t := s + [x];
    if HasDistinctKeys(t, key) {
      forall i, j | 0 <= i < j < |s| ensures key(s[i]) != key(s[j]) {
        assert t[i] == s[i] && t[j] == s[j];
      }
      forall y | y in s ensures key(y) != key(x) {
        var i :| 0 <= i < |s| && s[i] == y;
        assert t[i] == y && t[|s|] == x;
      }
    }
  }

  /** The elements that satisfy p have keys of their own. */
  predicate AreApart<T, K(==)>(s: seq<T>, p: T -> bool, key: T -> K) {
    forall i, j | 0 <= i < j < |s| && p(s[i]) && p(s[j]) :: key(s[i]) != key(s[j])
  }

  lemma ApartAppend<T, K>(s: seq<T>, x: T, p: T -> bool, key: T -> K)
    ensures AreApart(s + [x], p, key) <==>
            AreApart(s, p, key) && (p(x) ==> forall y | y in s && p(y) :: key(y) != key(x))
  {
    var t := s + [x];
    assert t[|s|] == x && forall i | 0 <= i < |s| :: t[i] == s[i];
    if AreApart(t, p, key) {
      forall i, j | 0 <= i < j < |s| && p(s[i]) && p(s[j]) ensures key(s[i]) != key(s[j]) {
        assert t[i] == s[i] && t[j] == s[j];
      }
      forall y | y in s && p(y) && p(x) ensures key(y) != key(x) {
        var i :| 0 <= i < |s| && s[i] == y;
        assert t[i] == y;
      }
    }
  }

  lemma {:induction false} DistinctAmongKept<T, K>(s: seq<T>, p: T -> bool, key: T -> K)
    ensures HasDistinctKeys(Filter(s, p), key) <==> AreApart(s, p, key)
  {
    hide HasDistinctKeys, AreApart;
    if s == [] {
      NoneIsApart(s, p, key);
    } else {
      var front, last := s[..|s| - 1], s[|s| - 1];
      assert s == front + [last];
      DistinctAmongKept(front, p, key);
      forall x | x in Filter(front, p) ensures x in front && p(x) {
        FilterMembers(front, p, x);
      }
      forall x | x in front && p(x) ensures x in Filter(front, p) {
        FilterMembers(front, p, x);
      }
      DistinctAppend(Filter(front, p), last, key);
      ApartAppend(front, last, p, key);
      assert Filter(s, p) == if p(last) then Filter(front, p) + [last] else Filter(front, p);
    }
  }

  lemma NoneIsApart<T, K>(s: seq<T>, p: T -> bool, key: T -> K)
    requires s == []
    ensures HasDistinctKeys(s, key) && AreApart(s, p, key)
  {
  }

  lemma ActivitiesExactly(o: RawOpportunity, records: seq<RawActivity>)
    requires o.id.Text?
    ensures NormalizedActivities(Filter(records, ActivityBelongs(Trim(o.id.text)))).Good? <==>
            AreSoundActivities(o, records)
  {
    hide Filter, SortBy, MapBy, Trim;
    var p := ActivityBelongs(Trim(o.id.text));
    DistinctAmongKept(records, p, ActivityId());
    forall r ensures r in Filter(records, p) <==> r in records && Owns(o, r.opportunityId) {
      FilterMembers(records, p, r);
    }
    forall r ensures IsSoundActivity(r) <==> !IsUnusableActivity(r) && !HasBadActivityTimes(r) {
    }
    assert forall i | 0 <= i < |records| :: p(records[i]) <==> Owns(o, records[i].opportunityId);
  }

  lemma TasksExactly(o: RawOpportunity, records: seq<RawTask>)
    requires o.id.Text?
    ensures NormalizedTasks(Filter(records, TaskBelongs(Trim(o.id.text)))).Good? <==> AreSoundTasks(o, records)
  {
    hide Filter, SortBy, MapBy, Trim, ToUpper;
    var p := TaskBelongs(Trim(o.id.text));
    DistinctAmongKept(records, p, TaskId());
    forall r ensures r in Filter(records, p) <==> r in records && Owns(o, r.opportunityId) {
      FilterMembers(records, p, r);
    }
    forall r
      ensures IsSoundTask(r) <==>
              !IsUnusableTask(r) && !HasUnknownStatus(r) && !HasBadTaskTimes(r) && !HasBadCompletion(r)
    {
    }
    assert forall i | 0 <= i < |records| :: p(records[i]) <==> Owns(o, records[i].opportunityId);
  }

  lemma StageNamesAreKnown(stage: string)
    requires IsActiveStage(stage) || IsClosedStage(stage)
    ensures !IsUnknownLiteral(stage) && stage != ""
  {
    assert ToLower(stage)[0] == LowerChar(stage[0]) && ToLower(stage)[1] == LowerChar(stage[1]);
  }

  lemma StageExactly(o: RawOpportunity)
    ensures var stage := NormalizeStage(o.stage);
            stage.Some? && (IsActiveStage(stage.value) || IsClosedStage(stage.value)) <==> IsInProgress(o) || IsOver(o)
  {
    hide Trim, ToUpper, IsUnknownLiteral;
    if IsInProgress(o) || IsOver(o) { StageNamesAreKnown(ToUpper(Trim(o.stage.text))); }
  }

  lemma NextActionGood(value: Raw, tasks: seq<Task>)
    ensures NormalizeNextAction(value, tasks).Good? <==> value.Null? || value.Text?
  {
    hide SortBy, ActiveTaskIds, NormalizeText, IsUnknownLiteral;
  }

  lemma FactsExactly(o: RawOpportunity, id: string, stage: string, activities: Checked<seq<Activity>>,
                     tasks: Checked<seq<Task>>)
    ensures FactsOf(o, id, stage, activities, tasks).Gathered? <==>
            && activities.Good? && tasks.Good?
            && !o.createdAt.Unreadable? && !o.updatedAt.Unreadable? && InOrder(o.createdAt, o.updatedAt)
            && (o.nextAction.Null? || o.nextAction.Text?)
            && (o.currency.Null? || IsCurrency(o.currency)) && (SaysNoValue(o.value) || IsAmount(o.value))
  {
    hide CanonicalCommercialValue, Known, AllActivityStamps, AllTaskStamps, IsCurrency, SaysNoValue, IsAmount,
      NormalizeNextAction;
    CommercialExactly(o.value, o.currency);
    if tasks.Good? { NextActionGood(o.nextAction, tasks.value); }
  }

  /** Evidence gets past the checks before the clock exactly when the opportunity and its own records are sound. */
  lemma GatheredExactlyWhen(o: RawOpportunity, activities: seq<RawActivity>, tasks: seq<RawTask>)
    ensures GatherFacts(o, Some(activities), Some(tasks)).Gathered? <==>
            IsSoundOpportunity(o) && AreSoundActivities(o, activities) && AreSoundTasks(o, tasks)
  {
    hide NormalizedActivities, NormalizedTasks, Filter, FactsOf, Trim, AreSoundActivities, AreSoundTasks, IsCurrency,
      SaysNoValue, IsAmount, NormalizeStage, IsInProgress, IsOver, IsActiveStage, IsClosedStage;
    StageExactly(o);
    if o.id.Text? {
      var id := Trim(o.id.text);
      ActivitiesExactly(o, activities);
      TasksExactly(o, tasks);
      FactsExactly(o, id, if NormalizeStage(o.stage).Some? then NormalizeStage(o.stage).value else "",
        NormalizedActivities(Filter(activities, ActivityBelongs(id))), NormalizedTasks(Filter(tasks, TaskBelongs(id))));
    }
  }
}

/** When the detector reports a leak, and that the report does not change while it does. */
module DetectorWindow {
  import opened Text
  import opened Lists
  import opened Sorting
  import opened LeakCases
  import opened Detector

  lemma {:induction false} LatestIsMaximum(stamps: seq<int>)
    ensures Latest(stamps).None? <==> stamps == []
    ensures Latest(stamps).Some? ==> Latest(stamps).value in stamps
    ensures forall t | t in stamps :: t <= Latest(stamps).value
  {
    if stamps != [] {
      LatestIsMaximum(stamps[1..]);
      assert stamps == [stamps[0]] + stamps[1..];
    }
  }

  lemma {:induction false} CreationIsStamp(activities: seq<Activity>, a: Activity)
    requires a in activities
    ensures a.createdAt in AllActivityStamps(activities)
  {
    assert activities == [activities[0]] + activities[1..];
    if a != activities[0] { CreationIsStamp(activities[1..], a); }
  }

  /** The baseline is one of the timestamps of the source. */
  lemma BaselineIsStamp(o: RawOpportunity, activities: Option<seq<RawActivity>>, tasks: Option<seq<RawTask>>)
    requires GatherFacts(o, activities, tasks).Gathered?
    ensures var f := GatherFacts(o, activities, tasks).facts;
            var b := LatestActivityBaseline(f.activities, f.created);
            b.Some? ==> b.value.at in f.stamps
  {
    hide NormalizedActivities, NormalizedTasks, NormalizeNextAction, CanonicalCommercialValue, AllTaskStamps,
      NormalizeStage, SortBy, Filter, AllActivityStamps;
    var f := GatherFacts(o, activities, tasks).facts;
    if f.activities != [] {
      var sorted := SortBy(f.activities, NewerActivity());
      SortIsPermutation(f.activities, NewerActivity());
      SameMembers(sorted, f.activities);
      if sorted != [] { CreationIsStamp(f.activities, sorted[0]); }
    } else {
      assert Known([o.createdAt, o.updatedAt]) ==
             (if o.createdAt.At? then [o.createdAt.ms] else []) + Known([o.createdAt, o.updatedAt][1..]);
    }
  }

  /** Valid evidence of an opportunity in progress for which nothing is planned. */
  predicate IsIdle(f: Facts) {
    IsActiveStage(f.stage) && !f.nextAction.present && LatestActivityBaseline(f.activities, f.created).Some?
  }

  function NewestStamp(f: Facts): int {
    if Latest(f.stamps).Some? then Latest(f.stamps).value else 0
  }

  function StalledSince(f: Facts): int {
    var b := LatestActivityBaseline(f.activities, f.created);
    if b.Some? then b.value.at + STALE_AFTER_DAYS * DAY else 0
  }

  /** From the newest source time and two weeks after the baseline, to ninety days after the newest source time. */
  predicate InWindow(f: Facts, at: int) {
    NewestStamp(f) <= at && StalledSince(f) <= at && at <= NewestStamp(f) + SOURCE_FRESHNESS_DAYS * DAY
  }

  /** The leak window of idle evidence is exact and not empty, and the detection is the same all through it. */
  lemma LeakWindow(o: RawOpportunity, activities: Option<seq<RawActivity>>, tasks: Option<seq<RawTask>>, at: int,
                   later: int, hash: Json -> string)
    requires GatherFacts(o, activities, tasks).Gathered? && IsIdle(GatherFacts(o, activities, tasks).facts)
    ensures var f := GatherFacts(o, activities, tasks).facts;
            var now := Evaluate(o, activities, tasks, at, hash);
            var after := Evaluate(o, activities, tasks, later, hash);
            && (now.outcome == ELIGIBLE_LEAK_DETECTED <==> InWindow(f, at))
            && (now.detection.Some? <==> InWindow(f, at))
            && (InWindow(f, at) && InWindow(f, later) ==> after == now)
            && StalledSince(f) <= NewestStamp(f) + SOURCE_FRESHNESS_DAYS * DAY
  {
    hide GatherFacts, LatestActivityBaseline, Latest, EvidenceOf, DetectionOf;
    BaselineIsStamp(o, activities, tasks);
    LatestIsMaximum(GatherFacts(o, activities, tasks).facts.stamps);
  }

  /**
   * On gathered evidence with a baseline, time decides in order: before the newest source time the source is in the
   * future, more than ninety days after it the source is too old, and in between the evidence is eligible.
   */
  lemma TimeDecides(o: RawOpportunity, activities: Option<seq<RawActivity>>, tasks: Option<seq<RawTask>>, at: int,
                    hash: Json -> string)
    requires GatherFacts(o, activities, tasks).Gathered?
    requires var f := GatherFacts(o, activities, tasks).facts; LatestActivityBaseline(f.activities, f.created).Some?
    ensures var f := GatherFacts(o, activities, tasks).facts;
            var e := Evaluate(o, activities, tasks, at, hash);
            && (e.reason == CANONICAL_TIMESTAMP_IN_FUTURE <==> at < NewestStamp(f))
            && (e.reason == CANONICAL_SOURCE_TOO_OLD <==> at > NewestStamp(f) + SOURCE_FRESHNESS_DAYS * DAY)
            && (e.outcome in {ELIGIBLE_LEAK_DETECTED, ELIGIBLE_NO_LEAK} <==>
                  NewestStamp(f) <= at <= NewestStamp(f) + SOURCE_FRESHNESS_DAYS * DAY)
            && (e.reason == RECENT_MEANINGFUL_ACTIVITY <==>
                  NewestStamp(f) <= at <= NewestStamp(f) + SOURCE_FRESHNESS_DAYS * DAY
                  && !IsClosedStage(f.stage) && at < StalledSince(f))
  {
    hide GatherFacts, LatestActivityBaseline;
    BaselineIsStamp(o, activities, tasks);
    LatestIsMaximum(GatherFacts(o, activities, tasks).facts.stamps);
  }

  /** Outside an active stage, or with a next action, no time makes a leak. */
  lemma NoLeakOtherwise(o: RawOpportunity, activities: Option<seq<RawActivity>>, tasks: Option<seq<RawTask>>, at: int,
                        hash: Json -> string)
    requires Evaluate(o, activities, tasks, at, hash).detection.Some?
    ensures GatherFacts(o, activities, tasks).Gathered? && IsIdle(GatherFacts(o, activities, tasks).facts)
  {
    hide NormalizedActivities, NormalizedTasks, NormalizeNextAction, CanonicalCommercialValue, AllTaskStamps,
      LatestActivityBaseline, Latest, EvidenceOf, DetectionOf, Filter, AllActivityStamps, NormalizeStage, Known;
  }

  /** The baseline names the latest created activity, and among equals the one with the least id. */
  lemma BaselineIsLatest(activities: seq<Activity>, created: Stamp)
    requires activities != [] && HasDistinctKeys(activities, (a: Activity) => a.id)
    ensures var b := LatestActivityBaseline(activities, created);
            && b.Some? && b.value.kind == "ACTIVITY"
            && (exists a | a in activities :: b == Some(Baseline("ACTIVITY", Some(a.id), a.createdAt)))
            && forall a | a in activities ::
                 a.createdAt < b.value.at || (a.createdAt == b.value.at && b.value.entityId.Some?
                   && (a.id == b.value.entityId.value || Before(b.value.entityId.value, a.id)))
  {
    hide Before;
    var less := NewerActivity();
    NewerIsStrict(activities);
    forall i, j | 0 <= i < j < |activities| ensures activities[i] != activities[j] {
    }
    SortIsSorted(activities, less);
    var sorted := SortBy(activities, less);
    SortIsPermutation(activities, less);
    SameMembers(sorted, activities);
    assert sorted[0] in activities;
    forall a | a in activities ensures a == sorted[0] || less(sorted[0], a) {
      var k :| 0 <= k < |sorted| && sorted[k] == a;
    }
  }

  lemma NewerIsStrict(s: seq<Activity>)
    requires HasDistinctKeys(s, (a: Activity) => a.id)
    ensures IsStrictOrderOn(NewerActivity(), s)
  {
    hide Before;
    var less := NewerActivity();
    forall x, y | x in s && y in s ensures x == y || less(x, y) || less(y, x) {
      BeforeTotal(x.id, y.id);
      if x.id == y.id {
        var i :| 0 <= i < |s| && s[i] == x;
        var j :| 0 <= j < |s| && s[j] == y;
      }
    }
    forall x, y | x in s && y in s && less(x, y) ensures !less(y, x) {
      if Before(x.id, y.id) { BeforeAsymmetric(x.id, y.id); }
    }
    forall x, y, z | x in s && y in s && z in s && less(x, y) && less(y, z) ensures less(x, z) {
      if Before(x.id, y.id) && Before(y.id, z.id) { BeforeTransitive(x.id, y.id, z.id); }
    }
  }
}

/** The detector does not depend on the order in which activities and tasks are stored. */
module DetectorOrder {
  import opened Text
  import opened Lists
  import opened Sorting
  import opened LeakCases
  import opened Detector

  // ------------------------------------------------------------------ orders

  function IdOfActivity(): Activity -> string {
    (a: Activity) => a.id
  }

  function IdOfTask(): Task -> string {
    (t: Task) => t.id
  }

  lemma DistinctKeysDistinct<T, K>(s: seq<T>, key: T -> K)
    requires HasDistinctKeys(s, key)
    ensures HasNoDuplicates(s)
  {
  }

  lemma SameKeySameElement<T, K>(s: seq<T>, key: T -> K, x: T, y: T)
    requires HasDistinctKeys(s, key) && x in s && y in s && key(x) == key(y)
    ensures x == y
  {
    var i :| 0 <= i < |s| && s[i] == x;
    var j :| 0 <= j < |s| && s[j] == y;
  }

  lemma ActivityOrderIsStrict(s: seq<Activity>)
    requires HasDistinctKeys(s, IdOfActivity())
    ensures IsStrictOrderOn(ActivityOrder(), s)
  {
    hide HasDistinctKeys, Before;
    var less := ActivityOrder();
    forall x, y | x in s && y in s ensures x == y || less(x, y) || less(y, x) {
      BeforeTotal(x.id, y.id);
      if x.id == y.id { SameKeySameElement(s, IdOfActivity(), x, y); }
    }
    forall x, y | x in s && y in s && less(x, y) ensures !less(y, x) {
      if Before(x.id, y.id) { BeforeAsymmetric(x.id, y.id); }
      if Before(y.id, x.id) { BeforeAsymmetric(y.id, x.id); }
    }
    forall x, y, z | x in s && y in s && z in s && less(x, y) && less(y, z) ensures less(x, z) {
      if Before(x.id, y.id) && Before(y.id, z.id) { BeforeTransitive(x.id, y.id, z.id); }
    }
  }

  lemma TaskOrderIsStrict(s: seq<Task>)
    requires HasDistinctKeys(s, IdOfTask())
    ensures IsStrictOrderOn(TaskOrder(), s)
  {
    hide HasDistinctKeys, Before;
    var less := TaskOrder();
    forall x, y | x in s && y in s ensures x == y || less(x, y) || less(y, x) {
      BeforeTotal(x.id, y.id);
      if x.id == y.id { SameKeySameElement(s, IdOfTask(), x, y); }
    }
    forall x, y | x in s && y in s && less(x, y) ensures !less(y, x) {
      if Before(x.id, y.id) { BeforeAsymmetric(x.id, y.id); }
      if Before(y.id, x.id) { BeforeAsymmetric(y.id, x.id); }
    }
    forall x, y, z | x in s && y in s && z in s && less(x, y) && less(y, z) ensures less(x, z) {
      if Before(x.id, y.id) && Before(y.id, z.id) { BeforeTransitive(x.id, y.id, z.id); }
    }
  }

  // ------------------------------------------------------------------ permutations

  lemma FilterOne<T>(x: T, p: T -> bool)
    ensures Filter([x], p) == if p(x) then [x] else []
  {
    FilterAppend([], x, p);
    assert [] + [x] == [x];
  }

  lemma FilterWithout<T>(s: seq<T>, i: nat, p: T -> bool)
    requires i < |s|
    ensures multiset(Filter(s, p)) ==
            multiset(Filter(s[..i] + s[i + 1..], p)) + (if p(s[i]) then multiset{s[i]} else multiset{})
  {
    hide Filter;
    var a, x, b := s[..i], s[i], s[i + 1..];
    ThreeParts(s, i);
    FilterConcat(a, [x] + b, p);
    FilterConcat([x], b, p);
    FilterConcat(a, b, p);
    FilterOne(x, p);
    if p(x) {
      BagOfParts(Filter(a, p), x, Filter(b, p));
    } else {
      assert [] + Filter(b, p) == Filter(b, p);
    }
  }

  lemma {:induction false} FilterIgnoresOrder<T>(s: seq<T>, t: seq<T>, p: T -> bool)
    requires multiset(s) == multiset(t)
    ensures multiset(Filter(s, p)) == multiset(Filter(t, p))
    decreases |s|
  {
    SameMembers(s, t);
    if s != [] {
      var n := |s| - 1;
      assert s[n] in t;
      var i :| 0 <= i < |t| && t[i] == s[n];
      Without(s, n);
      Without(t, i);
      FilterIgnoresOrder(s[..n] + s[n + 1..], t[..i] + t[i + 1..], p);
      FilterWithout(s, n, p);
      FilterWithout(t, i, p);
    }
  }

  lemma MappedKeys<T, U, K>(s: seq<T>, f: T -> U, key: T -> K, image: U -> K)
    requires HasDistinctKeys(s, key) && forall x | x in s :: image(f(x)) == key(x)
    ensures HasDistinctKeys(MapBy(s, f), image)
  {
    forall i, j | 0 <= i < j < |s| ensures image(MapBy(s, f)[i]) != image(MapBy(s, f)[j]) {
      assert s[i] in s && s[j] in s;
    }
  }

  /** Normalised activities do not depend on the order of the records, and neither does the error. */
  lemma ActivitiesIgnoreOrder(s: seq<RawActivity>, t: seq<RawActivity>)
    requires multiset(s) == multiset(t)
    ensures NormalizedActivities(s) == NormalizedActivities(t)
  {
    hide IsUnusableActivity, HasBadActivityTimes, HasDistinctKeys, SortBy, TrimmedText;
    SameMembers(s, t);
    if HasDistinctKeys(s, ActivityId()) { DistinctKeysIgnoreOrder(s, t, ActivityId()); }
    if HasDistinctKeys(t, ActivityId()) { DistinctKeysIgnoreOrder(t, s, ActivityId()); }
    if NormalizedActivities(s).Good? {
      var u, v := MapBy(s, ActivityOf()), MapBy(t, ActivityOf());
      MapIgnoresOrder(s, t, ActivityOf());
      MappedKeys(s, ActivityOf(), ActivityId(), IdOfActivity());
      MappedKeys(t, ActivityOf(), ActivityId(), IdOfActivity());
      DistinctKeysDistinct(u, IdOfActivity());
      DistinctKeysDistinct(v, IdOfActivity());
      ActivityOrderIsStrict(u);
      SortIgnoresOrder(u, v, ActivityOrder());
    }
  }

  lemma TasksIgnoreOrder(s: seq<RawTask>, t: seq<RawTask>)
    requires multiset(s) == multiset(t)
    ensures NormalizedTasks(s) == NormalizedTasks(t)
  {
    hide IsUnusableTask, HasBadTaskTimes, HasUnknownStatus, HasBadCompletion, HasDistinctKeys, SortBy, TrimmedText,
      StatusText, CollapseSpaces;
    SameMembers(s, t);
    if HasDistinctKeys(s, TaskId()) { DistinctKeysIgnoreOrder(s, t, TaskId()); }
    if HasDistinctKeys(t, TaskId()) { DistinctKeysIgnoreOrder(t, s, TaskId()); }
    if NormalizedTasks(s).Good? {
      var u, v := MapBy(s, TaskOf()), MapBy(t, TaskOf());
      MapIgnoresOrder(s, t, TaskOf());
      MappedKeys(s, TaskOf(), TaskId(), IdOfTask());
      MappedKeys(t, TaskOf(), TaskId(), IdOfTask());
      DistinctKeysDistinct(u, IdOfTask());
      DistinctKeysDistinct(v, IdOfTask());
      TaskOrderIsStrict(u);
      SortIgnoresOrder(u, v, TaskOrder());
    }
  }

  /**
   * Permuting the stored activities and tasks changes nothing of an evaluation: neither outcome, reason,
   * evidence and detection, nor which error is reported.
   */
  lemma EvaluationIgnoresOrder(o: RawOpportunity, activities: seq<RawActivity>, otherActivities: seq<RawActivity>,
                               tasks: seq<RawTask>, otherTasks: seq<RawTask>, at: int, hash: Json -> string)
    requires multiset(activities) == multiset(otherActivities) && multiset(tasks) == multiset(otherTasks)
    ensures Evaluate(o, Some(activities), Some(tasks), at, hash)
            == Evaluate(o, Some(otherActivities), Some(otherTasks), at, hash)
  {
    hide NormalizedActivities, NormalizedTasks, FactsOf, Judge, Filter;
    var id := TrimmedText(o.id);
    FilterIgnoresOrder(activities, otherActivities, ActivityBelongs(id));
    FilterIgnoresOrder(tasks, otherTasks, TaskBelongs(id));
    ActivitiesIgnoreOrder(Filter(activities, ActivityBelongs(id)), Filter(otherActivities, ActivityBelongs(id)));
    TasksIgnoreOrder(Filter(tasks, TaskBelongs(id)), Filter(otherTasks, TaskBelongs(id)));
  }
}

/** The validation loops of the detector over activities and tasks, against their order-free meaning. */
module DetectorLoops {
  import opened Text
  import opened Sorting
  import opened Detector

  /** seen holds the keys of the first n records, which are distinct. */
  ghost predicate Seen<T>(seen: set<string>, records: seq<T>, key: T -> string, n: nat)
    requires n <= |records|
  {
    && (forall k | 0 <= k < n :: key(records[k]) in seen)
    && (forall id | id in seen :: exists k :: 0 <= k < n && key(records[k]) == id)
    && HasDistinctKeys(records[..n], key)
  }

  lemma SeenRepeats<T>(seen: set<string>, records: seq<T>, key: T -> string, n: nat)
    requires n < |records| && Seen(seen, records, key, n) && key(records[n]) in seen
    ensures !HasDistinctKeys(records, key)
  {
    var k :| 0 <= k < n && key(records[k]) == key(records[n]);
  }

  lemma SeenGrows<T>(seen: set<string>, records: seq<T>, key: T -> string, n: nat)
    requires n < |records| && Seen(seen, records, key, n) && key(records[n]) !in seen
    ensures Seen(seen + {key(records[n])}, records, key, n + 1)
  {
    forall id | id in seen + {key(records[n])} ensures exists k :: 0 <= k < n + 1 && key(records[k]) == id {
      if id in seen {
        var k :| 0 <= k < n && key(records[k]) == id;
      } else {
        assert key(records[n]) == id;
      }
    }
  }

  lemma SeenAll<T>(seen: set<string>, records: seq<T>, key: T -> string)
    requires Seen(seen, records, key, |records|)
    ensures HasDistinctKeys(records, key)
  {
    assert records[..|records|] == records;
  }

  lemma MapStep<T, U>(s: seq<T>, f: T -> U, n: nat)
    requires n < |s|
    ensures MapBy(s[..n + 1], f) == MapBy(s[..n], f) + [f(s[n])]
  {
    assert s[..n + 1][..n] == s[..n];
  }

  method NormalizeActivities(records: seq<RawActivity>) returns (r: Checked<seq<Activity>>)
    ensures r == NormalizedActivities(records)
  {
    hide Seen, HasDistinctKeys, IsUnusableActivity, HasBadActivityTimes, SortBy, TrimmedText;
    var ids: set<string> := {};
    var n := 0;
    assert Seen({}, records, ActivityId(), 0) by { NothingSeen(records, ActivityId()); }
    while n < |records|
      invariant 0 <= n <= |records|
      invariant Seen(ids, records, ActivityId(), n)
      invariant forall k | 0 <= k < n :: !IsUnusableActivity(records[k])
    {
      if IsUnusableActivity(records[n]) {
        return Bad(ACTIVITY_EVIDENCE_INVALID);
      }
      if TrimmedText(records[n].id) in ids {
        SeenRepeats(ids, records, ActivityId(), n);
        return Bad(ACTIVITY_EVIDENCE_INVALID);
      }
      SeenGrows(ids, records, ActivityId(), n);
      ids := ids + {TrimmedText(records[n].id)};
      n := n + 1;
    }
    SeenAll(ids, records, ActivityId());
    var normalized: seq<Activity> := [];
    n := 0;
    while n < |records|
      invariant 0 <= n <= |records|
      invariant normalized == MapBy(records[..n], ActivityOf())
      invariant forall k | 0 <= k < n :: !HasBadActivityTimes(records[k])
    {
      if HasBadActivityTimes(records[n]) {
        return Bad(CANONICAL_TIMESTAMP_INVALID);
      }
      MapStep(records, ActivityOf(), n);
      normalized := normalized + [ActivityOf()(records[n])];
      n := n + 1;
    }
    assert records[..n] == records;
    return Good(SortBy(normalized, ActivityOrder()));
  }

  lemma NothingSeen<T>(records: seq<T>, key: T -> string)
    ensures Seen({}, records, key, 0)
  {
  }

  /** The first loop over the tasks: usable records with ids of their own. */
  method CheckTaskIdentities(records: seq<RawTask>) returns (ok: bool)
    ensures ok <==> (forall r | r in records :: !IsUnusableTask(r)) && HasDistinctKeys(records, TaskId())
  {
    hide Seen, HasDistinctKeys, IsUnusableTask, TrimmedText;
    var ids: set<string> := {};
    var n := 0;
    assert Seen({}, records, TaskId(), 0) by { NothingSeen(records, TaskId()); }
    while n < |records|
      invariant 0 <= n <= |records|
      invariant Seen(ids, records, TaskId(), n)
      invariant forall k | 0 <= k < n :: !IsUnusableTask(records[k])
    {
      if IsUnusableTask(records[n]) {
        return false;
      }
      if TrimmedText(records[n].id) in ids {
        SeenRepeats(ids, records, TaskId(), n);
        return false;
      }
      SeenGrows(ids, records, TaskId(), n);
      ids := ids + {TrimmedText(records[n].id)};
      n := n + 1;
    }
    SeenAll(ids, records, TaskId());
    return true;
  }

  method NormalizeTasks(records: seq<RawTask>) returns (r: Checked<seq<Task>>)
    ensures r == NormalizedTasks(records)
  {
    hide HasDistinctKeys, IsUnusableTask, HasUnknownStatus, HasBadTaskTimes, HasBadCompletion, SortBy;
    var identified := CheckTaskIdentities(records);
    if !identified {
      return Bad(TASK_EVIDENCE_INVALID);
    }
    var n := 0;
    while n < |records|
      invariant 0 <= n <= |records|
      invariant forall k | 0 <= k < n :: !HasUnknownStatus(records[k])
    {
      if HasUnknownStatus(records[n]) {
        return Bad(TASK_STATUS_UNRECOGNIZED);
      }
      n := n + 1;
    }
    n := 0;
    while n < |records|
      invariant 0 <= n <= |records|
      invariant forall k | 0 <= k < n :: !HasBadTaskTimes(records[k])
    {
      if HasBadTaskTimes(records[n]) {
        return Bad(CANONICAL_TIMESTAMP_INVALID);
      }
      n := n + 1;
    }
    n := 0;
    while n < |records|
      invariant 0 <= n <= |records|
      invariant forall k | 0 <= k < n :: !HasBadCompletion(records[k])
    {
      if HasBadCompletion(records[n]) {
        return Bad(TASK_EVIDENCE_INVALID);
      }
      n := n + 1;
    }
    return Good(SortBy(MapBy(records, TaskOf()), TaskOrder()));
  }
}

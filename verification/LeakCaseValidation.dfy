/** The validators of the case collection, loop by loop, against the acceptance predicate. */
module LeakCaseValidation {
  import opened Text
  import opened Lists
  import RA = RevenueActions
  import opened LeakCases

  /** A log with a refused prefix is refused. */
  lemma {:induction false} RefusedPrefix(audit: seq<Entry>, c: Content, n: nat)
    requires 0 < n <= |audit| && Replay(audit[..n], c).None?
    ensures Replay(audit, c).None?
  {
    if n == |audit| {
      assert audit[..n] == audit;
    } else {
      var front := audit[..|audit| - 1];
      assert front[..n] == audit[..n];
      RefusedPrefix(front, c, n);
    }
  }

  lemma ReplayPrefixStep(audit: seq<Entry>, c: Content, n: nat)
    requires 0 < n < |audit|
    ensures Replay(audit[..n + 1], c) ==
            if Replay(audit[..n], c).None? then None else Advance(Replay(audit[..n], c).value, audit[n], c.detectedAt)
  {
    assert audit[..n + 1][..n] == audit[..n];
  }

  /** One turn of the loop over the log; ok tells whether the entry is admitted. */
  method CheckEntry(expected: Life, e: Entry, detectedAt: int) returns (ok: bool, next: Life)
    ensures ok <==> Advance(expected, e, detectedAt).Some?
    ensures ok ==> Advance(expected, e, detectedAt) == Some(next)
  {
    hide IsBoundedText;
    next := expected;
    if !(IsBoundedText(e.subjectId, SUBJECT_MAX) && e.at >= detectedAt) {
      return false, next;
    }
    match e.event {
      case Opened(_, _, _) =>
        return false, next;
      case WasSnoozed(reason, wakeAt) =>
        if !(expected.state == OPEN && IsBoundedText(reason, REASON_MAX) && wakeAt > e.at) {
          return false, next;
        }
        next := next.(state := SNOOZED, snoozedAt := Some(e.at), snoozedUntil := Some(wakeAt),
                      snoozeReason := Some(reason));
      case Reopened(reason) =>
        if !(expected.state == SNOOZED && IsBoundedText(reason, REASON_MAX)) {
          return false, next;
        }
        next := next.(state := OPEN, snoozedAt := None, snoozedUntil := None, snoozeReason := None);
      case WasDismissed(reason) =>
        if !(IsActive(expected.state) && IsBoundedText(reason, REASON_MAX)) {
          return false, next;
        }
        next := next.(state := DISMISSED, dismissedAt := Some(e.at), dismissalReason := Some(reason));
      case WasSuperseded(code, byId, _) =>
        if !(IsActive(expected.state) && code == EVIDENCE_CHANGED && IsBoundedText(byId, ID_MAX)) {
          return false, next;
        }
        next := next.(state := SUPERSEDED, supersededBy := Some(byId), supersededAt := Some(e.at),
                      supersessionReason := Some(code));
      case Linked(actionId, fingerprint, status) =>
        if !(IsActive(expected.state) && expected.actionId.None? && IsBoundedText(actionId, ID_MAX)) {
          return false, next;
        }
        next := next.(actionId := Some(actionId), fingerprint := Some(fingerprint), statusAtLink := Some(status),
                      linkedAt := Some(e.at));
    }
    next := next.(updatedAt := e.at);
    ok := true;
  }

  method ValidateAuditAndLifecycle(r: Record) returns (ok: bool)
    ensures ok <==> Replay(r.audit, r.content) == Some(r.life)
  {
    hide Advance, IsOpening;
    var audit, c := r.audit, r.content;
    if audit == [] || !IsOpening(audit[0], c) {
      if audit != [] { RefusedPrefix(audit, c, 1); }
      return false;
    }
    var expected := NewLife(c.detectedAt);
    assert audit[..1] == [audit[0]];
    var n := 1;
    while n < |audit|
      invariant 1 <= n <= |audit|
      invariant Replay(audit[..n], c) == Some(expected)
    {
      var admitted, next := CheckEntry(expected, audit[n], c.detectedAt);
      ReplayPrefixStep(audit, c, n);
      if !admitted {
        RefusedPrefix(audit, c, n + 1);
        return false;
      }
      expected := next;
      n := n + 1;
    }
    assert audit[..n] == audit;
    return expected == r.life;
  }

  method ValidatePersistedCase(r: Record, tenantId: string) returns (ok: bool)
    ensures ok <==> IsPersisted(r, tenantId)
  {
    hide Replay, IsBoundedText, BuildDetection;
    if r.tenantId != tenantId || r.audit == [] {
      return false;
    }
    var rebuilt := BuildDetection(InputOf(r.content), r.content.id, r.content.detectedAt, r.audit[0].subjectId);
    if rebuilt.None? || rebuilt.value.content != r.content {
      return false;
    }
    if r.supersedes.Some? && !(IsBoundedText(r.supersedes.value, REASON_MAX) && r.supersedes.value != r.content.id) {
      return false;
    }
    ok := ValidateAuditAndLifecycle(r);
  }

  /** byId holds the first n records under their ids. */
  ghost predicate Indexes(byId: map<string, Record>, records: seq<Record>, n: nat)
    requires n <= |records|
  {
    && (forall k | 0 <= k < n :: records[k].content.id in byId && byId[records[k].content.id] == records[k])
    && (forall id | id in byId :: exists k :: 0 <= k < n && records[k].content.id == id)
  }

  /** Looking up in a full index is finding in the collection. */
  lemma IndexFinds(byId: map<string, Record>, records: seq<Record>, id: string)
    requires Indexes(byId, records, |records|)
    ensures id in byId <==> CaseIndex(records, id).Some?
    ensures id in byId ==> byId[id] == records[CaseIndex(records, id).value]
  {
    hide FirstIndex;
    var i := CaseIndex(records, id);
    if id in byId {
      var k :| 0 <= k < |records| && records[k].content.id == id;
      assert CaseWithId(id)(records[k]);
    }
  }

  method ValidatePointers(r: Record, byId: map<string, Record>, records: seq<Record>, actions: seq<RA.Action>)
    returns (ok: bool)
    requires Indexes(byId, records, |records|)
    ensures ok <==> LinkIsValid(r, actions) && PredecessorIsValid(r, records) && ReplacementIsValid(r, records)
  {
    hide FirstIndex, ActionReference, CaseIndex;
    if r.life.actionId.Some? {
      var a := ActionReference(actions, r.life.actionId.value, r.content.opportunityId);
      if !(a.Some? && r.life.fingerprint == Some(a.value.basis)
           && r.life.linkedAt.Some? && r.life.linkedAt.value >= a.value.createdAt) {
        return false;
      }
    }
    if r.supersedes.Some? {
      var id := r.supersedes.value;
      IndexFinds(byId, records, id);
      if id !in byId { return false; }
      var p := byId[id];
      if p.content.seriesKey != r.content.seriesKey || p.content.detectedAt > r.content.detectedAt {
        return false;
      }
      if p.life.state == SUPERSEDED && p.life.supersededBy != Some(r.content.id) {
        return false;
      }
    }
    if r.life.supersededBy.Some? {
      var id := r.life.supersededBy.value;
      IndexFinds(byId, records, id);
      if id !in byId { return false; }
      var p := byId[id];
      if p.content.seriesKey != r.content.seriesKey || p.supersedes != Some(r.content.id) {
        return false;
      }
    }
    ok := true;
  }

  /** seen holds the keys among the first n, which are distinct. */
  ghost predicate Collects<K>(seen: set<K>, keys: seq<Option<K>>, n: nat)
    requires n <= |keys|
  {
    && AreDistinct(keys[..n])
    && (forall k | 0 <= k < n && keys[k].Some? :: keys[k].value in seen)
    && (forall key | key in seen :: exists k :: 0 <= k < n && keys[k] == Some(key))
  }

  lemma SeenKeyRepeats<K>(seen: set<K>, keys: seq<Option<K>>, n: nat)
    requires n < |keys| && Collects(seen, keys, n) && keys[n].Some? && keys[n].value in seen
    ensures !AreDistinct(keys)
  {
    var k :| 0 <= k < n && keys[k] == Some(keys[n].value);
  }

  lemma NewKeyIsCollected<K>(seen: set<K>, keys: seq<Option<K>>, n: nat)
    requires n < |keys| && Collects(seen, keys, n) && (keys[n].Some? ==> keys[n].value !in seen)
    ensures Collects(if keys[n].Some? then seen + {keys[n].value} else seen, keys, n + 1)
  {
    if keys[n].Some? {
      forall key | key in seen + {keys[n].value} ensures exists k :: 0 <= k < n + 1 && keys[k] == Some(key) {
        if key == keys[n].value {
          assert keys[n] == Some(key);
        } else {
          var k :| 0 <= k < n && keys[k] == Some(key);
        }
      }
    }
  }

  lemma KnownIdRepeats(records: seq<Record>, n: nat, byId: map<string, Record>)
    requires n < |records| && Indexes(byId, records, n) && records[n].content.id in byId
    ensures !HaveDistinctIds(records)
  {
    var k :| 0 <= k < n && records[k].content.id == records[n].content.id;
  }

  lemma NewIdIsIndexed(records: seq<Record>, n: nat, byId: map<string, Record>)
    requires n < |records| && Indexes(byId, records, n) && records[n].content.id !in byId
    requires HaveDistinctIds(records[..n])
    ensures Indexes(byId[records[n].content.id := records[n]], records, n + 1)
    ensures HaveDistinctIds(records[..n + 1])
  {
  }

  lemma NothingIsIndexed(records: seq<Record>)
    ensures Indexes(map[], records, 0) && HaveDistinctIds(records[..0])
  {
  }

  lemma NothingIsCollected<K>(keys: seq<Option<K>>)
    ensures Collects({}, keys, 0)
  {
  }

  lemma AllCollected<K>(seen: set<K>, keys: seq<Option<K>>)
    requires Collects(seen, keys, |keys|)
    ensures AreDistinct(keys)
  {
    assert keys[..|keys|] == keys;
  }

  /** The loop that fills the index and the sets of active keys. */
  method IndexCollection(records: seq<Record>) returns (ok: bool, byId: map<string, Record>)
    ensures ok <==> HaveDistinctIds(records) && AreDistinct(ActiveSeries(records))
                    && AreDistinct(ActiveMeanings(records))
    ensures ok ==> Indexes(byId, records, |records|)
  {
    hide Indexes, Collects, HaveDistinctIds, AreDistinct, IsActive;
    byId := map[];
    var series: set<SeriesKey> := {};
    var semantic: set<SemanticKey> := {};
    ghost var allSeries, allMeanings := ActiveSeries(records), ActiveMeanings(records);
    NothingIsIndexed(records);
    NothingIsCollected(allSeries);
    NothingIsCollected(allMeanings);
    var n := 0;
    while n < |records|
      invariant 0 <= n <= |records|
      invariant Indexes(byId, records, n) && HaveDistinctIds(records[..n])
      invariant Collects(series, allSeries, n) && Collects(semantic, allMeanings, n)
    {
      var r := records[n];
      if r.content.id in byId {
        KnownIdRepeats(records, n, byId);
        return false, byId;
      }
      ghost var seenSeries, seenSemantic := series, semantic;
      if IsActive(r.life.state) {
        if r.content.seriesKey in series {
          SeenKeyRepeats(series, allSeries, n);
          return false, byId;
        }
        if r.content.semanticKey in semantic {
          SeenKeyRepeats(semantic, allMeanings, n);
          return false, byId;
        }
        series := series + {r.content.seriesKey};
        semantic := semantic + {r.content.semanticKey};
      }
      NewKeyIsCollected(seenSeries, allSeries, n);
      NewKeyIsCollected(seenSemantic, allMeanings, n);
      NewIdIsIndexed(records, n, byId);
      byId := byId[r.content.id := r];
      n := n + 1;
    }
    assert records[..n] == records;
    AllCollected(series, allSeries);
    AllCollected(semantic, allMeanings);
    ok := true;
  }

  method ValidateCaseCollection(records: seq<Record>, tenantId: string, actions: seq<RA.Action>) returns (ok: bool)
    ensures ok <==> IsAccepted(records, tenantId, actions)
  {
    hide IsPersisted, LinkIsValid, PredecessorIsValid, ReplacementIsValid, HaveDistinctIds, AreDistinct;
    var n := 0;
    while n < |records|
      invariant 0 <= n <= |records|
      invariant forall k | 0 <= k < n :: IsPersisted(records[k], tenantId)
    {
      var persisted := ValidatePersistedCase(records[n], tenantId);
      if !persisted { return false; }
      n := n + 1;
    }
    var distinct, byId := IndexCollection(records);
    if !distinct { return false; }
    n := 0;
    while n < |records|
      invariant 0 <= n <= |records|
      invariant forall k | 0 <= k < n ::
                  && LinkIsValid(records[k], actions) && PredecessorIsValid(records[k], records)
                  && ReplacementIsValid(records[k], records)
    {
      var valid := ValidatePointers(records[n], byId, records, actions);
      if !valid { return false; }
      n := n + 1;
    }
    ok := true;
  }
}

/** The check before a write, from any accepted collection: exactly when it refuses. */
module LeakCaseAcceptance {
  import opened Text
  import opened Lists
  import RA = RevenueActions
  import opened LeakCases
  import opened LeakCaseRebuild
  import opened LeakCaseStore
  import opened LeakCaseInvariant
  import opened LeakCaseSteps
  import opened LeakCaseReconcile

  // ------------------------------------------------------------------ what acceptance gives

  lemma AcceptedAt(records: seq<Record>, tenantId: string, actions: seq<RA.Action>, i: nat)
    requires IsAccepted(records, tenantId, actions) && i < |records|
    ensures IsPersisted(records[i], tenantId) && records[i].tenantId == tenantId && LinkIsValid(records[i], actions)
    ensures PredecessorIsValid(records[i], records) && ReplacementIsValid(records[i], records)
    ensures HaveDistinctIds(records)
  {
    hide IsRebuilt, Replay, LinkIsValid, PredecessorIsValid, ReplacementIsValid, HaveDistinctIds;
    assert IsPersisted(records[i], tenantId);
  }

  /** In an accepted collection a case is found under its id. */
  lemma CaseIsFirst(records: seq<Record>, tenantId: string, actions: seq<RA.Action>, i: nat)
    requires IsAccepted(records, tenantId, actions) && i < |records|
    ensures FirstIndex(records, TenantCase(tenantId, records[i].content.id)) == Some(i)
  {
    hide IsPersisted, LinkIsValid, PredecessorIsValid, ReplacementIsValid, FirstIndex, AreDistinct, IsAccepted;
    AcceptedAt(records, tenantId, actions, i);
    FirstIndexIs(records, i, TenantCase(tenantId, records[i].content.id));
  }

  lemma NotPersistedIsRefused(records: seq<Record>, tenantId: string, actions: seq<RA.Action>, i: nat)
    requires i < |records| && !IsPersisted(records[i], tenantId)
    ensures !IsAccepted(records, tenantId, actions)
  {
    hide IsPersisted;
  }

  /** Of a series at most one case of an accepted collection is active. */
  lemma OneActiveOfSeries(records: seq<Record>, tenantId: string, actions: seq<RA.Action>, key: SeriesKey)
    requires IsAccepted(records, tenantId, actions)
    ensures var active := Filter(records, ActiveInSeries(tenantId, key));
            var i := FirstIndex(records, ActiveInSeries(tenantId, key));
            && (active == [] <==> i.None?)
            && (i.Some? ==> active == [records[i.value]])
  {
    hide IsPersisted, LinkIsValid, PredecessorIsValid, ReplacementIsValid, HaveDistinctIds;
    var p := ActiveInSeries(tenantId, key);
    var i := FirstIndex(records, p);
    FirstIsFirstOfFilter(records, p);
    if i.Some? {
      var keys := ActiveSeries(records);
      forall j | i.value < j < |records| ensures !p(records[j]) {
        assert keys[i.value] != keys[j];
      }
      FilterNone(records[..i.value], p);
      FilterReplaceLast(records, i.value, records[i.value], p);
    }
  }

  // ------------------------------------------------------------------ one active case moved

  /** Looking up any id finds the same place after a record is replaced by one of the same id. */
  lemma LookupsSurvive(records: seq<Record>, i: nat, r: Record, id: string)
    requires i < |records| && r.content.id == records[i].content.id
    ensures CaseIndex(records[i := r], id) == CaseIndex(records, id)
  {
    hide FirstIndex;
    var j := CaseIndex(records, id);
    var updated := records[i := r];
    if j.Some? {
      forall k | 0 <= k < j.value ensures !CaseWithId(id)(updated[k]) {
        assert !CaseWithId(id)(records[k]);
      }
      FirstIndexIs(updated, j.value, CaseWithId(id));
    } else {
      forall k | 0 <= k < |updated| ensures !CaseWithId(id)(updated[k]) {
        assert !CaseWithId(id)(records[k]);
      }
    }
  }

  /** Pointers to a record that keeps its content and predecessor, and is not superseded, stay valid. */
  lemma PointersSurvive(records: seq<Record>, i: nat, r: Record, x: Record)
    requires i < |records| && r.content == records[i].content && r.supersedes == records[i].supersedes
    requires r.life.state != SUPERSEDED
    requires PredecessorIsValid(x, records) && ReplacementIsValid(x, records)
    ensures PredecessorIsValid(x, records[i := r]) && ReplacementIsValid(x, records[i := r])
  {
    hide FirstIndex;
    if x.supersedes.Some? { LookupsSurvive(records, i, r, x.supersedes.value); }
    if x.life.supersededBy.Some? { LookupsSurvive(records, i, r, x.life.supersededBy.value); }
  }

  lemma KeysUpdate(records: seq<Record>, i: nat, r: Record)
    requires i < |records| && IsActive(records[i].life.state) && r.content == records[i].content
    requires AreDistinct(ActiveSeries(records)) && AreDistinct(ActiveMeanings(records))
    ensures AreDistinct(ActiveSeries(records[i := r])) && AreDistinct(ActiveMeanings(records[i := r]))
  {
    var s, m := ActiveSeries(records), ActiveMeanings(records);
    var t, n := ActiveSeries(records[i := r]), ActiveMeanings(records[i := r]);
    assert forall k | 0 <= k < |t| && t[k].Some? :: t[k] == s[k];
    assert forall k | 0 <= k < |n| && n[k].Some? :: n[k] == m[k];
  }

  lemma UnsupersededHasNoReplacement(r: Record, tenantId: string, records: seq<Record>)
    requires IsPersisted(r, tenantId) && r.life.state != SUPERSEDED
    ensures ReplacementIsValid(r, records)
  {
    hide IsRebuilt, Replay, CaseIndex;
    LoggedLifeIsLived(r.audit, r.content);
  }

  /** Replacing an active case by a persisted one of the same content, not superseded, is accepted. */
  lemma UpdateIsAccepted(records: seq<Record>, tenantId: string, actions: seq<RA.Action>, i: nat, r: Record)
    requires IsAccepted(records, tenantId, actions) && i < |records| && IsActive(records[i].life.state)
    requires r.content == records[i].content && r.tenantId == records[i].tenantId
    requires r.supersedes == records[i].supersedes && r.life.state != SUPERSEDED
    requires IsPersisted(r, tenantId) && LinkIsValid(r, actions)
    ensures IsAccepted(records[i := r], tenantId, actions)
  {
    hide IsPersisted, LinkIsValid, ReplacementIsValid, FirstIndex, AreDistinct, IsActive, CaseIndex;
    var updated := records[i := r];
    forall k | 0 <= k < |updated|
      ensures IsPersisted(updated[k], tenantId) && LinkIsValid(updated[k], actions)
      ensures PredecessorIsValid(updated[k], updated) && ReplacementIsValid(updated[k], updated)
    {
      PointersSurvive(records, i, r, records[k]);
      if k == i { UnsupersededHasNoReplacement(r, tenantId, updated); }
    }
    ReplacedKeepsIds(records, i, r);
    KeysUpdate(records, i, r);
  }

  // ------------------------------------------------------------------ transition and link

  /**
   * The write check of a transition that passed its own guards refuses exactly when the subject is too
   * long for an audit entry or the transition is dated before the detection.
   */
  lemma TransitionCheckIsExact(records: seq<Record>, actions: seq<RA.Action>, tenantId: string, q: Request, i: nat,
                               to: CaseState, reason: string, at: int, wakeAt: int)
    requires IsAccepted(records, tenantId, actions) && IsIssued(q) && i < |records|
    requires Transitioned(records[i], to, reason, at, wakeAt, q.subjectId).Some?
    ensures var m := Transitioned(records[i], to, reason, at, wakeAt, q.subjectId).value;
            IsAccepted(records[i := m], tenantId, actions) <==>
            CanBeLogged(q.subjectId, at, records[i].content.detectedAt)
  {
    hide IsPersisted, IsAccepted, Transitioned, CanBeLogged, ActionReference;
    AcceptedAt(records, tenantId, actions, i);
    TransitionedIsPersisted(records[i], to, reason, at, wakeAt, q, tenantId);
    var m := Transitioned(records[i], to, reason, at, wakeAt, q.subjectId).value;
    if CanBeLogged(q.subjectId, at, records[i].content.detectedAt) {
      UpdateIsAccepted(records, tenantId, actions, i, m);
    } else {
      NotPersistedIsRefused(records[i := m], tenantId, actions, i);
    }
  }

  /** The same for linking an action that exists once, belongs to the opportunity and is not newer. */
  lemma LinkCheckIsExact(records: seq<Record>, actions: seq<RA.Action>, tenantId: string, q: Request, i: nat,
                         id: string, at: int)
    requires IsAccepted(records, tenantId, actions) && IsIssued(q) && i < |records|
    requires IsActive(records[i].life.state) && records[i].life.actionId.None?
    requires var a := ActionReference(actions, id, records[i].content.opportunityId);
             a.Some? && at >= a.value.createdAt
    ensures var a := ActionReference(actions, id, records[i].content.opportunityId).value;
            IsAccepted(records[i := LinkedRecord(records[i], a, at, q.subjectId)], tenantId, actions) <==>
            CanBeLogged(q.subjectId, at, records[i].content.detectedAt) && IsBoundedText(id, ID_MAX)
  {
    hide IsPersisted, IsAccepted, ActionReference, CanBeLogged, IsBoundedText, LinkIsValid;
    AcceptedAt(records, tenantId, actions, i);
    ReferenceHasId(actions, id, records[i].content.opportunityId);
    var a := ActionReference(actions, id, records[i].content.opportunityId).value;
    LinkedIsPersisted(records[i], a, at, q, tenantId);
    FreshLinkIsValid(records[i], actions, a, at, q.subjectId);
    var m := LinkedRecord(records[i], a, at, q.subjectId);
    if IsPersisted(m, tenantId) {
      UpdateIsAccepted(records, tenantId, actions, i, m);
    } else {
      NotPersistedIsRefused(records[i := m], tenantId, actions, i);
    }
  }

  // ------------------------------------------------------------------ a case appended

  /** The newest case is the first of the latest ones. */
  lemma {:induction false} NewestIsMaximal(series: seq<Record>) returns (a: nat)
    requires series != []
    ensures a < |series| && Newest(series) == series[a]
    ensures forall k | 0 <= k < |series| :: series[k].content.detectedAt <= series[a].content.detectedAt
    ensures forall k | 0 <= k < a :: series[k].content.detectedAt < series[a].content.detectedAt
  {
    var n := |series| - 1;
    if n == 0 {
      a := 0;
    } else {
      a := NewestIsMaximal(series[..n]);
      if series[a].content.detectedAt < series[n].content.detectedAt { a := n; }
    }
  }

  /** Looking up the ids of an accepted collection is not disturbed by a case appended under a new id. */
  lemma LookupsStay(records: seq<Record>, next: Record, id: string)
    requires CaseIndex(records, next.content.id).None? && CaseIndex(records, id).Some?
    ensures CaseIndex(records + [next], id) == CaseIndex(records, id)
  {
    hide FirstIndex;
    var i := CaseIndex(records, id).value;
    var after := records + [next];
    forall k | 0 <= k < i ensures !CaseWithId(id)(after[k]) {
      assert !CaseWithId(id)(records[k]);
    }
    FirstIndexIs(after, i, CaseWithId(id));
  }

  lemma PointersStay(records: seq<Record>, next: Record, r: Record)
    requires CaseIndex(records, next.content.id).None?
    requires PredecessorIsValid(r, records) && ReplacementIsValid(r, records)
    ensures PredecessorIsValid(r, records + [next]) && ReplacementIsValid(r, records + [next])
  {
    hide FirstIndex;
    if r.supersedes.Some? { LookupsStay(records, next, r.supersedes.value); }
    if r.life.supersededBy.Some? { LookupsStay(records, next, r.life.supersededBy.value); }
  }

  lemma NewKeyIsDistinct<K>(keys: seq<Option<K>>, grown: seq<Option<K>>, key: K)
    requires AreDistinct(keys) && Some(key) !in keys && grown == keys + [Some(key)]
    ensures AreDistinct(grown)
  {
  }

  /** Appending an open case of a series without active case, whose predecessor is in order. */
  lemma AppendIsAccepted(records: seq<Record>, tenantId: string, actions: seq<RA.Action>, next: Record)
    requires IsAccepted(records, tenantId, actions) && CaseIndex(records, next.content.id).None?
    requires IsPersisted(next, tenantId) && next.life == NewLife(next.content.detectedAt)
    requires Filter(records, ActiveInSeries(tenantId, next.content.seriesKey)) == []
    requires PredecessorIsValid(next, records + [next])
    ensures IsAccepted(records + [next], tenantId, actions)
  {
    hide IsPersisted, LinkIsValid, PredecessorIsValid, ReplacementIsValid, Filter, FirstIndex, AreDistinct;
    var after := records + [next];
    forall k | 0 <= k < |after|
      ensures LinkIsValid(after[k], actions) && PredecessorIsValid(after[k], after)
              && ReplacementIsValid(after[k], after)
    {
      if k < |records| {
        PointersStay(records, next, records[k]);
      } else {
        NewLifeHasNoPointers(next, after, actions);
      }
    }
    forall k | 0 <= k < |records| ensures records[k].content.id != next.content.id {
      assert !CaseWithId(next.content.id)(records[k]);
    }
    ActiveKeysAreNew(records, tenantId, next);
    KeysAppend(records, next);
    NewKeyIsDistinct(ActiveSeries(records), ActiveSeries(after), next.content.seriesKey);
    NewKeyIsDistinct(ActiveMeanings(records), ActiveMeanings(after), next.content.semanticKey);
  }

  lemma NewLifeHasNoPointers(r: Record, records: seq<Record>, actions: seq<RA.Action>)
    requires r.life == NewLife(r.content.detectedAt)
    ensures LinkIsValid(r, actions) && ReplacementIsValid(r, records)
  {
    hide ActionReference, CaseIndex;
  }

  lemma KeysAppend(records: seq<Record>, next: Record)
    requires IsActive(next.life.state)
    ensures ActiveSeries(records + [next]) == ActiveSeries(records) + [Some(next.content.seriesKey)]
    ensures ActiveMeanings(records + [next]) == ActiveMeanings(records) + [Some(next.content.semanticKey)]
  {
    hide IsActive;
  }

  lemma OtherActiveKeys(records: seq<Record>, tenantId: string, next: Record, i: nat)
    requires i < |records| && IsPersisted(records[i], tenantId) && IsPersisted(next, tenantId)
    requires Filter(records, ActiveInSeries(tenantId, next.content.seriesKey)) == []
    requires IsActive(records[i].life.state)
    ensures records[i].content.seriesKey != next.content.seriesKey
    ensures records[i].content.semanticKey != next.content.semanticKey
  {
    hide Filter, IsRebuilt, Replay;
    MeaningNamesSeries(next, tenantId);
    MeaningNamesSeries(records[i], tenantId);
    FilterMembers(records, ActiveInSeries(tenantId, next.content.seriesKey), records[i]);
  }

  lemma ActiveKeysAreNew(records: seq<Record>, tenantId: string, next: Record)
    requires forall i | 0 <= i < |records| :: IsPersisted(records[i], tenantId)
    requires IsPersisted(next, tenantId)
    requires Filter(records, ActiveInSeries(tenantId, next.content.seriesKey)) == []
    ensures Some(next.content.seriesKey) !in ActiveSeries(records)
    ensures Some(next.content.semanticKey) !in ActiveMeanings(records)
  {
    hide Filter, IsPersisted, IsActive;
    forall i | 0 <= i < |records| && IsActive(records[i].life.state)
      ensures records[i].content.seriesKey != next.content.seriesKey
      ensures records[i].content.semanticKey != next.content.semanticKey
    {
      OtherActiveKeys(records, tenantId, next, i);
    }
  }

  /** The first case of a series is always accepted. */
  lemma RootIsAccepted(records: seq<Record>, tenantId: string, actions: seq<RA.Action>, d: Detection)
    requires IsAccepted(records, tenantId, actions) && IsReconcilable(records, d)
    requires Filter(records, ActiveInSeries(tenantId, d.content.seriesKey)) == []
    ensures IsAccepted(records + [RecordOf(d, tenantId, None)], tenantId, actions)
  {
    hide IsAccepted, IsPersisted, IsBuilt, IsBoundedText, FirstIndex, Filter;
    BuiltRecordIsPersisted(d, tenantId, None);
    AppendIsAccepted(records, tenantId, actions, RecordOf(d, tenantId, None));
  }

  lemma IdFits(id: string)
    requires IsBoundedText(id, ID_MAX)
    ensures IsBoundedText(id, REASON_MAX)
  {
  }

  /** A case of an accepted collection is active, dismissed, or superseded by a case already stored. */
  lemma SupersededByStored(records: seq<Record>, tenantId: string, actions: seq<RA.Action>, j: nat, newId: string)
    requires IsAccepted(records, tenantId, actions) && j < |records| && CaseIndex(records, newId).None?
    ensures records[j].life.state == SUPERSEDED ==>
              records[j].life.supersededBy.Some? && records[j].life.supersededBy != Some(newId)
  {
    hide FirstIndex, LinkIsValid, IsRebuilt, Replay, IsAccepted;
    AcceptedAt(records, tenantId, actions, j);
    LoggedLifeIsLived(records[j].audit, records[j].content);
  }

  lemma IndexOfStored(records: seq<Record>, tenantId: string, actions: seq<RA.Action>, j: nat)
    requires IsAccepted(records, tenantId, actions) && j < |records|
    ensures CaseIndex(records, records[j].content.id) == Some(j)
  {
    hide IsPersisted, LinkIsValid, PredecessorIsValid, ReplacementIsValid, AreDistinct;
    IndexOfCase(records, j);
  }

  /**
   * A case that continues a series without active case is accepted exactly when the case that the sort puts
   * first is not later and was dismissed rather than superseded.
   */
  lemma RestartIsExact(records: seq<Record>, tenantId: string, actions: seq<RA.Action>, d: Detection)
    requires IsAccepted(records, tenantId, actions) && IsReconcilable(records, d)
    requires var series := SeriesOf(records, tenantId, d.content.seriesKey);
             series != [] && Filter(records, ActiveInSeries(tenantId, d.content.seriesKey)) == []
    ensures var older := Newest(SeriesOf(records, tenantId, d.content.seriesKey));
            var after := records + [RecordOf(d, tenantId, Some(older.content.id))];
            IsAccepted(after, tenantId, actions) <==>
            older.content.detectedAt <= d.content.detectedAt && older.life.state == DISMISSED
  {
    hide IsPersisted, IsBuilt, IsBoundedText, FirstIndex, Filter, LinkIsValid, HaveDistinctIds, Newest,
      ReplacementIsValid, IsAccepted;
    var key := d.content.seriesKey;
    var a := NewestIsMaximal(SeriesOf(records, tenantId, key));
    var j := RecordOfPlace(records, tenantId, key, a);
    var older := records[j];
    var next := RecordOf(d, tenantId, Some(older.content.id));
    var after := records + [next];
    AcceptedAt(records, tenantId, actions, j);
    PersistedIdIsBounded(older, tenantId);
    FreshDiffers(records, j, d.content.id);
    IdFits(older.content.id);
    BuiltRecordIsPersisted(d, tenantId, Some(older.content.id));
    IndexOfStored(records, tenantId, actions, j);
    LookupsStay(records, next, older.content.id);
    assert after[j] == older && after[|records|] == next;
    SupersededByStored(records, tenantId, actions, j, d.content.id);
    FilterMembers(records, ActiveInSeries(tenantId, key), older);
    if PredecessorIsValid(next, after) {
      AppendIsAccepted(records, tenantId, actions, next);
    } else if IsAccepted(after, tenantId, actions) {
      AcceptedAt(after, tenantId, actions, |records|);
    }
  }

  // ------------------------------------------------------------------ the active case superseded

  /** Some case names the given one as its predecessor. */
  predicate IsNamed(records: seq<Record>, id: string) {
    exists k | 0 <= k < |records| :: records[k].supersedes == Some(id)
  }

  /** Pointers of a case that does not name the superseded one. */
  lemma PointersAfterSuccession(records: seq<Record>, i: nat, sup: Record, next: Record, x: Record)
    requires i < |records| && sup.content == records[i].content && sup.supersedes == records[i].supersedes
    requires CaseIndex(records, next.content.id).None?
    requires PredecessorIsValid(x, records) && x.supersedes != Some(records[i].content.id)
    ensures PredecessorIsValid(x, records[i := sup] + [next])
    ensures ReplacementIsValid(x, records) ==> ReplacementIsValid(x, records[i := sup] + [next])
  {
    hide FirstIndex;
    FreshStaysFresh(records, i, sup, next.content.id);
    if x.supersedes.Some? {
      LookupsSurvive(records, i, sup, x.supersedes.value);
      LookupsStay(records[i := sup], next, x.supersedes.value);
    }
    if x.life.supersededBy.Some? && ReplacementIsValid(x, records) {
      LookupsSurvive(records, i, sup, x.life.supersededBy.value);
      LookupsStay(records[i := sup], next, x.life.supersededBy.value);
    }
  }

  /** Where the superseded case and its successor are found. */
  lemma FoundAfterSuccession(records: seq<Record>, i: nat, sup: Record, next: Record)
    requires i < |records| && HaveDistinctIds(records) && sup.content == records[i].content
    requires CaseIndex(records, next.content.id).None?
    ensures var after := records[i := sup] + [next];
            && CaseIndex(after, sup.content.id) == Some(i) && CaseIndex(after, next.content.id) == Some(|records|)
            && HaveDistinctIds(after)
  {
    hide FirstIndex;
    var after := records[i := sup] + [next];
    forall k | 0 <= k < |records| ensures records[k].content.id != next.content.id {
      FreshDiffers(records, k, next.content.id);
    }
    FirstIndexIs(after, i, CaseWithId(sup.content.id));
    FirstIndexIs(after, |records|, CaseWithId(next.content.id));
  }

  lemma KeysAfterSuccession(records: seq<Record>, tenantId: string, i: nat, sup: Record, next: Record)
    requires forall k | 0 <= k < |records| :: IsPersisted(records[k], tenantId)
    requires i < |records| && IsActive(records[i].life.state) && IsPersisted(next, tenantId)
    requires sup.life.state == SUPERSEDED && next.life.state == OPEN
    requires next.content.seriesKey == records[i].content.seriesKey
    requires AreDistinct(ActiveSeries(records)) && AreDistinct(ActiveMeanings(records))
    ensures var after := records[i := sup] + [next];
            AreDistinct(ActiveSeries(after)) && AreDistinct(ActiveMeanings(after))
  {
    hide IsPersisted;
    var after := records[i := sup] + [next];
    var s, m := ActiveSeries(records), ActiveMeanings(records);
    var t, n := ActiveSeries(after), ActiveMeanings(after);
    MeaningNamesSeries(next, tenantId);
    forall k | 0 <= k < |records| && t[k].Some?
      ensures t[k] == s[k] && n[k] == m[k] && t[k] != t[|records|] && n[k] != n[|records|]
    {
      MeaningNamesSeries(records[k], tenantId);
      assert k != i && s[k] != s[i];
    }
  }

  lemma SuccessionIsAccepted(records: seq<Record>, tenantId: string, actions: seq<RA.Action>, q: Request, d: Detection,
                             i: nat)
    requires IsAccepted(records, tenantId, actions) && IsIssued(q) && IsReconcilable(records, d)
    requires i < |records| && IsActive(records[i].life.state) && records[i].content.seriesKey == d.content.seriesKey
    requires CanBeLogged(q.subjectId, d.content.detectedAt, records[i].content.detectedAt)
    requires !IsNamed(records, records[i].content.id)
    ensures IsAccepted(records[i := SupersededRecord(records[i], d, q.subjectId)]
                       + [RecordOf(d, tenantId, Some(records[i].content.id))], tenantId, actions)
  {
    hide IsPersisted, IsBuilt, IsBoundedText, ByteLength, FirstIndex, LinkIsValid, AreDistinct, HaveDistinctIds,
      IsActive;
    var r := records[i];
    var sup := SupersededRecord(r, d, q.subjectId);
    var next := RecordOf(d, tenantId, Some(r.content.id));
    var after := records[i := sup] + [next];
    AcceptedAt(records, tenantId, actions, i);
    SupersededIsPersisted(r, d, q, tenantId);
    SupersededLinkIsValid(r, d, q.subjectId, actions);
    PersistedIdIsBounded(r, tenantId);
    FreshDiffers(records, i, d.content.id);
    BuiltRecordIsPersisted(d, tenantId, Some(r.content.id));
    FoundAfterSuccession(records, i, sup, next);
    KeysAfterSuccession(records, tenantId, i, sup, next);
    NewLifeHasNoPointers(next, after, actions);
    assert after[i] == sup && after[|records|] == next;
    forall k | 0 <= k < |after|
      ensures IsPersisted(after[k], tenantId) && LinkIsValid(after[k], actions)
      ensures PredecessorIsValid(after[k], after) && ReplacementIsValid(after[k], after)
    {
      if k < |records| {
        assert records[k].supersedes != Some(r.content.id);
        PointersAfterSuccession(records, i, sup, next, records[k]);
      }
    }
  }

  /**
   * Superseding the active case of a series is accepted exactly when the subject and time fit its log and no
   * case names it as predecessor yet.
   */
  lemma SuccessionIsExact(records: seq<Record>, tenantId: string, actions: seq<RA.Action>, q: Request, d: Detection,
                          i: nat)
    requires IsAccepted(records, tenantId, actions) && IsIssued(q) && IsReconcilable(records, d)
    requires i < |records| && IsActive(records[i].life.state) && records[i].content.seriesKey == d.content.seriesKey
    ensures var after := records[i := SupersededRecord(records[i], d, q.subjectId)]
                         + [RecordOf(d, tenantId, Some(records[i].content.id))];
            IsAccepted(after, tenantId, actions) <==>
            && CanBeLogged(q.subjectId, d.content.detectedAt, records[i].content.detectedAt)
            && !IsNamed(records, records[i].content.id)
  {
    hide IsAccepted, IsPersisted, IsBuilt, IsBoundedText, ByteLength, FirstIndex, LinkIsValid, ReplacementIsValid;
    var r := records[i];
    var sup := SupersededRecord(r, d, q.subjectId);
    var next := RecordOf(d, tenantId, Some(r.content.id));
    var after := records[i := sup] + [next];
    AcceptedAt(records, tenantId, actions, i);
    SupersededIsPersisted(r, d, q, tenantId);
    FoundAfterSuccession(records, i, sup, next);
    assert after[i] == sup;
    if !IsPersisted(sup, tenantId) {
      NotPersistedIsRefused(after, tenantId, actions, i);
    } else if IsNamed(records, r.content.id) {
      var k :| 0 <= k < |records| && records[k].supersedes == Some(r.content.id);
      NotItself(records, tenantId, actions, k);
      FreshDiffers(records, k, d.content.id);
      assert after[k] == records[k] && !PredecessorIsValid(records[k], after);
      if IsAccepted(after, tenantId, actions) { AcceptedAt(after, tenantId, actions, k); }
    } else {
      SuccessionIsAccepted(records, tenantId, actions, q, d, i);
    }
  }

  lemma NotItself(records: seq<Record>, tenantId: string, actions: seq<RA.Action>, k: nat)
    requires IsAccepted(records, tenantId, actions) && k < |records|
    ensures records[k].supersedes != Some(records[k].content.id)
  {
    hide IsAccepted, IsRebuilt, Replay, LinkIsValid, PredecessorIsValid, ReplacementIsValid;
    AcceptedAt(records, tenantId, actions, k);
  }

  // ------------------------------------------------------------------ main result

  /** The condition for the write of a new case, checkable before the call. */
  predicate CanBeWritten(records: seq<Record>, tenantId: string, q: Request, d: Detection) {
    var active := FirstIndex(records, ActiveInSeries(tenantId, d.content.seriesKey));
    var series := SeriesOf(records, tenantId, d.content.seriesKey);
    if active.Some? then
      && CanBeLogged(q.subjectId, d.content.detectedAt, records[active.value].content.detectedAt)
      && !IsNamed(records, records[active.value].content.id)
    else
      series != [] ==>
        Newest(series).content.detectedAt <= d.content.detectedAt && Newest(series).life.state == DISMISSED
  }

  /**
   * The write check of a reconciliation, from any accepted collection. With an active case it refuses exactly when
   * that case cannot log the subject and time or is named as predecessor already; without one, exactly when the
   * case that the sort puts first is later or was superseded.
   */
  lemma ReconcileCheckIsExact(records: seq<Record>, opportunities: seq<string>, actions: seq<RA.Action>,
                              tenantId: string, q: Request, d: Detection)
    requires IsAccepted(records, tenantId, actions)
    requires IsIssued(q) && q.tenantId == tenantId && IsReconcilable(records, d)
    requires ReconcileRecord(records, opportunities, q, d).Settled?
    ensures var r := ReconcileRecord(records, opportunities, q, d);
            && (!r.answer.created ==> r.records == records)
            && (r.answer.created ==>
                  (IsAccepted(r.records, tenantId, actions) <==> CanBeWritten(records, tenantId, q, d)))
  {
    hide IsAccepted, IsBuilt, IsBoundedText, Filter, FirstIndex, NormalizeCommercialValue, IsNamed, CanBeLogged,
      RecordOf, SupersededRecord, Newest;
    var key := d.content.seriesKey;
    var r := ReconcileRecord(records, opportunities, q, d);
    var series := SeriesOf(records, tenantId, key);
    var i := FirstIndex(records, ActiveInSeries(tenantId, key));
    OneActiveOfSeries(records, tenantId, actions, key);
    if r.answer.created {
      if i.Some? {
        SuccessionIsExact(records, tenantId, actions, q, d, i.value);
      } else if series != [] {
        RestartIsExact(records, tenantId, actions, d);
      } else {
        RootIsAccepted(records, tenantId, actions, d);
      }
    }
  }

  // ------------------------------------------------------------------ whole calls

  /** A call on an accepted store is an integrity conflict exactly when its write check refuses. */
  lemma ReconcileRefusal(records: seq<Record>, actions: seq<RA.Action>, opportunities: seq<string>, tenantId: string,
                         q: Request, d: Detection)
    requires IsAccepted(records, tenantId, actions) && IsIssued(q) && q.tenantId == tenantId
             && IsReconcilable(records, d)
    ensures var r := ReconcileRecord(records, opportunities, q, d);
            && (r.Refused? <==> d.content.opportunityId !in opportunities)
            && (Reconcile(records, actions, opportunities, tenantId, q, d) == Refused(INTEGRITY_CONFLICT) <==>
                r.Settled? && r.answer.created && !CanBeWritten(records, tenantId, q, d))
  {
    hide IsAccepted, IsBuilt, IsBoundedText, Filter, FirstIndex, NormalizeCommercialValue, CanBeWritten, Newest,
      RecordOf, SupersededRecord;
    OneActiveOfSeries(records, tenantId, actions, d.content.seriesKey);
    BuiltIsCanonical(d);
    if ReconcileRecord(records, opportunities, q, d).Settled? {
      ReconcileCheckIsExact(records, opportunities, actions, tenantId, q, d);
    }
  }

  /**
   * A granted transition of a stored case is an integrity conflict exactly when its subject or time cannot be
   * logged.
   */
  lemma TransitionRefusal(records: seq<Record>, actions: seq<RA.Action>, tenantId: string, q: Request, id: string,
                          to: CaseState, reason: string, at: int, wakeAt: int)
    requires IsAccepted(records, tenantId, actions) && IsIssued(q) && q.tenantId == tenantId
    ensures var i := FirstIndex(records, TenantCase(tenantId, id));
            Transition(records, actions, tenantId, q, id, to, reason, at, wakeAt) == Failed(INTEGRITY_CONFLICT) <==>
            && i.Some? && Transitioned(records[i.value], to, reason, at, wakeAt, q.subjectId).Some?
            && !CanBeLogged(q.subjectId, at, records[i.value].content.detectedAt)
  {
    hide IsAccepted, FirstIndex, Transitioned, CanBeLogged;
    var i := FirstIndex(records, TenantCase(tenantId, id));
    if i.Some? && Transitioned(records[i.value], to, reason, at, wakeAt, q.subjectId).Some? {
      TransitionCheckIsExact(records, actions, tenantId, q, i.value, to, reason, at, wakeAt);
    }
  }

  /** A link of an unlinked active case to a usable action is one when it precedes the action or cannot be logged. */
  lemma LinkRefusal(records: seq<Record>, actions: seq<RA.Action>, tenantId: string, q: Request, id: string,
                    actionId: string, at: int)
    requires IsAccepted(records, tenantId, actions) && IsIssued(q) && q.tenantId == tenantId
    ensures var i := FirstIndex(records, TenantCase(tenantId, id));
            LinkAction(records, actions, tenantId, q, id, actionId, at) == Failed(INTEGRITY_CONFLICT) <==>
            && i.Some? && IsActive(records[i.value].life.state) && records[i.value].life.actionId.None?
            && var a := ActionReference(actions, Trim(actionId), records[i.value].content.opportunityId);
               && a.Some?
               && (at < a.value.createdAt || !IsBoundedText(Trim(actionId), ID_MAX)
                   || !CanBeLogged(q.subjectId, at, records[i.value].content.detectedAt))
  {
    hide IsAccepted, FirstIndex, CanBeLogged, ActionReference, IsBoundedText, LinkedRecord, Trim, IsActive;
    var i := FirstIndex(records, TenantCase(tenantId, id));
    if i.Some? && IsActive(records[i.value].life.state) && records[i.value].life.actionId.None? {
      var a := ActionReference(actions, Trim(actionId), records[i.value].content.opportunityId);
      if a.Some? && at >= a.value.createdAt {
        LinkCheckIsExact(records, actions, tenantId, q, i.value, Trim(actionId), at);
      }
    }
  }
}

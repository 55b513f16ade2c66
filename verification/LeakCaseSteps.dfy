/** What moving and linking a case does to its record and to the chain invariant. */
module LeakCaseSteps {
  import opened Text
  import opened Lists
  import RA = RevenueActions
  import opened LeakCases
  import opened LeakCaseRebuild
  import opened LeakCaseStore
  import opened LeakCaseInvariant

  // ------------------------------------------------------------------ one record moved

  /** The subject and time that an audit entry of a case detected at the given time can hold. */
  predicate CanBeLogged(subjectId: string, at: int, detectedAt: int) {
    ByteLength(subjectId) <= SUBJECT_MAX && at >= detectedAt
  }

  lemma MovedIsPersisted(r: Record, life: Life, event: Event, at: int, subjectId: string, tenantId: string)
    requires IsPersisted(r, tenantId)
    ensures var m := Move(r, life, event, at, subjectId);
            IsPersisted(m, tenantId) <==>
            Advance(r.life, Entry(event, at, subjectId), r.content.detectedAt) == Some(life)
  {
    hide Advance, BuildDetection, IsBoundedText, Replay;
    ReplayIsNonempty(r.audit, r.content);
    ReplayAppend(r.audit, Entry(event, at, subjectId), r.content);
  }

  lemma ReplayIsNonempty(audit: seq<Entry>, c: Content)
    requires Replay(audit, c).Some?
    ensures audit != []
  {
  }

  /** A granted transition yields a persisted case exactly when its subject and time can be logged. */
  lemma TransitionedIsPersisted(r: Record, to: CaseState, reason: string, at: int, wakeAt: int, q: Request,
                                tenantId: string)
    requires IsPersisted(r, tenantId) && IsIssued(q)
    requires Transitioned(r, to, reason, at, wakeAt, q.subjectId).Some?
    ensures var m := Transitioned(r, to, reason, at, wakeAt, q.subjectId).value;
            && (IsPersisted(m, tenantId) <==> CanBeLogged(q.subjectId, at, r.content.detectedAt))
            && m.content == r.content && m.tenantId == r.tenantId && m.supersedes == r.supersedes
            && m.life.state != SUPERSEDED && IsActive(r.life.state)
            && m.life.actionId == r.life.actionId && m.life.fingerprint == r.life.fingerprint
            && m.life.linkedAt == r.life.linkedAt
  {
    hide IsPersisted, NonEmpty, IsTrimmed, ByteLength;
    NonEmptyIsBounded(reason, REASON_MAX);
    var m := Transitioned(r, to, reason, at, wakeAt, q.subjectId).value;
    var e := m.audit[|r.audit|];
    MovedIsPersisted(r, m.life, e.event, at, q.subjectId, tenantId);
  }

  lemma LinkedIsPersisted(r: Record, a: RA.Action, at: int, q: Request, tenantId: string)
    requires IsPersisted(r, tenantId) && IsIssued(q) && IsActive(r.life.state) && r.life.actionId.None?
    ensures IsPersisted(LinkedRecord(r, a, at, q.subjectId), tenantId) <==>
            CanBeLogged(q.subjectId, at, r.content.detectedAt) && IsBoundedText(a.id, ID_MAX)
  {
    hide IsPersisted, IsTrimmed, ByteLength;
    var m := LinkedRecord(r, a, at, q.subjectId);
    MovedIsPersisted(r, m.life, Linked(a.id, a.basis, a.life.status), at, q.subjectId, tenantId);
  }

  lemma SupersededIsPersisted(r: Record, d: Detection, q: Request, tenantId: string)
    requires IsPersisted(r, tenantId) && IsIssued(q) && IsActive(r.life.state) && IsBoundedText(d.content.id, ID_MAX)
    ensures IsPersisted(SupersededRecord(r, d, q.subjectId), tenantId) <==>
            CanBeLogged(q.subjectId, d.content.detectedAt, r.content.detectedAt)
  {
    hide IsPersisted, IsTrimmed, ByteLength;
    var m := SupersededRecord(r, d, q.subjectId);
    MovedIsPersisted(r, m.life, WasSuperseded(EVIDENCE_CHANGED, d.content.id, d.content.semanticKey),
      d.content.detectedAt, q.subjectId, tenantId);
  }

  // ------------------------------------------------------------------ one slot of the collection replaced

  /** Replacing an active case replaces the last of its series and no other series. */
  lemma SeriesAfterReplace(records: seq<Record>, tenantId: string, actions: seq<RA.Action>, i: nat, r: Record)
    requires CaseInv(records, tenantId, actions) && i < |records| && IsActive(records[i].life.state)
    requires r.content == records[i].content && r.tenantId == records[i].tenantId
    ensures var key := r.content.seriesKey;
            && SeriesOf(records, tenantId, key) == SeriesOf(records[..i], tenantId, key) + [records[i]]
            && SeriesOf(records[i := r], tenantId, key) == SeriesOf(records[..i], tenantId, key) + [r]
            && forall other: SeriesKey | other != key ::
                 SeriesOf(records[i := r], tenantId, other) == SeriesOf(records, tenantId, other)
  {
    hide Filter, AreChains, IsRebuilt, Replay, LinkIsValid, HaveDistinctIds;
    var key := r.content.seriesKey;
    assert IsPersisted(records[i], tenantId);
    forall j | i < j < |records| ensures !InSeries(tenantId, key)(records[j]) {
      ActiveIsLast(records, tenantId, actions, i, j);
    }
    FilterReplaceLast(records, i, r, InSeries(tenantId, key));
    forall other: SeriesKey | other != key
      ensures SeriesOf(records[i := r], tenantId, other) == SeriesOf(records, tenantId, other)
    {
      FilterReplaceSame(records, i, r, InSeries(tenantId, other));
    }
  }

  lemma ChainEndReplaced(pre: seq<Record>, last: Record, other: Record)
    requires IsChain(pre + [last]) && other.content == last.content && other.supersedes == last.supersedes
    requires other.life.state != SUPERSEDED
    ensures IsChain(pre + [other])
  {
    var s, t := pre + [last], pre + [other];
    forall k | 0 < k < |t| ensures Follows(t[k - 1], t[k]) {
      assert Follows(s[k - 1], s[k]);
    }
    assert t[0] == if pre == [] then other else s[0];
  }

  lemma TimesEndReplaced(pre: seq<Record>, last: Record, other: Record)
    requires HasIncreasingTimes(pre + [last]) && other.content == last.content
    ensures HasIncreasingTimes(pre + [other])
  {
    var s, t := pre + [last], pre + [other];
    forall j, k | 0 <= j < k < |t| ensures t[j].content.detectedAt < t[k].content.detectedAt {
      assert s[j].content.detectedAt < s[k].content.detectedAt;
    }
  }

  lemma ReplacedKeepsIds(records: seq<Record>, i: nat, r: Record)
    requires HaveDistinctIds(records) && i < |records| && r.content.id == records[i].content.id
    ensures HaveDistinctIds(records[i := r])
  {
  }

  /** Replacing an active case by a persisted one of the same content keeps the invariant. */
  lemma UpdateKeepsInv(records: seq<Record>, tenantId: string, actions: seq<RA.Action>, i: nat, r: Record)
    requires CaseInv(records, tenantId, actions) && i < |records| && IsActive(records[i].life.state)
    requires r.content == records[i].content && r.tenantId == records[i].tenantId
    requires r.supersedes == records[i].supersedes && r.life.state != SUPERSEDED
    requires IsPersisted(r, tenantId) && LinkIsValid(r, actions)
    ensures CaseInv(records[i := r], tenantId, actions)
  {
    hide Filter, IsChain, IsPersisted, LinkIsValid, HaveDistinctIds;
    SeriesAfterReplace(records, tenantId, actions, i, r);
    var updated := records[i := r];
    forall key: SeriesKey ensures IsChain(SeriesOf(updated, tenantId, key)) {
      assert IsChain(SeriesOf(records, tenantId, key));
      if key == r.content.seriesKey {
        ChainEndReplaced(SeriesOf(records[..i], tenantId, key), records[i], r);
      }
    }
    ReplacedKeepsIds(records, i, r);
  }

  lemma UpdateKeepsTimes(records: seq<Record>, tenantId: string, actions: seq<RA.Action>, i: nat, r: Record)
    requires CaseInv(records, tenantId, actions) && i < |records| && IsActive(records[i].life.state)
    requires r.content == records[i].content && r.tenantId == records[i].tenantId
    requires TimesIncrease(records, tenantId)
    ensures TimesIncrease(records[i := r], tenantId)
  {
    hide Filter, CaseInv;
    SeriesAfterReplace(records, tenantId, actions, i, r);
    var updated := records[i := r];
    forall key: SeriesKey ensures HasIncreasingTimes(SeriesOf(updated, tenantId, key)) {
      assert HasIncreasingTimes(SeriesOf(records, tenantId, key));
      if key == r.content.seriesKey {
        TimesEndReplaced(SeriesOf(records[..i], tenantId, key), records[i], r);
      }
    }
  }

  // ------------------------------------------------------------------ transition and link

  lemma InvAt(records: seq<Record>, tenantId: string, actions: seq<RA.Action>, i: nat)
    requires CaseInv(records, tenantId, actions) && i < |records|
    ensures IsPersisted(records[i], tenantId) && LinkIsValid(records[i], actions) && records[i].tenantId == tenantId
  {
    hide AreChains, HaveDistinctIds, IsRebuilt, Replay, LinkIsValid;
    assert IsPersisted(records[i], tenantId);
  }

  /** A transition whose subject and time fit the log keeps the chains. */
  lemma TransitionKeepsInv(records: seq<Record>, actions: seq<RA.Action>, tenantId: string, q: Request, i: nat,
                           to: CaseState, reason: string, at: int, wakeAt: int)
    requires CaseInv(records, tenantId, actions) && IsIssued(q) && i < |records|
    requires Transitioned(records[i], to, reason, at, wakeAt, q.subjectId).Some?
    requires CanBeLogged(q.subjectId, at, records[i].content.detectedAt)
    ensures var r := Transitioned(records[i], to, reason, at, wakeAt, q.subjectId).value;
            CaseInv(records[i := r], tenantId, actions)
  {
    hide IsPersisted, CaseInv, Transitioned, CanBeLogged;
    InvAt(records, tenantId, actions, i);
    TransitionedIsPersisted(records[i], to, reason, at, wakeAt, q, tenantId);
    UpdateKeepsInv(records, tenantId, actions, i, Transitioned(records[i], to, reason, at, wakeAt, q.subjectId).value);
  }

  lemma FreshLinkIsValid(r: Record, actions: seq<RA.Action>, a: RA.Action, at: int, subjectId: string)
    requires ActionReference(actions, a.id, r.content.opportunityId) == Some(a) && at >= a.createdAt
    ensures LinkIsValid(LinkedRecord(r, a, at, subjectId), actions)
  {
    hide Filter;
  }

  lemma ReferenceHasId(actions: seq<RA.Action>, id: string, opportunityId: string)
    requires ActionReference(actions, id, opportunityId).Some?
    ensures ActionReference(actions, id, opportunityId).value.id == id
    ensures ActionReference(actions, id, opportunityId).value in actions
  {
    hide Filter;
    FilterMembers(actions, RA.HasId(id), ActionReference(actions, id, opportunityId).value);
  }

  /** So does a link to an action that exists once, belongs to the opportunity and is not newer. */
  lemma LinkKeepsInv(records: seq<Record>, actions: seq<RA.Action>, tenantId: string, q: Request, i: nat, id: string,
                     at: int)
    requires CaseInv(records, tenantId, actions) && IsIssued(q) && i < |records|
    requires IsActive(records[i].life.state) && records[i].life.actionId.None?
    requires var a := ActionReference(actions, id, records[i].content.opportunityId);
             a.Some? && at >= a.value.createdAt
    requires CanBeLogged(q.subjectId, at, records[i].content.detectedAt) && IsBoundedText(id, ID_MAX)
    ensures var a := ActionReference(actions, id, records[i].content.opportunityId).value;
            CaseInv(records[i := LinkedRecord(records[i], a, at, q.subjectId)], tenantId, actions)
  {
    hide IsPersisted, CaseInv, ActionReference, CanBeLogged, IsBoundedText, LinkIsValid;
    InvAt(records, tenantId, actions, i);
    ReferenceHasId(actions, id, records[i].content.opportunityId);
    var a := ActionReference(actions, id, records[i].content.opportunityId).value;
    LinkedIsPersisted(records[i], a, at, q, tenantId);
    FreshLinkIsValid(records[i], actions, a, at, q.subjectId);
    UpdateKeepsInv(records, tenantId, actions, i, LinkedRecord(records[i], a, at, q.subjectId));
  }
}

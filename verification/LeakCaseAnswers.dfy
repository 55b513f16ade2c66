/** What the operations of the case store answer, told from the stored records. */
module LeakCaseAnswers {
  import opened Text
  import opened Lists
  import RA = RevenueActions
  import opened LeakCases
  import opened LeakCaseRebuild
  import opened LeakCaseStore
  import opened LeakCaseSteps
  import opened LeakCaseReconcile
  import opened LeakCaseAcceptance

  // ------------------------------------------------------------------ transitions

  /** A reason of at most a thousand bytes is given and the state admits the move: snoozing needs a later wake time. */
  predicate IsGranted(from: CaseState, to: CaseState, reason: string, at: int, wakeAt: int) {
    && Trim(reason) != "" && ByteLength(Trim(reason)) <= 1000
    && (|| (from == OPEN && to == SNOOZED && at < wakeAt)
        || (from == SNOOZED && to == OPEN)
        || (from in {OPEN, SNOOZED} && to == DISMISSED))
  }

  /** The log entry of a granted transition. */
  function TransitionEvent(to: CaseState, reason: string, wakeAt: int): Event {
    if to == SNOOZED then WasSnoozed(Trim(reason), wakeAt)
    else if to == OPEN then Reopened(Trim(reason)) else WasDismissed(Trim(reason))
  }

  /** m is r with one more log entry and the same content, predecessor and link. */
  predicate IsLogged(r: Record, m: Record, entry: Entry) {
    && m.tenantId == r.tenantId && m.content == r.content && m.supersedes == r.supersedes
    && m.audit == r.audit + [entry]
  }

  predicate HasSameLink(r: Record, m: Record) {
    && m.life.actionId == r.life.actionId && m.life.fingerprint == r.life.fingerprint
    && m.life.statusAtLink == r.life.statusAtLink && m.life.linkedAt == r.life.linkedAt
  }

  /**
   * A transition is refused exactly when it is not granted; a granted one changes the one record, by one log entry, to
   * the state asked for, unless its subject or time cannot be logged.
   */
  lemma TransitionedExactlyWhen(records: seq<Record>, actions: seq<RA.Action>, tenantId: string, q: Request, i: nat,
                                to: CaseState, reason: string, at: int, wakeAt: int)
    requires IsAccepted(records, tenantId, actions) && IsIssued(q) && q.tenantId == tenantId && i < |records|
    ensures var r := records[i];
            var u := Transition(records, actions, tenantId, q, r.content.id, to, reason, at, wakeAt);
            if !IsGranted(r.life.state, to, reason, at, wakeAt) then u == Failed(TRANSITION_INVALID)
            else if !CanBeLogged(q.subjectId, at, r.content.detectedAt) then u == Failed(INTEGRITY_CONFLICT)
            else
              && u.Updated? && !u.duplicate && u.records == records[i := u.record]
              && u.record.life.state == to && HasSameLink(r, u.record)
              && IsLogged(r, u.record, Entry(TransitionEvent(to, reason, wakeAt), at, q.subjectId))
  {
    hide IsAccepted, FirstIndex, CanBeLogged, ByteLength, Trim;
    CaseIsFirst(records, tenantId, actions, i);
    if IsGranted(records[i].life.state, to, reason, at, wakeAt) {
      TransitionCheckIsExact(records, actions, tenantId, q, i, to, reason, at, wakeAt);
    }
  }

  // ------------------------------------------------------------------ links

  /** Action k is the only one of the id, and belongs to the opportunity. */
  predicate IsUsable(actions: seq<RA.Action>, k: nat, id: string, opportunityId: string) {
    && k < |actions| && actions[k].id == id && actions[k].opportunityId == opportunityId
    && forall j | 0 <= j < |actions| && j != k :: actions[j].id != id
  }

  lemma ReferenceExactly(actions: seq<RA.Action>, id: string, opportunityId: string)
    ensures var a := ActionReference(actions, id, opportunityId);
            && (a.Some? <==> exists k | 0 <= k < |actions| :: IsUsable(actions, k, id, opportunityId))
            && forall k | 0 <= k < |actions| && IsUsable(actions, k, id, opportunityId) :: a == Some(actions[k])
  {
    hide Filter;
    var p := RA.HasId(id);
    var matches := Filter(actions, p);
    forall k | 0 <= k < |actions| && IsUsable(actions, k, id, opportunityId)
      ensures matches == [actions[k]]
    {
      FilterOnly(actions, p, k);
    }
    if ActionReference(actions, id, opportunityId).Some? {
      FilterMembers(actions, p, matches[0]);
      var k :| 0 <= k < |actions| && actions[k] == matches[0];
      forall j | 0 <= j < |actions| && j != k ensures actions[j].id != id {
        if p(actions[j]) {
          var a, b := FilterKeepsOrder(actions, p, if j < k then j else k, if j < k then k else j);
        }
      }
      assert IsUsable(actions, k, id, opportunityId);
    }
  }

  /** What linking a usable action to an open, unlinked case comes to. */
  predicate IsLinkOf(records: seq<Record>, u: Update, i: nat, q: Request, a: RA.Action, at: int)
    requires i < |records|
  {
    var r := records[i];
    if at < a.createdAt || !CanBeLogged(q.subjectId, at, r.content.detectedAt) || a.id == "" || ByteLength(a.id) > 255
    then
      u == Failed(INTEGRITY_CONFLICT)
    else
      && u.Updated? && !u.duplicate && u.records == records[i := u.record]
      && IsLogged(r, u.record, Entry(Linked(a.id, a.basis, a.life.status), at, q.subjectId))
      && u.record.life.state == r.life.state
      && u.record.life.actionId == Some(a.id) && u.record.life.linkedAt == Some(at)
      && u.record.life.fingerprint == Some(a.basis) && u.record.life.statusAtLink == Some(a.life.status)
  }

  /**
   * A terminal case takes no link. A linked one confirms its action and refuses every other. An open one takes the only
   * stored action of the id, if it is one of the same opportunity and not newer than the link.
   */
  lemma LinkedExactlyWhen(records: seq<Record>, actions: seq<RA.Action>, tenantId: string, q: Request, i: nat,
                          actionId: string, at: int)
    requires IsAccepted(records, tenantId, actions) && IsIssued(q) && q.tenantId == tenantId && i < |records|
    ensures var r := records[i]; var wanted := Trim(actionId);
            var u := LinkAction(records, actions, tenantId, q, r.content.id, actionId, at);
            if r.life.state in {DISMISSED, SUPERSEDED} then u == Failed(TRANSITION_INVALID)
            else if r.life.actionId.Some? then
              u == if r.life.actionId == Some(wanted) then Updated(records, r, true) else Failed(ACTION_LINK_CONFLICT)
            else if exists k | 0 <= k < |actions| :: IsUsable(actions, k, wanted, r.content.opportunityId) then
              forall k | 0 <= k < |actions| && IsUsable(actions, k, wanted, r.content.opportunityId) ::
                IsLinkOf(records, u, i, q, actions[k], at)
            else u == Failed(ACTION_UNAVAILABLE)
  {
    hide IsAccepted, FirstIndex, CanBeLogged, ByteLength, Trim, ActionReference, IsUsable;
    var wanted := Trim(actionId);
    CaseIsFirst(records, tenantId, actions, i);
    ReferenceExactly(actions, wanted, records[i].content.opportunityId);
    TrimTrims(actionId);
    var a := ActionReference(actions, wanted, records[i].content.opportunityId);
    if a.Some? {
      ReferenceHasId(actions, wanted, records[i].content.opportunityId);
      if IsActive(records[i].life.state) && records[i].life.actionId.None? && at >= a.value.createdAt {
        LinkCheckIsExact(records, actions, tenantId, q, i, wanted, at);
      }
    }
  }

  // ------------------------------------------------------------------ reconciliation

  predicate IsOfSeries(r: Record, tenantId: string, key: SeriesKey) {
    r.tenantId == tenantId && r.content.seriesKey == key
  }

  predicate IsActiveAt(records: seq<Record>, i: nat, tenantId: string, key: SeriesKey) {
    i < |records| && IsOfSeries(records[i], tenantId, key) && records[i].life.state in {OPEN, SNOOZED}
  }

  /** Case i is the latest detected one of its series, the first stored one among equals. */
  predicate IsNewestAt(records: seq<Record>, i: nat, tenantId: string, key: SeriesKey) {
    && i < |records| && IsOfSeries(records[i], tenantId, key)
    && (forall j | 0 <= j < i && IsOfSeries(records[j], tenantId, key) ::
          records[j].content.detectedAt < records[i].content.detectedAt)
    && (forall j | i < j < |records| && IsOfSeries(records[j], tenantId, key) ::
          records[j].content.detectedAt <= records[i].content.detectedAt)
  }

  lemma {:induction false} NewestExactly(records: seq<Record>, i: nat, tenantId: string, key: SeriesKey)
    requires IsNewestAt(records, i, tenantId, key)
    ensures var series := SeriesOf(records, tenantId, key); series != [] && Newest(series) == records[i]
  {
    var n := |records| - 1;
    var front := SeriesOf(records[..n], tenantId, key);
    if i < n {
      NewestExactly(records[..n], i, tenantId, key);
      assert (front + [records[n]])[..|front|] == front;
      assert front + [] == front;
    } else {
      forall r | r in front ensures r.content.detectedAt < records[n].content.detectedAt {
        FilterMembers(records[..n], InSeries(tenantId, key), r);
      }
      assert (front + [records[n]])[..|front|] == front;
      if front != [] { NewestIsMember(front); }
    }
  }

  lemma {:induction false} NewestIsMember(series: seq<Record>)
    requires series != []
    ensures Newest(series) in series
  {
    if |series| > 1 { NewestIsMember(series[..|series| - 1]); }
  }

  /** The answer and the stored case of a detection that opens one. */
  predicate Opens(a: Reconciled, d: Detection, tenantId: string, predecessor: Option<string>) {
    && a.created && !a.duplicate && !a.terminal
    && a.record.tenantId == tenantId && a.record.content == d.content && a.record.life.state == OPEN
    && a.record.supersedes == predecessor
  }

  /** The stored case r, named as superseded by the detection in one more log entry. */
  predicate IsSupersededBy(r: Record, m: Record, d: Detection, q: Request) {
    && IsLogged(r, m, Entry(WasSuperseded("CANONICAL_EVIDENCE_CHANGED", d.content.id, d.content.semanticKey),
         d.content.detectedAt, q.subjectId))
    && m.life.state == SUPERSEDED && m.life.supersededBy == Some(d.content.id) && HasSameLink(r, m)
  }

  /** What reconciling a detection comes to that meets the active case i of its series. */
  predicate MeetsActive(records: seq<Record>, r: Reconciliation, i: nat, tenantId: string, q: Request, d: Detection)
    requires i < |records|
  {
    if records[i].content.semanticKey == d.content.semanticKey then
      r == Settled(records, Reconciled(records[i], false, true, false, None))
    else
      r == Refused(INTEGRITY_CONFLICT)
      || (&& r.Settled? && Opens(r.answer, d, tenantId, Some(records[i].content.id))
          && r.answer.supersededId == Some(records[i].content.id) && |r.records| == |records| + 1
          && IsSupersededBy(records[i], r.records[i], d, q)
          && r.records == records[i := r.records[i]] + [r.answer.record])
  }

  /** What it comes to when no case of the series is active and i is the newest one. */
  predicate MeetsEnded(records: seq<Record>, r: Reconciliation, i: nat, tenantId: string, d: Detection)
    requires i < |records|
  {
    if records[i].content.semanticKey == d.content.semanticKey then
      r == Settled(records, Reconciled(records[i], false, true, true, None))
    else
      r == Refused(INTEGRITY_CONFLICT)
      || (&& r.Settled? && Opens(r.answer, d, tenantId, Some(records[i].content.id))
          && r.answer.supersededId.None? && r.records == records + [r.answer.record])
  }

  lemma ActiveIsMet(records: seq<Record>, actions: seq<RA.Action>, opportunities: seq<string>, tenantId: string,
                    q: Request, d: Detection, i: nat)
    requires IsAccepted(records, tenantId, actions) && q.tenantId == tenantId && IsReconcilable(records, d)
    requires d.content.opportunityId in opportunities && IsActiveAt(records, i, tenantId, d.content.seriesKey)
    ensures MeetsActive(records, Reconcile(records, actions, opportunities, tenantId, q, d), i, tenantId, q, d)
  {
    hide IsAccepted, IsBuilt, FirstIndex, Filter, NormalizeCommercialValue, Newest, IsBoundedText, CaseIndex;
    var p := ActiveInSeries(tenantId, d.content.seriesKey);
    OneActiveOfSeries(records, tenantId, actions, d.content.seriesKey);
    FilterMembers(records, p, records[i]);
    OnlyOneKept(records, p, i);
    BuiltIsCanonical(d);
  }

  lemma NoneIsActive(records: seq<Record>, tenantId: string, key: SeriesKey)
    requires !(exists j | 0 <= j < |records| :: IsActiveAt(records, j, tenantId, key))
    ensures Filter(records, ActiveInSeries(tenantId, key)) == []
  {
    hide Filter;
    forall j | 0 <= j < |records| ensures !ActiveInSeries(tenantId, key)(records[j]) {
      assert !IsActiveAt(records, j, tenantId, key);
    }
    FilterNone(records, ActiveInSeries(tenantId, key));
  }

  lemma EndedIsMet(records: seq<Record>, actions: seq<RA.Action>, opportunities: seq<string>, tenantId: string,
                   q: Request, d: Detection, i: nat)
    requires IsAccepted(records, tenantId, actions) && q.tenantId == tenantId && IsReconcilable(records, d)
    requires d.content.opportunityId in opportunities && IsNewestAt(records, i, tenantId, d.content.seriesKey)
    requires !(exists j | 0 <= j < |records| :: IsActiveAt(records, j, tenantId, d.content.seriesKey))
    ensures MeetsEnded(records, Reconcile(records, actions, opportunities, tenantId, q, d), i, tenantId, d)
  {
    hide IsAccepted, IsBuilt, FirstIndex, Filter, NormalizeCommercialValue, Newest, IsBoundedText, CaseIndex,
      IsNewestAt, IsActiveAt;
    NoneIsActive(records, tenantId, d.content.seriesKey);
    NewestExactly(records, i, tenantId, d.content.seriesKey);
    BuiltIsCanonical(d);
  }

  lemma FirstOpens(records: seq<Record>, actions: seq<RA.Action>, opportunities: seq<string>, tenantId: string,
                   q: Request, d: Detection)
    requires IsAccepted(records, tenantId, actions) && IsIssued(q) && q.tenantId == tenantId
    requires IsReconcilable(records, d) && d.content.opportunityId in opportunities
    requires forall i | 0 <= i < |records| :: !IsOfSeries(records[i], tenantId, d.content.seriesKey)
    ensures var r := Reconcile(records, actions, opportunities, tenantId, q, d);
            && r.Settled? && Opens(r.answer, d, tenantId, None) && r.answer.supersededId.None?
            && r.records == records + [r.answer.record]
  {
    hide IsAccepted, IsBuilt, FirstIndex, Filter, NormalizeCommercialValue, Newest, IsBoundedText, CaseIndex;
    var key := d.content.seriesKey;
    forall j | 0 <= j < |records|
      ensures !InSeries(tenantId, key)(records[j]) && !ActiveInSeries(tenantId, key)(records[j])
    {
    }
    FilterNone(records, InSeries(tenantId, key));
    FilterNone(records, ActiveInSeries(tenantId, key));
    BuiltIsCanonical(d);
    ReconcileCheckIsExact(records, opportunities, actions, tenantId, q, d);
    OneActiveOfSeries(records, tenantId, actions, key);
  }

  /**
   * What a reconciliation answers. A detection that means what the active case of its series means, or, when none is
   * active, what the newest one means, is a duplicate and changes nothing. Any other one opens a case that names that
   * case; an active one is superseded by it, and only then the answer names a superseded case.
   */
  lemma ReconciledExactlyWhen(records: seq<Record>, actions: seq<RA.Action>, opportunities: seq<string>,
                              tenantId: string, q: Request, d: Detection)
    requires IsAccepted(records, tenantId, actions) && IsIssued(q) && q.tenantId == tenantId
    requires IsReconcilable(records, d)
    ensures var r := Reconcile(records, actions, opportunities, tenantId, q, d);
            var key := d.content.seriesKey;
            if d.content.opportunityId !in opportunities then r == Refused(SOURCE_UNAVAILABLE)
            else
              && (forall i | 0 <= i < |records| && IsActiveAt(records, i, tenantId, key) ::
                    MeetsActive(records, r, i, tenantId, q, d))
              && (forall i | 0 <= i < |records| && IsNewestAt(records, i, tenantId, key)
                             && !(exists j | 0 <= j < |records| :: IsActiveAt(records, j, tenantId, key)) ::
                    MeetsEnded(records, r, i, tenantId, d))
              && ((forall i | 0 <= i < |records| :: !IsOfSeries(records[i], tenantId, key)) ==>
                    r.Settled? && Opens(r.answer, d, tenantId, None) && r.answer.supersededId.None?
                    && r.records == records + [r.answer.record])
  {
    hide IsAccepted, IsBuilt, NormalizeCommercialValue, MeetsActive, MeetsEnded, Opens, IsActiveAt, IsNewestAt,
      IsOfSeries, ReconcileRecord, IsReconcilable;
    var key := d.content.seriesKey;
    if d.content.opportunityId in opportunities {
      forall i | 0 <= i < |records| && IsActiveAt(records, i, tenantId, key)
        ensures MeetsActive(records, Reconcile(records, actions, opportunities, tenantId, q, d), i, tenantId, q, d)
      {
        ActiveIsMet(records, actions, opportunities, tenantId, q, d, i);
      }
      forall i | 0 <= i < |records| && IsNewestAt(records, i, tenantId, key)
                 && !(exists j | 0 <= j < |records| :: IsActiveAt(records, j, tenantId, key))
        ensures MeetsEnded(records, Reconcile(records, actions, opportunities, tenantId, q, d), i, tenantId, d)
      {
        EndedIsMet(records, actions, opportunities, tenantId, q, d, i);
      }
      if forall i | 0 <= i < |records| :: !IsOfSeries(records[i], tenantId, key) {
        FirstOpens(records, actions, opportunities, tenantId, q, d);
      }
    } else {
      UnknownOpportunity(records, opportunities, q, d);
    }
  }

  lemma UnknownOpportunity(records: seq<Record>, opportunities: seq<string>, q: Request, d: Detection)
    requires IsReconcilable(records, d) && d.content.opportunityId !in opportunities
    ensures ReconcileRecord(records, opportunities, q, d) == Refused(SOURCE_UNAVAILABLE)
  {
    hide IsBuilt, Filter, Newest, NormalizeCommercialValue, IsBoundedText, FirstIndex;
    BuiltIsCanonical(d);
  }

  /** Another tenant finds nothing, a damaged store answers nothing, and an unknown case is not found. */
  lemma AnsweredUnseen(records: seq<Record>, actions: seq<RA.Action>, opportunities: seq<string>, tenantId: string,
                       q: Request, id: string, to: CaseState, reason: string, actionId: string, at: int, wakeAt: int,
                       d: Detection)
    ensures var t := Transition(records, actions, tenantId, q, id, to, reason, at, wakeAt);
            var l := LinkAction(records, actions, tenantId, q, id, actionId, at);
            var r := Reconcile(records, actions, opportunities, tenantId, q, d);
            if q.tenantId != tenantId then t == NotFound && l == NotFound && r == Refused(SOURCE_UNAVAILABLE)
            else if !IsAccepted(records, tenantId, actions) then
              t == Failed(INTEGRITY_CONFLICT) && l == Failed(INTEGRITY_CONFLICT) && r == Refused(INTEGRITY_CONFLICT)
            else
              && (t == NotFound <==> forall i | 0 <= i < |records| :: records[i].content.id != id)
              && (l == NotFound <==> forall i | 0 <= i < |records| :: records[i].content.id != id)
              && (NormalizeCommercialValue(d.content.value) != Some(d.content.value) ==> r == Refused(INPUT_INVALID))
  {
    hide IsAccepted, Transitioned, ActionReference, LinkedRecord, Trim, FirstIndex, NormalizeCommercialValue, Filter,
      Newest;
    if IsAccepted(records, tenantId, actions) {
      forall i | 0 <= i < |records| && records[i].content.id == id
        ensures FirstIndex(records, TenantCase(tenantId, id)) == Some(i)
      {
        CaseIsFirst(records, tenantId, actions, i);
      }
    }
  }
}

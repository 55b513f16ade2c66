/** The operations of the case store, each checked on reading and before writing. */
module LeakCaseStore {
  import opened Text
  import opened Lists
  import RA = RevenueActions
  import opened LeakCases

  /** A trusted request; its subject was trimmed and found nonempty when it was issued. */
  datatype Request = Request(tenantId: string, subjectId: string)

  /** The stored cases beside the revenue actions and the records these work on. */
  datatype World = World(cases: seq<Record>, store: RA.Store)

  predicate IsIssued(q: Request) {
    q.subjectId != "" && IsTrimmed(q.subjectId)
  }

  datatype Error =
    | INPUT_INVALID | SOURCE_UNAVAILABLE | INTEGRITY_CONFLICT
    | TRANSITION_INVALID | ACTION_LINK_CONFLICT | ACTION_UNAVAILABLE

  // ------------------------------------------------------------------ reconciliation

  datatype Reconciled = Reconciled(record: Record, created: bool, duplicate: bool, terminal: bool,
                                   supersededId: Option<string>)

  /** The collection after a reconciliation and its answer, or the error it throws. */
  datatype Reconciliation = Settled(records: seq<Record>, answer: Reconciled) | Refused(error: Error)

  function InSeries(tenantId: string, key: SeriesKey): Record -> bool {
    (r: Record) => r.tenantId == tenantId && r.content.seriesKey == key
  }

  function ActiveInSeries(tenantId: string, key: SeriesKey): Record -> bool {
    (r: Record) => r.tenantId == tenantId && r.content.seriesKey == key && IsActive(r.life.state)
  }

  function SeriesOf(records: seq<Record>, tenantId: string, key: SeriesKey): seq<Record> {
    Filter(records, InSeries(tenantId, key))
  }

  /** The head of a stable sort by descending detection time. */
  function Newest(series: seq<Record>): Record
    requires series != []
  {
    if |series| == 1 then series[0]
    else
      var best := Newest(series[..|series| - 1]);
      var last := series[|series| - 1];
      if best.content.detectedAt < last.content.detectedAt then last else best
  }

  /** A record with one more audit entry and the fields that go with it. */
  function Move(r: Record, life: Life, event: Event, at: int, subjectId: string): Record {
    r.(life := life, audit := r.audit + [Entry(event, at, subjectId)])
  }

  function SupersededRecord(r: Record, d: Detection, subjectId: string): Record {
    var at := d.content.detectedAt;
    Move(r, r.life.(state := SUPERSEDED, supersededBy := Some(d.content.id), supersededAt := Some(at),
                    supersessionReason := Some(EVIDENCE_CHANGED), updatedAt := at),
      WasSuperseded(EVIDENCE_CHANGED, d.content.id, d.content.semanticKey), at, subjectId)
  }

  /** reconcileRecord over the records of the collection and the ids of the known opportunities. */
  function ReconcileRecord(records: seq<Record>, opportunities: seq<string>, q: Request, d: Detection): Reconciliation {
    var key := d.content.seriesKey;
    var series := SeriesOf(records, q.tenantId, key);
    var active := Filter(records, ActiveInSeries(q.tenantId, key));
    if NormalizeCommercialValue(d.content.value) != Some(d.content.value) then Refused(INPUT_INVALID)
    else if d.content.opportunityId !in opportunities then Refused(SOURCE_UNAVAILABLE)
    else if |active| > 1 then Refused(INTEGRITY_CONFLICT)
    else if active != [] && active[0].content.semanticKey == d.content.semanticKey then
      Settled(records, Reconciled(active[0], false, true, false, None))
    else if active == [] && series != [] && Newest(series).content.semanticKey == d.content.semanticKey then
      Settled(records, Reconciled(Newest(series), false, true, true, None))
    else if active != [] then
      var i := FirstIndex(records, ActiveInSeries(q.tenantId, key));
      var next := RecordOf(d, q.tenantId, Some(active[0].content.id));
      if i.None? then Refused(INTEGRITY_CONFLICT)
      else
        Settled(records[i.value := SupersededRecord(active[0], d, q.subjectId)] + [next],
          Reconciled(next, true, false, false, Some(active[0].content.id)))
    else
      var next := RecordOf(d, q.tenantId, if series == [] then None else Some(Newest(series).content.id));
      Settled(records + [next], Reconciled(next, true, false, false, None))
  }

  /** reconcile */
  function Reconcile(records: seq<Record>, actions: seq<RA.Action>, opportunities: seq<string>, tenantId: string,
                     q: Request, d: Detection): Reconciliation {
    if q.tenantId != tenantId then Refused(SOURCE_UNAVAILABLE)
    else if !IsAccepted(records, tenantId, actions) then Refused(INTEGRITY_CONFLICT)
    else
      var r := ReconcileRecord(records, opportunities, q, d);
      if r.Settled? && !IsAccepted(r.records, tenantId, actions) then Refused(INTEGRITY_CONFLICT) else r
  }

  datatype BatchResult = Batch(records: seq<Record>, answers: seq<Reconciled>) | BatchRefused(error: Error)

  /** The detections of a batch one after the other, nothing written in between. */
  function ReconcileAll(records: seq<Record>, opportunities: seq<string>, q: Request, ds: seq<Detection>): BatchResult {
    if ds == [] then Batch(records, [])
    else
      var before := ReconcileAll(records, opportunities, q, ds[..|ds| - 1]);
      if before.BatchRefused? then before
      else
        var r := ReconcileRecord(before.records, opportunities, q, ds[|ds| - 1]);
        if r.Refused? then BatchRefused(r.error) else Batch(r.records, before.answers + [r.answer])
  }

  predicate AnyCreated(answers: seq<Reconciled>) {
    exists i | 0 <= i < |answers| :: answers[i].created
  }

  /** reconcileBatch: written once, and only when some case was created. */
  function ReconcileBatch(records: seq<Record>, actions: seq<RA.Action>, opportunities: seq<string>, tenantId: string,
                          q: Request, ds: seq<Detection>): BatchResult {
    if q.tenantId != tenantId then BatchRefused(SOURCE_UNAVAILABLE)
    else if !IsAccepted(records, tenantId, actions) then BatchRefused(INTEGRITY_CONFLICT)
    else
      var r := ReconcileAll(records, opportunities, q, ds);
      if r.BatchRefused? then r
      else if !AnyCreated(r.answers) then Batch(records, r.answers)
      else if !IsAccepted(r.records, tenantId, actions) then BatchRefused(INTEGRITY_CONFLICT)
      else r
  }

  // ------------------------------------------------------------------ transitions and links

  /** NotFound, the new collection with the changed record, or the error. */
  datatype Update = NotFound | Updated(records: seq<Record>, record: Record, duplicate: bool) | Failed(error: Error)

  function TenantCase(tenantId: string, id: string): Record -> bool {
    (r: Record) => r.tenantId == tenantId && r.content.id == id
  }

  /** The record after a requested transition; None when the transition is refused. */
  function Transitioned(r: Record, to: CaseState, reason: string, at: int, wakeAt: int, subjectId: string)
    : Option<Record>
  {
    var text := NonEmpty(reason, REASON_MAX);
    if text.None? then None
    else if r.life.state == OPEN && to == SNOOZED then
      if wakeAt <= at then None
      else
        Some(Move(r, r.life.(state := SNOOZED, snoozedAt := Some(at), snoozedUntil := Some(wakeAt),
                             snoozeReason := text, updatedAt := at), WasSnoozed(text.value, wakeAt), at, subjectId))
    else if r.life.state == SNOOZED && to == OPEN then
      Some(Move(r, r.life.(state := OPEN, snoozedAt := None, snoozedUntil := None, snoozeReason := None,
                           updatedAt := at), Reopened(text.value), at, subjectId))
    else if IsActive(r.life.state) && to == DISMISSED then
      Some(Move(r, r.life.(state := DISMISSED, dismissedAt := Some(at), dismissalReason := text, updatedAt := at),
        WasDismissed(text.value), at, subjectId))
    else None
  }

  /** The checked write of one changed record. */
  function Written(records: seq<Record>, actions: seq<RA.Action>, tenantId: string, i: nat, r: Record): Update
    requires i < |records|
  {
    if IsAccepted(records[i := r], tenantId, actions) then Updated(records[i := r], r, false)
    else Failed(INTEGRITY_CONFLICT)
  }

  /** transition */
  function Transition(records: seq<Record>, actions: seq<RA.Action>, tenantId: string, q: Request, id: string,
                      to: CaseState, reason: string, at: int, wakeAt: int): Update {
    if q.tenantId != tenantId then NotFound
    else if !IsAccepted(records, tenantId, actions) then Failed(INTEGRITY_CONFLICT)
    else
      var i := FirstIndex(records, TenantCase(tenantId, id));
      if i.None? then NotFound
      else
        var r := Transitioned(records[i.value], to, reason, at, wakeAt, q.subjectId);
        if r.None? then Failed(TRANSITION_INVALID) else Written(records, actions, tenantId, i.value, r.value)
  }

  function LinkedRecord(r: Record, a: RA.Action, at: int, subjectId: string): Record {
    Move(r, r.life.(actionId := Some(a.id), fingerprint := Some(a.basis), statusAtLink := Some(a.life.status),
                    linkedAt := Some(at), updatedAt := at),
      Linked(a.id, a.basis, a.life.status), at, subjectId)
  }

  /** linkRevenueAction */
  function LinkAction(records: seq<Record>, actions: seq<RA.Action>, tenantId: string, q: Request, id: string,
                      actionId: string, at: int): Update {
    if q.tenantId != tenantId then NotFound
    else if !IsAccepted(records, tenantId, actions) then Failed(INTEGRITY_CONFLICT)
    else
      var i := FirstIndex(records, TenantCase(tenantId, id));
      if i.None? then NotFound
      else
        var r := records[i.value];
        var wanted := Trim(actionId);
        var a := ActionReference(actions, wanted, r.content.opportunityId);
        if !IsActive(r.life.state) then Failed(TRANSITION_INVALID)
        else if r.life.actionId.Some? then
          if r.life.actionId.value == wanted then Updated(records, r, true) else Failed(ACTION_LINK_CONFLICT)
        else if a.None? then Failed(ACTION_UNAVAILABLE)
        else if at < a.value.createdAt then Failed(INTEGRITY_CONFLICT)
        else Written(records, actions, tenantId, i.value, LinkedRecord(r, a.value, at, q.subjectId))
  }
}

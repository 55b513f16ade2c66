/** Concrete refusals of the write check: equal detection times, and an accepted fork. */
module LeakCaseRefusals {
  import opened Text
  import opened Lists
  import RA = RevenueActions
  import opened LeakCases
  import opened LeakCaseRebuild
  import opened LeakCaseStore
  import opened LeakCaseInvariant
  import opened LeakCaseSteps
  import opened LeakCaseReconcile
  import opened LeakCaseAcceptance

  // ------------------------------------------------------------------ a concrete refusal

  lemma {:induction false} FourBytesEach(s: string)
    ensures ByteLength(s) <= 4 * |s|
  {
    if s != "" { FourBytesEach(s[..|s| - 1]); }
  }

  lemma ShortIsKept(s: string, max: nat)
    requires s != "" && IsTrimmed(s) && 4 * |s| <= max
    ensures NonEmpty(s, max) == Some(s) && IsBoundedText(s, max)
  {
    FourBytesEach(s);
    BoundedIsKept(s, max);
  }

  /** Detections of one opportunity at one time that differ in the evidence they report. */
  function SampleInput(fact: string): Input {
    Input("STALLED_OPPORTUNITY", "TGE", "OPPORTUNITY", "o", 0, "v", "d", "1", "R", "MIXED",
      map["fact" := JText(fact)], CommercialValue("UNKNOWN", None, None), "FOLLOW_UP", None, map["kind" := JNull])
  }

  lemma SampleTexts(fact: string, id: string)
    requires id != "" && IsTrimmed(id) && 4 * |id| <= ID_MAX
    ensures TextsOf(SampleInput(fact), id, "s") ==
            Some(Texts(id, "s", "STALLED_OPPORTUNITY", "TGE", "OPPORTUNITY", "o", "v", "d", "1", "R", "MIXED",
              "FOLLOW_UP"))
  {
    hide NonEmpty, ToUpper, IsBoundedText;
    ShortIsKept(id, ID_MAX);
    ShortIsKept("s", SUBJECT_MAX);
    ShortIsKept("STALLED_OPPORTUNITY", SUBJECT_MAX);
    ShortIsKept("TGE", 128);
    ShortIsKept("OPPORTUNITY", 64);
    ShortIsKept("o", 512);
    ShortIsKept("v", 255);
    ShortIsKept("d", 128);
    ShortIsKept("1", 128);
    ShortIsKept("R", 128);
    ShortIsKept("MIXED", SUBJECT_MAX);
    ShortIsKept("FOLLOW_UP", 128);
    UpperIsItself("STALLED_OPPORTUNITY");
    UpperIsItself("OPPORTUNITY");
    UpperIsItself("MIXED");
  }

  lemma SampleValue()
    ensures NormalizeCommercialValue(CommercialValue("UNKNOWN", None, None))
            == Some(CommercialValue("UNKNOWN", None, None))
  {
    hide NonEmpty, ToUpper, IsBoundedText;
    ShortIsKept("UNKNOWN", SUBJECT_MAX);
    UpperIsItself("UNKNOWN");
  }

  lemma SampleIsBuilt(fact: string, id: string, at: nat)
    requires id != "" && IsTrimmed(id) && 4 * |id| <= ID_MAX
    ensures BuildDetection(SampleInput(fact), id, at, "s").Some?
    ensures var d := BuildDetection(SampleInput(fact), id, at, "s").value;
            && d.content.id == id && d.content.detectedAt == at && d.subjectId == "s"
            && d.content.seriesKey == SeriesKey("STALLED_OPPORTUNITY", "TGE", "OPPORTUNITY", "o", "d")
            && d.content.opportunityId == "o"
            && d.content.semanticKey.evidence.facts == map["fact" := JText(fact)]
  {
    hide TextsOf, NormalizeCommercialValue;
    SampleTexts(fact, id);
    SampleValue();
    var input := SampleInput(fact);
    assert "fact" in input.facts && "kind" in input.supersession;
  }

  lemma UpperIsItself(s: string)
    requires forall i | 0 <= i < |s| :: !('a' <= s[i] <= 'z')
    ensures ToUpper(s) == s
  {
    forall i | 0 <= i < |s| ensures ToUpper(s)[i] == s[i] {
    }
  }

  /** Three detections of one series at one time, each with its own meaning, under their own ids. */
  predicate AreSimultaneous(ds: seq<Detection>) {
    && |ds| == 3
    && (forall k | 0 <= k < 3 ::
          && IsBuilt(ds[k]) && IsBoundedText(ds[k].subjectId, SUBJECT_MAX) && IsBoundedText(ds[k].content.id, ID_MAX)
          && ds[k].content.seriesKey == ds[0].content.seriesKey && ds[k].content.detectedAt == ds[0].content.detectedAt)
    && (forall j, k | 0 <= j < k < 3 ::
          ds[j].content.id != ds[k].content.id && ds[j].content.semanticKey != ds[k].content.semanticKey)
  }

  /** The case dismissed at the time of its detection. */
  function Dismissed(r: Record, q: Request): Record {
    var at := r.content.detectedAt;
    Move(r, r.life.(state := DISMISSED, dismissedAt := Some(at), dismissalReason := Some("x"), updatedAt := at),
      WasDismissed("x"), at, q.subjectId)
  }

  /** The store after the first two: the second superseded the first and was dismissed. */
  function AfterTwo(tenantId: string, q: Request, first: Detection, second: Detection): seq<Record> {
    [SupersededRecord(RecordOf(first, tenantId, None), second, q.subjectId),
     Dismissed(RecordOf(second, tenantId, Some(first.content.id)), q)]
  }

  lemma TwoOfASeries(a: Record, b: Record, tenantId: string, key: SeriesKey)
    requires a.tenantId == tenantId && a.content.seriesKey == key
    requires b.tenantId == tenantId && b.content.seriesKey == key
    ensures SeriesOf([a, b], tenantId, key) == [a, b]
    ensures !IsActive(a.life.state) && !IsActive(b.life.state) ==> Filter([a, b], ActiveInSeries(tenantId, key)) == []
  {
    assert [a, b][..1] == [a] && [a][..0] == [];
    assert Filter([a], InSeries(tenantId, key)) == [a];
    if !IsActive(a.life.state) && !IsActive(b.life.state) {
      FilterNone([a, b], ActiveInSeries(tenantId, key));
    }
  }

  lemma EmptyStoreIsSound(tenantId: string, actions: seq<RA.Action>)
    ensures CaseInv([], tenantId, actions)
  {
    forall key: SeriesKey ensures IsChain(SeriesOf([], tenantId, key)) {
      assert SeriesOf([], tenantId, key) == [];
    }
  }

  lemma FirstTwo(tenantId: string, actions: seq<RA.Action>, q: Request, ds: seq<Detection>)
    requires AreSimultaneous(ds) && IsIssued(q) && ByteLength(q.subjectId) <= SUBJECT_MAX
    ensures var r1 := RecordOf(ds[0], tenantId, None);
            var two := [SupersededRecord(r1, ds[1], q.subjectId)] + [RecordOf(ds[1], tenantId, Some(r1.content.id))];
            CaseInv([r1], tenantId, actions) && CaseInv(two, tenantId, actions)
  {
    hide CaseInv, IsBuilt, IsBoundedText, ByteLength, IsTrimmed, IsPersisted;
    EmptyStoreIsSound(tenantId, actions);
    var r1 := RecordOf(ds[0], tenantId, None);
    RootKeepsInv([], tenantId, actions, ds[0]);
    assert [] + [r1] == [r1];
    InvAt([r1], tenantId, actions, 0);
    SupersededIsPersisted(r1, ds[1], q, tenantId);
    assert [r1][0 := SupersededRecord(r1, ds[1], q.subjectId)] == [SupersededRecord(r1, ds[1], q.subjectId)];
    SuccessorKeepsInv([r1], tenantId, actions, q, ds[1], 0);
  }

  lemma AfterTwoIsSound(tenantId: string, actions: seq<RA.Action>, q: Request, ds: seq<Detection>)
    requires AreSimultaneous(ds) && IsIssued(q) && ByteLength(q.subjectId) <= SUBJECT_MAX
    ensures CaseInv(AfterTwo(tenantId, q, ds[0], ds[1]), tenantId, actions)
  {
    hide CaseInv, IsBuilt, IsBoundedText, ByteLength, IsPersisted, IsAccepted;
    FirstTwo(tenantId, actions, q, ds);
    var r1 := RecordOf(ds[0], tenantId, None);
    var r2 := RecordOf(ds[1], tenantId, Some(r1.content.id));
    var two := [SupersededRecord(r1, ds[1], q.subjectId)] + [r2];
    var at := ds[0].content.detectedAt;
    ShortIsKept("x", REASON_MAX);
    TransitionKeepsInv(two, actions, tenantId, q, 1, DISMISSED, "x", at, at);
    assert two[1 := AfterTwo(tenantId, q, ds[0], ds[1])[1]] == AfterTwo(tenantId, q, ds[0], ds[1]);
  }

  /**
   * Three detections of a series at one and the same time: the second supersedes the first and is dismissed.
   * The stable sort then still puts the first one in front, so that the third would point at a case that
   * names another successor, and the write check refuses it.
   */
  lemma EqualTimesAreRefused(tenantId: string, actions: seq<RA.Action>, q: Request, ds: seq<Detection>)
    requires AreSimultaneous(ds) && IsIssued(q) && q.tenantId == tenantId && ByteLength(q.subjectId) <= SUBJECT_MAX
    ensures var before := AfterTwo(tenantId, q, ds[0], ds[1]);
            && IsAccepted(before, tenantId, actions)
            && Reconcile(before, actions, [ds[2].content.opportunityId], tenantId, q, ds[2])
               == Refused(INTEGRITY_CONFLICT)
  {
    hide CaseInv, IsBuilt, IsBoundedText, ByteLength, IsTrimmed, IsPersisted, IsAccepted, NormalizeCommercialValue,
      Filter, FirstIndex;
    var before := AfterTwo(tenantId, q, ds[0], ds[1]);
    AfterTwoIsSound(tenantId, actions, q, ds);
    InvIsAccepted(before, tenantId, actions);
    TwoOfASeries(before[0], before[1], tenantId, ds[2].content.seriesKey);
    assert before[..1] == [before[0]];
    assert Newest(before) == before[0];
    FreshAmongTwo(before, ds[2].content.id);
    RestartIsExact(before, tenantId, actions, ds[2]);
    BuiltIsCanonical(ds[2]);
  }

  lemma FreshAmongTwo(records: seq<Record>, id: string)
    requires |records| == 2 && records[0].content.id != id && records[1].content.id != id
    ensures CaseIndex(records, id).None?
  {
  }

  lemma SampleFor(fact: string, id: string, at: nat) returns (d: Detection)
    requires id != "" && IsTrimmed(id) && 4 * |id| <= ID_MAX
    ensures IsBuilt(d) && IsBoundedText(d.subjectId, SUBJECT_MAX) && IsBoundedText(d.content.id, ID_MAX)
    ensures d.content.id == id && d.content.detectedAt == at
    ensures d.content.seriesKey == SeriesKey("STALLED_OPPORTUNITY", "TGE", "OPPORTUNITY", "o", "d")
    ensures var facts := d.content.semanticKey.evidence.facts; "fact" in facts && facts["fact"] == JText(fact)
  {
    hide BuildDetection, ByteLength;
    SampleIsBuilt(fact, id, at);
    BuilderIsIdempotent(SampleInput(fact), id, at, "s");
    d := BuildDetection(SampleInput(fact), id, at, "s").value;
    assert map["fact" := JText(fact)]["fact"] == JText(fact);
  }

  /** Such detections exist. */
  lemma SimultaneousDetections() returns (ds: seq<Detection>)
    ensures AreSimultaneous(ds)
  {
    hide IsBuilt, IsBoundedText;
    var a := SampleFor("a", "1", 0);
    var b := SampleFor("b", "2", 0);
    var c := SampleFor("c", "3", 0);
    ds := [a, b, c];
    assert "1"[0] != "2"[0] && "2"[0] != "3"[0] && "1"[0] != "3"[0];
    assert "a"[0] != "b"[0] && "b"[0] != "c"[0] && "a"[0] != "c"[0];
  }

  // ------------------------------------------------------------------ an accepted fork

  /** Three detections of one series, each later than the one before, under their own ids. */
  predicate AreSuccessive(ds: seq<Detection>) {
    && |ds| == 3
    && (forall k | 0 <= k < 3 ::
          && IsBuilt(ds[k]) && IsBoundedText(ds[k].subjectId, SUBJECT_MAX) && IsBoundedText(ds[k].content.id, ID_MAX)
          && ds[k].content.seriesKey == ds[0].content.seriesKey)
    && (forall j, k | 0 <= j < k < 3 ::
          && ds[j].content.id != ds[k].content.id && ds[j].content.semanticKey != ds[k].content.semanticKey
          && ds[j].content.detectedAt < ds[k].content.detectedAt)
  }

  /** An open case, and a later one of its series that names it as predecessor and was dismissed. */
  function Fork(tenantId: string, q: Request, first: Detection, second: Detection): seq<Record> {
    [RecordOf(first, tenantId, None), Dismissed(RecordOf(second, tenantId, Some(first.content.id)), q)]
  }

  lemma DismissedIsPersisted(r: Record, q: Request, tenantId: string)
    requires IsPersisted(r, tenantId) && IsIssued(q) && ByteLength(q.subjectId) <= SUBJECT_MAX && r.life.state == OPEN
    ensures IsPersisted(Dismissed(r, q), tenantId)
  {
    hide IsPersisted, ByteLength;
    ShortIsKept("x", REASON_MAX);
    TransitionedIsPersisted(r, DISMISSED, "x", r.content.detectedAt, r.content.detectedAt, q, tenantId);
  }

  lemma ForkIsPersisted(tenantId: string, q: Request, first: Detection, second: Detection)
    requires IsBuilt(first) && IsBoundedText(first.subjectId, SUBJECT_MAX) && IsBoundedText(first.content.id, ID_MAX)
    requires IsBuilt(second) && IsBoundedText(second.subjectId, SUBJECT_MAX)
    requires first.content.id != second.content.id && IsIssued(q) && ByteLength(q.subjectId) <= SUBJECT_MAX
    ensures var f := Fork(tenantId, q, first, second); IsPersisted(f[0], tenantId) && IsPersisted(f[1], tenantId)
  {
    hide IsPersisted, IsBuilt, IsBoundedText, ByteLength, IsTrimmed;
    BuiltRecordIsPersisted(first, tenantId, None);
    BuiltRecordIsPersisted(second, tenantId, Some(first.content.id));
    DismissedIsPersisted(RecordOf(second, tenantId, Some(first.content.id)), q, tenantId);
  }

  lemma ForkIsAccepted(tenantId: string, actions: seq<RA.Action>, q: Request, ds: seq<Detection>)
    requires AreSuccessive(ds) && IsIssued(q) && ByteLength(q.subjectId) <= SUBJECT_MAX
    ensures IsAccepted(Fork(tenantId, q, ds[0], ds[1]), tenantId, actions)
  {
    hide IsPersisted, IsBuilt, IsBoundedText, ByteLength, IsTrimmed;
    ForkIsPersisted(tenantId, q, ds[0], ds[1]);
  }

  /**
   * Acceptance alone does not grant later writes: the collection check lets a dismissed case name one that is
   * still open. A later detection of the series would supersede the open case by another one than that, and the
   * write check refuses it.
   */
  lemma ForkIsRefused(tenantId: string, actions: seq<RA.Action>, q: Request, ds: seq<Detection>)
    requires AreSuccessive(ds) && IsIssued(q) && q.tenantId == tenantId && ByteLength(q.subjectId) <= SUBJECT_MAX
    ensures var fork := Fork(tenantId, q, ds[0], ds[1]);
            && IsAccepted(fork, tenantId, actions)
            && Reconcile(fork, actions, [ds[2].content.opportunityId], tenantId, q, ds[2])
               == Refused(INTEGRITY_CONFLICT)
  {
    hide IsBuilt, IsBoundedText, ByteLength, IsTrimmed, IsPersisted, IsAccepted, NormalizeCommercialValue, Filter,
      FirstIndex, CanBeLogged, Newest;
    var fork := Fork(tenantId, q, ds[0], ds[1]);
    var key := ds[2].content.seriesKey;
    ForkIsAccepted(tenantId, actions, q, ds);
    FreshAmongTwo(fork, ds[2].content.id);
    FirstIndexIs(fork, 0, ActiveInSeries(tenantId, key));
    OneActiveOfSeries(fork, tenantId, actions, key);
    BuiltIsCanonical(ds[2]);
    assert fork[1].supersedes == Some(fork[0].content.id);
    ReconcileCheckIsExact(fork, [ds[2].content.opportunityId], actions, tenantId, q, ds[2]);
  }

  /** Such detections exist. */
  lemma SuccessiveDetections() returns (ds: seq<Detection>)
    ensures AreSuccessive(ds)
  {
    hide IsBuilt, IsBoundedText;
    var a := SampleFor("a", "1", 0);
    var b := SampleFor("b", "2", 1);
    var c := SampleFor("c", "3", 2);
    ds := [a, b, c];
    assert "1"[0] != "2"[0] && "2"[0] != "3"[0] && "1"[0] != "3"[0];
    assert "a"[0] != "b"[0] && "b"[0] != "c"[0] && "a"[0] != "c"[0];
  }
}

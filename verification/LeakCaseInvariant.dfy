/** The chain invariant of the case store, and that it implies acceptance. */
module LeakCaseInvariant {
  import opened Text
  import opened Lists
  import RA = RevenueActions
  import opened LeakCases
  import opened LeakCaseStore

  // ------------------------------------------------------------------ what a log implies

  predicate IsLived(life: Life) {
    && (life.supersededBy.Some? <==> life.state == SUPERSEDED)
    && (life.dismissedAt.Some? <==> life.state == DISMISSED)
    && (life.state == OPEN ==> life.snoozedAt.None?)
    && (life.state == SNOOZED ==> life.snoozedAt.Some?)
    && (life.actionId.Some? <==> life.linkedAt.Some?) && (life.actionId.Some? <==> life.fingerprint.Some?)
  }

  lemma {:induction false} LoggedLifeIsLived(audit: seq<Entry>, c: Content)
    requires Replay(audit, c).Some?
    ensures IsLived(Replay(audit, c).value)
  {
    hide IsBoundedText, IsOpening;
    if |audit| > 1 { LoggedLifeIsLived(audit[..|audit| - 1], c); }
  }

  lemma ReplayAppend(audit: seq<Entry>, e: Entry, c: Content)
    requires audit != []
    ensures Replay(audit + [e], c) ==
            if Replay(audit, c).None? then None else Advance(Replay(audit, c).value, e, c.detectedAt)
  {
    hide Advance;
    assert (audit + [e])[..|audit|] == audit;
  }

  // ------------------------------------------------------------------ chains

  /** One case after the other: who supersedes whom, and what became of the older one. */
  predicate Follows(older: Record, newer: Record) {
    && older.content.detectedAt <= newer.content.detectedAt
    && newer.supersedes == Some(older.content.id)
    && (older.life.state == DISMISSED
        || (older.life.state == SUPERSEDED && older.life.supersededBy == Some(newer.content.id)))
  }

  /** The cases of a series form one chain with one root; the newest is not superseded. */
  predicate IsChain(series: seq<Record>) {
    && (series != [] ==> series[0].supersedes.None? && series[|series| - 1].life.state != SUPERSEDED)
    && forall k | 0 < k < |series| :: Follows(series[k - 1], series[k])
  }

  predicate HasIncreasingTimes(series: seq<Record>) {
    forall j, k | 0 <= j < k < |series| :: series[j].content.detectedAt < series[k].content.detectedAt
  }

  ghost predicate AreChains(records: seq<Record>, tenantId: string) {
    forall key: SeriesKey :: IsChain(SeriesOf(records, tenantId, key))
  }

  ghost predicate TimesIncrease(records: seq<Record>, tenantId: string) {
    forall key: SeriesKey :: HasIncreasingTimes(SeriesOf(records, tenantId, key))
  }

  ghost predicate CaseInv(records: seq<Record>, tenantId: string, actions: seq<RA.Action>) {
    && (forall i | 0 <= i < |records| :: IsPersisted(records[i], tenantId) && LinkIsValid(records[i], actions))
    && HaveDistinctIds(records)
    && AreChains(records, tenantId)
  }

  /** All but the newest of a chain are terminal. */
  lemma OlderIsTerminal(series: seq<Record>, k: nat)
    requires IsChain(series) && k < |series| - 1
    ensures !IsActive(series[k].life.state)
  {
    assert Follows(series[k + 1 - 1], series[k + 1]);
  }

  /** An active case is the last of its series in the collection. */
  lemma ActiveIsLast(records: seq<Record>, tenantId: string, actions: seq<RA.Action>, i: nat, j: nat)
    requires CaseInv(records, tenantId, actions) && i < j < |records|
    requires IsActive(records[i].life.state)
    ensures records[j].content.seriesKey != records[i].content.seriesKey
  {
    hide Filter, IsChain, LinkIsValid, IsRebuilt, Replay, HaveDistinctIds;
    var key := records[i].content.seriesKey;
    if records[j].content.seriesKey == key {
      assert IsPersisted(records[i], tenantId) && IsPersisted(records[j], tenantId);
      var a, b := FilterKeepsOrder(records, InSeries(tenantId, key), i, j);
      assert IsChain(SeriesOf(records, tenantId, key));
      OlderIsTerminal(SeriesOf(records, tenantId, key), a);
      assert false;
    }
  }

  lemma IndexOfCase(records: seq<Record>, i: nat)
    requires HaveDistinctIds(records) && i < |records|
    ensures CaseIndex(records, records[i].content.id) == Some(i)
  {
    FirstIndexIs(records, i, CaseWithId(records[i].content.id));
  }

  /** The place of a record in its series, and the record of a place. */
  lemma PlaceInSeries(records: seq<Record>, tenantId: string, i: nat) returns (a: nat)
    requires i < |records| && records[i].tenantId == tenantId
    ensures var series := SeriesOf(records, tenantId, records[i].content.seriesKey);
            a < |series| && series[a] == records[i]
  {
    a := FilterFinds(records, InSeries(tenantId, records[i].content.seriesKey), i);
  }

  lemma RecordOfPlace(records: seq<Record>, tenantId: string, key: SeriesKey, a: nat) returns (i: nat)
    requires a < |SeriesOf(records, tenantId, key)|
    ensures i < |records| && records[i] == SeriesOf(records, tenantId, key)[a]
    ensures records[i].tenantId == tenantId && records[i].content.seriesKey == key
  {
    hide Filter;
    var r := SeriesOf(records, tenantId, key)[a];
    FilterMembers(records, InSeries(tenantId, key), r);
    i :| 0 <= i < |records| && records[i] == r;
  }

  lemma ChainPointsBack(records: seq<Record>, tenantId: string, actions: seq<RA.Action>, i: nat)
    requires CaseInv(records, tenantId, actions) && i < |records|
    ensures PredecessorIsValid(records[i], records)
  {
    hide Filter, FirstIndex, LinkIsValid, IsRebuilt, Replay, HaveDistinctIds;
    var r := records[i];
    assert IsPersisted(r, tenantId);
    if r.supersedes.Some? {
      var series := SeriesOf(records, tenantId, r.content.seriesKey);
      var a := PlaceInSeries(records, tenantId, i);
      assert IsChain(series) && a > 0;
      assert Follows(series[a - 1], series[a]);
      var j := RecordOfPlace(records, tenantId, r.content.seriesKey, a - 1);
      IndexOfCase(records, j);
    }
  }

  lemma ChainPointsForward(records: seq<Record>, tenantId: string, actions: seq<RA.Action>, i: nat)
    requires CaseInv(records, tenantId, actions) && i < |records|
    ensures ReplacementIsValid(records[i], records)
  {
    hide Filter, FirstIndex, LinkIsValid, IsRebuilt, Replay, HaveDistinctIds;
    var r := records[i];
    assert IsPersisted(r, tenantId);
    LoggedLifeIsLived(r.audit, r.content);
    if r.life.supersededBy.Some? {
      var series := SeriesOf(records, tenantId, r.content.seriesKey);
      var a := PlaceInSeries(records, tenantId, i);
      assert IsChain(series) && a < |series| - 1;
      assert Follows(series[a + 1 - 1], series[a + 1]);
      var j := RecordOfPlace(records, tenantId, r.content.seriesKey, a + 1);
      IndexOfCase(records, j);
    }
  }

  /** The chain invariant implies that the collection is accepted. */
  lemma InvIsAccepted(records: seq<Record>, tenantId: string, actions: seq<RA.Action>)
    requires CaseInv(records, tenantId, actions)
    ensures IsAccepted(records, tenantId, actions)
  {
    hide AreChains, IsPersisted, LinkIsValid, PredecessorIsValid, ReplacementIsValid, HaveDistinctIds;
    forall i | 0 <= i < |records|
      ensures PredecessorIsValid(records[i], records) && ReplacementIsValid(records[i], records)
    {
      ChainPointsBack(records, tenantId, actions, i);
      ChainPointsForward(records, tenantId, actions, i);
    }
    InvHasDistinctActive(records, tenantId, actions);
  }

  lemma InvHasDistinctActive(records: seq<Record>, tenantId: string, actions: seq<RA.Action>)
    requires CaseInv(records, tenantId, actions)
    ensures AreDistinct(ActiveSeries(records)) && AreDistinct(ActiveMeanings(records))
  {
    hide AreChains, LinkIsValid, HaveDistinctIds, Replay, BuildDetection, IsPersisted;
    forall i, j | 0 <= i < j < |records| && IsActive(records[i].life.state)
      ensures records[i].content.seriesKey != records[j].content.seriesKey
      ensures records[i].content.semanticKey != records[j].content.semanticKey
    {
      ActiveIsLast(records, tenantId, actions, i, j);
      assert IsPersisted(records[i], tenantId) && IsPersisted(records[j], tenantId);
      MeaningNamesSeries(records[i], tenantId);
      MeaningNamesSeries(records[j], tenantId);
    }
  }

  lemma MeaningNamesSeries(r: Record, tenantId: string)
    requires IsPersisted(r, tenantId)
    ensures r.content.semanticKey.series == r.content.seriesKey
  {
    hide TextsOf, NormalizeCommercialValue, Replay;
  }
}

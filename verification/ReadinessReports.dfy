/** What the runtime reports at any moment, told from the events that happened. */
module ReadinessReports {
  import opened Text
  import opened Readiness
  import opened ReadinessSafety

  // ------------------------------------------------------------------ the events of a probe

  /** No shutdown was asked for among the first k events. */
  predicate IsOpenAt(events: seq<Event>, k: nat)
    requires k <= |events|
  {
    forall m | 0 <= m < k :: events[m] != Close
  }

  /** Event j is the call that started probe i. */
  predicate Starts(events: seq<Event>, j: nat, i: nat)
    requires j < |events|
  {
    events[j] == CallProbe && |Run(events[..j]).probes| == i && |Run(events[..j + 1]).probes| == i + 1
  }

  /** Neither pool error nor shutdown strictly between two events. */
  predicate IsQuiet(events: seq<Event>, j: nat, k: nat)
    requires k <= |events|
  {
    forall m | j < m < k :: events[m] != PoolError && events[m] != Close
  }

  predicate IsRowEvent(e: Event, i: nat) {
    (e.RowArrives? && e.probe == i) || e == RowFails(i)
  }

  predicate IsMembershipEvent(e: Event, i: nat) {
    (e.MembershipArrives? && e.probe == i) || e == MembershipFails(i)
  }

  predicate HasNoRow(events: seq<Event>, j: nat, k: nat, i: nat)
    requires k <= |events|
  {
    forall m | j < m < k :: !IsRowEvent(events[m], i)
  }

  predicate HasNoMembership(events: seq<Event>, j: nat, k: nat, i: nat)
    requires k <= |events|
  {
    forall m | j < m < k :: !IsMembershipEvent(events[m], i)
  }

  /** The probe started at j gets a current row at r, before any other news of its row, pool error or shutdown. */
  predicate GetsRow(events: seq<Event>, j: nat, r: nat, i: nat) {
    j < r < |events| && events[r] == RowArrives(i, CurrentRow) && HasNoRow(events, j, r, i) && IsQuiet(events, j, r)
  }

  predicate AwaitsMembership(events: seq<Event>, j: nat, k: nat, i: nat)
    requires k <= |events|
  {
    exists r | j < r < k :: GetsRow(events, j, r, i) && HasNoMembership(events, r, k, i)
  }

  /** The probe got its row and then, as the first news of the memberships, their list at n. */
  predicate SucceedsAt(events: seq<Event>, j: nat, n: nat, i: nat)
    requires n < |events|
  {
    events[n] == MembershipArrives(i, true) && AwaitsMembership(events, j, n, i)
  }

  /** Full success of the probe started at j, among the first k events. */
  predicate IsEarned(events: seq<Event>, j: nat, k: nat, i: nat)
    requires k <= |events|
  {
    exists n | j < n < k :: SucceedsAt(events, j, n, i)
  }

  /** The first news of its row was a row, and a current one if so asked. */
  predicate RowCame(events: seq<Event>, j: nat, k: nat, i: nat, current: bool)
    requires k <= |events|
  {
    exists r | j < r < k ::
      && HasNoRow(events, j, r, i)
      && (events[r] == RowArrives(i, CurrentRow) || (!current && events[r] == RowArrives(i, LackingRow)))
  }

  /** The checks that the probe started at j has come to among the first k events. */
  ghost function ToldChecks(events: seq<Event>, j: nat, k: nat, i: nat): Checks
    requires k <= |events|
  {
    Checks(IS_READY, CONFIGURED,
      if RowCame(events, j, k, i, false) then USABLE else NOT_READY,
      if RowCame(events, j, k, i, true) then CURRENT else NOT_READY,
      if IsEarned(events, j, k, i) then USABLE else NOT_READY)
  }

  // ------------------------------------------------------------------ the life of a probe

  lemma {:induction false} OpenUntilClosed(events: seq<Event>, k: nat)
    requires k <= |events|
    ensures Run(events[..k]).lifecycle == Open <==> IsOpenAt(events, k)
  {
    hide Step;
    if k > 0 {
      OpenUntilClosed(events, k - 1);
      RunStep(events, k - 1);
      OpenStep(Run(events[..k - 1]), events[k - 1]);
    }
  }

  lemma OpenStep(s: State, e: Event)
    ensures Step(s, e).lifecycle == Open <==> s.lifecycle == Open && e != Close
  {
  }

  /** A probe is of the present revision exactly as long as it is quiet. */
  lemma {:induction false} CurrentWhileQuiet(events: seq<Event>, j: nat, k: nat, i: nat)
    requires j < k <= |events| && Starts(events, j, i)
    ensures i < |Run(events[..k]).probes|
    ensures IsCurrent(Run(events[..k]), Run(events[..k]).probes[i]) <==> IsQuiet(events, j, k)
    decreases k
  {
    hide Step;
    RunStep(events, j);
    StartedProbe(Run(events[..j]), i);
    if k > j + 1 {
      CurrentWhileQuiet(events, j, k - 1, i);
      RunStep(events, k - 1);
      CurrentStep(Run(events[..k - 1]), events[k - 1], i);
      StaleForGood(events, j, k - 1, i);
    }
  }

  lemma StartedProbe(s: State, i: nat)
    requires |s.probes| == i && |Step(s, CallProbe).probes| == i + 1
    ensures var t := Step(s, CallProbe);
            t.probes[i] == Probe(s.revision, UNAVAILABLE, AwaitingRow, false) && IsCurrent(t, t.probes[i])
  {
  }

  lemma CurrentStep(s: State, e: Event, i: nat)
    requires i < |s.probes|
    ensures i < |Step(s, e).probes|
    ensures IsCurrent(s, s.probes[i]) ==>
              (IsCurrent(Step(s, e), Step(s, e).probes[i]) <==> e != PoolError && e != Close)
    ensures s.probes[i].revision <= s.revision && !IsCurrent(s, s.probes[i]) ==>
              !IsCurrent(Step(s, e), Step(s, e).probes[i])
  {
  }

  lemma StaleForGood(events: seq<Event>, j: nat, k: nat, i: nat)
    requires j < k <= |events| && i < |Run(events[..k]).probes|
    ensures Run(events[..k]).probes[i].revision <= Run(events[..k]).revision
  {
    hide Step;
    HonestRun(events, k, i);
  }

  /** What one event makes of the work of probe i. */
  lemma WorkStep(s: State, e: Event, i: nat)
    requires i < |s.probes|
    ensures var p := s.probes[i];
            i < |Step(s, e).probes|
            && var q := Step(s, e).probes[i];
               && (p.work in {Succeeded, Failed} ==> q.work == p.work && q.checks == p.checks)
               && (p.work == AwaitingRow && !IsRowEvent(e, i) ==> q.work == p.work && q.checks == p.checks)
               && (p.work == AwaitingRow && IsRowEvent(e, i) ==>
                     && (q.work == AwaitingMembership <==> e == RowArrives(i, CurrentRow) && IsCurrent(s, p))
                     && (q.work != AwaitingMembership ==> q.work in {Succeeded, Failed})
                     && q.checks == if e == RowFails(i) then p.checks
                                    else if e == RowArrives(i, LackingRow) then p.checks.(database := USABLE)
                                    else p.checks.(database := USABLE, migrations := CURRENT))
               && (p.work == AwaitingMembership && !IsMembershipEvent(e, i) ==>
                     q.work == p.work && q.checks == p.checks)
               && (p.work == AwaitingMembership && IsMembershipEvent(e, i) ==>
                     && q.work == (if e == MembershipArrives(i, true) then Succeeded else Failed)
                     && q.checks == if e == MembershipArrives(i, true) then p.checks.(membership := USABLE)
                                    else p.checks)
  {
  }

  /** The work and the checks of a probe, told from the events since its start. */
  lemma {:induction false} WorkIsTold(events: seq<Event>, j: nat, k: nat, i: nat)
    requires j < k <= |events| && Starts(events, j, i)
    ensures i < |Run(events[..k]).probes|
    ensures var p := Run(events[..k]).probes[i];
            && (p.work == AwaitingRow <==> HasNoRow(events, j, k, i))
            && (p.work == AwaitingMembership <==> AwaitsMembership(events, j, k, i))
            && p.checks == ToldChecks(events, j, k, i)
    decreases k
  {
    hide Step, IsCurrent, GetsRow, HasNoRow, HasNoMembership, IsEarned, AwaitsMembership, RowCame, IsQuiet;
    RunStep(events, j);
    if k == j + 1 {
      StartedProbe(Run(events[..j]), i);
      NothingYet(events, j, i);
    } else {
      var n := k - 1;
      RunStep(events, n);
      WorkIsTold(events, j, n, i);
      CurrentWhileQuiet(events, j, n, i);
      WorkStep(Run(events[..n]), events[n], i);
      OneMoreEvent(events, j, n, i);
      OneMoreRow(events, j, n, i, true);
      OneMoreRow(events, j, n, i, false);
      NoRowNoMore(events, j, n, i);
      assert events[n].RowArrives? ==> events[n].row.CurrentRow? || events[n].row.LackingRow?;
    }
  }

  lemma NothingYet(events: seq<Event>, j: nat, i: nat)
    requires j < |events|
    ensures HasNoRow(events, j, j + 1, i) && !AwaitsMembership(events, j, j + 1, i)
    ensures ToldChecks(events, j, j + 1, i) == UNAVAILABLE
  {
  }

  /** How the told story goes on with event n. */
  lemma OneMoreEvent(events: seq<Event>, j: nat, n: nat, i: nat)
    requires j < n < |events|
    ensures HasNoRow(events, j, n + 1, i) <==> HasNoRow(events, j, n, i) && !IsRowEvent(events[n], i)
    ensures GetsRow(events, j, n, i) <==>
              HasNoRow(events, j, n, i) && events[n] == RowArrives(i, CurrentRow) && IsQuiet(events, j, n)
    ensures AwaitsMembership(events, j, n + 1, i) <==>
              (AwaitsMembership(events, j, n, i) && !IsMembershipEvent(events[n], i)) || GetsRow(events, j, n, i)
    ensures IsEarned(events, j, n + 1, i) <==> IsEarned(events, j, n, i) || SucceedsAt(events, j, n, i)
  {
    hide IsQuiet;
  }

  lemma OneMoreRow(events: seq<Event>, j: nat, n: nat, i: nat, current: bool)
    requires j < n < |events|
    ensures RowCame(events, j, n + 1, i, current) <==>
              RowCame(events, j, n, i, current)
              || (HasNoRow(events, j, n, i)
                  && (events[n] == RowArrives(i, CurrentRow) || (!current && events[n] == RowArrives(i, LackingRow))))
  {
    hide HasNoRow;
  }

  /** As long as there is no news of the row, nothing is awaited and nothing earned. */
  lemma NoRowNoMore(events: seq<Event>, j: nat, n: nat, i: nat)
    requires j < n <= |events|
    ensures HasNoRow(events, j, n, i) ==> !AwaitsMembership(events, j, n, i)
    ensures forall current: bool :: HasNoRow(events, j, n, i) ==> !RowCame(events, j, n, i, current)
  {
    hide IsQuiet;
  }

  // ------------------------------------------------------------------ reports

  predicate IsPendingAt(events: seq<Event>, j: nat, m: nat, i: nat)
    requires m <= |events|
  {
    HasNoRow(events, j, m, i) || AwaitsMembership(events, j, m, i)
  }

  /** Event m is a result of the probe started at j: a timeout while its work is pending, else its answer. */
  predicate IsResult(events: seq<Event>, j: nat, m: nat, i: nat)
    requires m < |events|
  {
    j < m && events[m] == if IsPendingAt(events, j, m, i) then TimeOut(i) else Answer(i)
  }

  predicate IsFirstResult(events: seq<Event>, j: nat, m: nat, i: nat)
    requires m < |events|
  {
    IsResult(events, j, m, i) && forall n | j < n < m :: !IsResult(events, j, n, i)
  }

  /** Probe i of start j has had a result among the first k events. */
  predicate IsSettled(events: seq<Event>, j: nat, k: nat, i: nat)
    requires k <= |events|
  {
    exists n | j < n < k :: IsResult(events, j, n, i)
  }

  /** Event m reports on the probe started at j: its first result, with no pool error and no shutdown since. */
  predicate ReportsProbe(events: seq<Event>, j: nat, m: nat, i: nat) {
    j < m < |events| && Starts(events, j, i) && IsFirstResult(events, j, m, i) && IsQuiet(events, j, m)
  }

  /** Event m is a report: on some probe, or of a pool error before any shutdown. */
  predicate Reports(events: seq<Event>, m: nat)
    requires m < |events|
  {
    IsOpenAt(events, m)
    && (events[m] == PoolError
        || ((events[m].Answer? || events[m].TimeOut?)
            && exists j | 0 <= j < m :: ReportsProbe(events, j, m, events[m].probe)))
  }

  /** What the runtime says is c. */
  predicate Says(s: State, c: Checks) {
    s.current == Snapshot(
      c.configuration == IS_READY && c.auth == CONFIGURED && c.database == USABLE && c.migrations == CURRENT
      && c.membership == USABLE, c)
  }

  lemma {:induction false} AnsweredIsTold(events: seq<Event>, j: nat, k: nat, i: nat)
    requires j < k <= |events| && Starts(events, j, i)
    ensures i < |Run(events[..k]).probes|
    ensures Run(events[..k]).probes[i].answered <==> IsSettled(events, j, k, i)
    decreases k
  {
    hide Step, IsCurrent, IsResult;
    RunStep(events, j);
    if k == j + 1 {
      StartedProbe(Run(events[..j]), i);
    } else {
      var n := k - 1;
      RunStep(events, n);
      AnsweredIsTold(events, j, n, i);
      AnsweredStep(Run(events[..n]), events[n], i);
      ResultIsTold(events, j, n, i);
    }
  }

  lemma AnsweredStep(s: State, e: Event, i: nat)
    requires i < |s.probes|
    ensures i < |Step(s, e).probes|
    ensures Step(s, e).probes[i].answered <==>
              s.probes[i].answered || e == if IsPending(s.probes[i]) then TimeOut(i) else Answer(i)
  {
  }

  lemma ResultIsTold(events: seq<Event>, j: nat, n: nat, i: nat)
    requires j < n < |events| && Starts(events, j, i)
    ensures i < |Run(events[..n]).probes|
    ensures IsResult(events, j, n, i) <==>
              events[n] == if IsPending(Run(events[..n]).probes[i]) then TimeOut(i) else Answer(i)
  {
    hide Step, HasNoRow, AwaitsMembership;
    WorkIsTold(events, j, n, i);
  }

  /** What one event makes of the snapshot of an open runtime. */
  lemma SnapshotStep(s: State, e: Event)
    requires s.lifecycle == Open && !s.closed && e != Close
    ensures e == PoolError ==> Step(s, e).current == Snapshot(false, UNAVAILABLE)
    ensures (e.Answer? || e.TimeOut?) && e.probe < |s.probes| ==>
              var p := s.probes[e.probe];
              Step(s, e).current ==
                if !p.answered && IsCurrent(s, p) && e == (if IsPending(p) then TimeOut(e.probe) else Answer(e.probe))
                then Snapshot(AllGood(p.checks), p.checks) else s.current
    ensures e != PoolError && !((e.Answer? || e.TimeOut?) && e.probe < |s.probes|) ==> Step(s, e).current == s.current
  {
  }

  lemma OpenIsNotClosed(events: seq<Event>, k: nat)
    requires k <= |events| && IsOpenAt(events, k)
    ensures Run(events[..k]).lifecycle == Open && !Run(events[..k]).closed
  {
    hide Step, AreHonest, IsSingleFlight;
    OpenUntilClosed(events, k);
    InvHolds(events[..k]);
  }

  /** The start of a probe of a run. */
  lemma {:induction false} StartOf(events: seq<Event>, k: nat, i: nat) returns (j: nat)
    requires k <= |events| && i < |Run(events[..k]).probes|
    ensures j < k && Starts(events, j, i)
    decreases k
  {
    hide Step;
    j := 0;
    if k > 0 {
      RunStep(events, k - 1);
      if i < |Run(events[..k - 1]).probes| {
        j := StartOf(events, k - 1, i);
      } else {
        ProbesStep(Run(events[..k - 1]), events[k - 1], i);
        OneProbeMore(Run(events[..k - 1]), events[k - 1]);
        j := k - 1;
      }
    }
  }

  lemma OneProbeMore(s: State, e: Event)
    ensures |s.probes| <= |Step(s, e).probes| <= |s.probes| + 1
  {
  }

  /** Event n reports on probe i exactly when the machine lets it speak. */
  lemma ReportIsTold(events: seq<Event>, j: nat, n: nat, i: nat)
    requires j < n < |events| && Starts(events, j, i)
    ensures i < |Run(events[..n]).probes|
    ensures var s := Run(events[..n]); var p := s.probes[i];
            ReportsProbe(events, j, n, i) <==>
              !p.answered && IsCurrent(s, p) && events[n] == if IsPending(p) then TimeOut(i) else Answer(i)
  {
    hide Step, IsResult, IsCurrent, Starts, IsQuiet;
    ResultIsTold(events, j, n, i);
    AnsweredIsTold(events, j, n, i);
    CurrentWhileQuiet(events, j, n, i);
  }

  /** A probe is started once. */
  lemma StartedOnce(events: seq<Event>, j: nat, k: nat, i: nat)
    requires j < |events| && k < |events| && Starts(events, j, i) && Starts(events, k, i)
    ensures j == k
  {
    hide Step;
    if j < k { CurrentWhileQuiet(events, j, k, i); }
    if k < j { CurrentWhileQuiet(events, k, j, i); }
  }

  lemma ReportedIsStarted(events: seq<Event>, j: nat, m: nat, i: nat)
    requires ReportsProbe(events, j, m, i)
    ensures j < m < |events| && Starts(events, j, i)
  {
    hide Starts, IsFirstResult;
  }

  lemma GoodIsSaid(s: State, t: State, events: seq<Event>, j: nat, n: nat, i: nat)
    requires n <= |events|
    ensures var c := ToldChecks(events, j, n, i); t.current == Snapshot(AllGood(c), c) ==> Says(t, c)
  {
    hide RowCame, IsEarned;
  }

  /** One event of an open runtime: a report changes what is said, anything else does not. */
  lemma ReportStep(events: seq<Event>, n: nat)
    requires n < |events| && IsOpenAt(events, n + 1)
    ensures Reports(events, n) && events[n] == PoolError ==> Says(Run(events[..n + 1]), UNAVAILABLE)
    ensures Reports(events, n) && events[n] != PoolError ==>
              exists j | 0 <= j < n ::
                ReportsProbe(events, j, n, events[n].probe)
                && Says(Run(events[..n + 1]), ToldChecks(events, j, n, events[n].probe))
    ensures !Reports(events, n) ==> Run(events[..n + 1]).current == Run(events[..n]).current
  {
    hide Step, IsCurrent, ReportsProbe, ToldChecks, Starts;
    var s, e := Run(events[..n]), events[n];
    OpenIsNotClosed(events, n);
    RunStep(events, n);
    SnapshotStep(s, e);
    if e.Answer? || e.TimeOut? {
      if e.probe < |s.probes| {
        var j := StartOf(events, n, e.probe);
        ReportIsTold(events, j, n, e.probe);
        WorkIsTold(events, j, n, e.probe);
        GoodIsSaid(s, Step(s, e), events, j, n, e.probe);
        forall k | 0 <= k < n && ReportsProbe(events, k, n, e.probe) ensures k == j {
          ReportedIsStarted(events, k, n, e.probe);
          StartedOnce(events, j, k, e.probe);
        }
      } else {
        forall k | 0 <= k < n ensures !ReportsProbe(events, k, n, e.probe) {
          if ReportsProbe(events, k, n, e.probe) {
            ReportedIsStarted(events, k, n, e.probe);
            CurrentWhileQuiet(events, k, n, e.probe);
          }
        }
      }
    }
  }

  // ------------------------------------------------------------------ main results

  predicate IsLastReport(events: seq<Event>, m: nat, k: nat)
    requires k <= |events|
  {
    m < k && Reports(events, m) && forall n | m < n < k :: !Reports(events, n)
  }

  /** What report m says. */
  ghost predicate SaysReport(s: State, events: seq<Event>, m: nat)
    requires m < |events|
  {
    if events[m] == PoolError then Says(s, UNAVAILABLE)
    else
      && (events[m].Answer? || events[m].TimeOut?)
      && exists j | 0 <= j < m ::
           ReportsProbe(events, j, m, events[m].probe) && Says(s, ToldChecks(events, j, m, events[m].probe))
  }

  /** As long as no shutdown was asked for, the last report stands. */
  lemma {:induction false} LastReportStands(events: seq<Event>, m: nat, k: nat)
    requires k <= |events| && IsOpenAt(events, k) && IsLastReport(events, m, k)
    ensures SaysReport(Run(events[..k]), events, m)
    decreases k
  {
    hide Step, Reports, ReportsProbe, ToldChecks, Run, Says;
    ReportStep(events, k - 1);
    if m < k - 1 {
      LastReportStands(events, m, k - 1);
      SameIsSaid(Run(events[..k - 1]), Run(events[..k]), events, m);
    } else {
      ReportForm(events, m);
    }
  }

  lemma ReportForm(events: seq<Event>, m: nat)
    requires m < |events| && Reports(events, m)
    ensures events[m] == PoolError || events[m].Answer? || events[m].TimeOut?
  {
    hide ReportsProbe;
  }

  lemma SameIsSaid(s: State, t: State, events: seq<Event>, m: nat)
    requires m < |events| && SaysReport(s, events, m) && t.current == s.current
    ensures SaysReport(t, events, m)
  {
    hide ReportsProbe, ToldChecks;
  }

  /** Before the first report everything is unavailable. */
  lemma {:induction false} NothingReportedYet(events: seq<Event>, k: nat)
    requires k <= |events| && IsOpenAt(events, k) && forall n | 0 <= n < k :: !Reports(events, n)
    ensures Says(Run(events[..k]), UNAVAILABLE)
    decreases k
  {
    hide Step, Reports, ReportsProbe, ToldChecks;
    if k > 0 {
      NothingReportedYet(events, k - 1);
      ReportStep(events, k - 1);
    }
  }

  lemma {:induction false} LastOrNone(events: seq<Event>, k: nat) returns (m: nat)
    requires k <= |events|
    ensures IsLastReport(events, m, k) || forall n | 0 <= n < k :: !Reports(events, n)
    decreases k
  {
    hide Reports;
    m := 0;
    if k > 0 {
      m := LastOrNone(events, k - 1);
      if Reports(events, k - 1) { m := k - 1; }
    }
  }

  /**
   * Readiness, both ways: the runtime is ready exactly when no shutdown was asked for and its last report is on a probe
   * that had fully succeeded: since its start there came a current row, then the list of memberships, and neither a
   * pool error before the report nor any other report after it.
   */
  lemma ReadyExactlyWhen(events: seq<Event>)
    ensures Run(events).current.ready <==>
              IsOpenAt(events, |events|)
              && exists j, m | 0 <= j < m < |events| ::
                   IsLastReport(events, m, |events|) && (events[m].Answer? || events[m].TimeOut?)
                   && ReportsProbe(events, j, m, events[m].probe) && IsEarned(events, j, m, events[m].probe)
  {
    hide Step, Reports, ReportsProbe, IsEarned, Says, IsOpenAt, RowCame, Run, IsLastReport, AreHonest, IsSingleFlight,
      ToldChecks;
    var k := |events|;
    assert events[..k] == events;
    OpenUntilClosed(events, k);
    InvHolds(events);
    if IsOpenAt(events, k) {
      var m := LastOrNone(events, k);
      if IsLastReport(events, m, k) {
        LastReportStands(events, m, k);
        LastIsUnique(events, m, k);
        ReadyIsEarned(Run(events), events, m);
      } else {
        NothingReportedYet(events, k);
        UnavailableIsNotReady(Run(events));
        LastIsReport(events, k);
      }
    }
  }

  lemma UnavailableIsNotReady(s: State)
    ensures Says(s, UNAVAILABLE) ==> !s.current.ready
  {
  }

  lemma LastIsReport(events: seq<Event>, k: nat)
    requires k <= |events|
    ensures forall m | 0 <= m < k && IsLastReport(events, m, k) :: Reports(events, m)
  {
    hide Reports;
  }

  lemma LastIsUnique(events: seq<Event>, m: nat, k: nat)
    requires k <= |events| && IsLastReport(events, m, k)
    ensures m < k
    ensures forall n | 0 <= n < k && IsLastReport(events, n, k) :: n == m
  {
    hide Reports;
  }

  lemma ReadyIsEarned(s: State, events: seq<Event>, m: nat)
    requires m < |events| && SaysReport(s, events, m)
    ensures s.current.ready <==>
              (events[m].Answer? || events[m].TimeOut?)
              && exists j | 0 <= j < m ::
                   ReportsProbe(events, j, m, events[m].probe) && IsEarned(events, j, m, events[m].probe)
  {
    hide ReportsProbe, IsEarned, RowCame, Starts;
    if events[m].Answer? || events[m].TimeOut? {
      var i := events[m].probe;
      forall j | 0 <= j < m && IsEarned(events, j, m, i)
        ensures RowCame(events, j, m, i, true) && RowCame(events, j, m, i, false)
      {
        EarnedHasRow(events, j, m, i);
      }
      forall j, k | 0 <= j < m && 0 <= k < m && ReportsProbe(events, j, m, i) && ReportsProbe(events, k, m, i)
        ensures j == k
      {
        ReportedIsStarted(events, j, m, i);
        ReportedIsStarted(events, k, m, i);
        StartedOnce(events, j, k, i);
      }
    }
  }

  lemma EarnedHasRow(events: seq<Event>, j: nat, m: nat, i: nat)
    requires m <= |events| && IsEarned(events, j, m, i)
    ensures RowCame(events, j, m, i, true) && RowCame(events, j, m, i, false)
  {
    hide IsQuiet, HasNoRow, HasNoMembership;
    var n :| j < n < m && SucceedsAt(events, j, n, i);
    var r :| j < r < n && GetsRow(events, j, r, i) && HasNoMembership(events, r, n, i);
    assert HasNoRow(events, j, r, i) && events[r] == RowArrives(i, CurrentRow);
  }

  /** Once a shutdown was asked for, the runtime is not ready and says that its database is closed. */
  lemma {:induction false} ShutdownIsSaid(events: seq<Event>, k: nat)
    requires k <= |events| && !IsOpenAt(events, k)
    ensures var c := Run(events[..k]).current;
            && !c.ready && c.checks.database == CLOSED_CHECK
            && c.checks.migrations == NOT_READY && c.checks.membership == NOT_READY
    decreases k
  {
    hide Step, AreHonest, IsSingleFlight;
    RunStep(events, k - 1);
    InvHolds(events[..k - 1]);
    OpenUntilClosed(events, k - 1);
    if IsOpenAt(events, k - 1) {
      ClosingStep(Run(events[..k - 1]));
    } else {
      ShutdownIsSaid(events, k - 1);
      ClosedStep(Run(events[..k - 1]), events[k - 1]);
    }
  }

  lemma ClosingStep(s: State)
    requires s.lifecycle == Open && !s.closed
    ensures var c := Step(s, Close).current;
            && !c.ready && c.checks.database == CLOSED_CHECK
            && c.checks.migrations == NOT_READY && c.checks.membership == NOT_READY
  {
  }

  // ------------------------------------------------------------------ when a probe is started

  predicate FlightIsPending(s: State) {
    s.inFlight.Some? ==> s.inFlight.value < |s.probes| && IsPending(s.probes[s.inFlight.value])
  }

  lemma FlightStep(s: State, e: Event)
    requires FlightIsPending(s)
    ensures FlightIsPending(Step(s, e))
  {
  }

  lemma NoFlightAtStart()
    ensures FlightIsPending(START)
  {
  }

  lemma {:induction false} FlightHolds(events: seq<Event>)
    ensures FlightIsPending(Run(events))
  {
    hide Step, FlightIsPending;
    if events == [] {
      NoFlightAtStart();
    } else {
      FlightHolds(events[..|events| - 1]);
      FlightStep(Run(events[..|events| - 1]), events[|events| - 1]);
    }
  }

  /** A call starts a probe exactly when no shutdown was asked for and the work of no earlier probe is pending. */
  lemma StartsExactlyWhen(events: seq<Event>, n: nat)
    requires n < |events| && events[n] == CallProbe
    ensures Starts(events, n, |Run(events[..n]).probes|) <==>
              IsOpenAt(events, n)
              && forall j, i: nat | 0 <= j < n && Starts(events, j, i) :: !IsPendingAt(events, j, n, i)
  {
    hide Step, Run, Starts, IsPendingAt, IsVouchedFor, AreHonest;
    var s := Run(events[..n]);
    OpenUntilClosed(events, n);
    FlightHolds(events[..n]);
    InvHolds(events[..n]);
    CallStep(events, n);
    forall j, i: nat | 0 <= j < n && Starts(events, j, i)
      ensures IsPendingAt(events, j, n, i) <==> s.inFlight == Some(i)
    {
      PendingIsTold(events, j, n, i);
    }
    if s.inFlight.Some? {
      var j := StartOf(events, n, s.inFlight.value);
    }
  }

  lemma CallStep(events: seq<Event>, n: nat)
    requires n < |events| && events[n] == CallProbe
    ensures var s := Run(events[..n]);
            Starts(events, n, |s.probes|) <==> s.lifecycle == Open && s.inFlight.None?
  {
    RunStep(events, n);
  }

  lemma PendingIsTold(events: seq<Event>, j: nat, n: nat, i: nat)
    requires j < n <= |events| && Starts(events, j, i)
    ensures i < |Run(events[..n]).probes|
    ensures IsPendingAt(events, j, n, i) <==> IsPending(Run(events[..n]).probes[i])
  {
    hide Step, HasNoRow, AwaitsMembership, Starts;
    WorkIsTold(events, j, n, i);
  }
}

/** Over every interleaving: who vouches for readiness, and how many probes work at a time. */
module ReadinessSafety {
  import opened Text
  import opened Readiness

  /** The checks of a probe are what its work has established so far. */
  predicate IsHonest(p: Probe) {
    && (p.work == AwaitingRow ==> p.checks == UNAVAILABLE)
    && (p.work == AwaitingMembership ==> p.checks == UNAVAILABLE.(database := USABLE, migrations := CURRENT))
    && (AllGood(p.checks) ==> p.work == Succeeded)
  }

  predicate AreHonest(s: State) {
    forall i | 0 <= i < |s.probes| :: IsHonest(s.probes[i]) && s.probes[i].revision <= s.revision
  }

  /** Only the probe in flight has work pending. */
  predicate IsSingleFlight(s: State) {
    && (s.inFlight.Some? ==> s.inFlight.value < |s.probes|)
    && forall i | 0 <= i < |s.probes| && IsPending(s.probes[i]) :: s.inFlight == Some(i)
  }

  /** The probe behind a published readiness: fully successful, answered, of the present revision. */
  predicate Vouches(s: State, i: nat) {
    && i < |s.probes| && s.probes[i].work == Succeeded && s.probes[i].answered
    && AllGood(s.probes[i].checks) && s.probes[i].checks == s.current.checks
    && s.probes[i].revision == s.revision
  }

  predicate IsVouchedFor(s: State) {
    && (s.closed <==> s.lifecycle != Open)
    && (s.current.ready ==> s.lifecycle == Open && exists i | 0 <= i < |s.probes| :: Vouches(s, i))
  }

  predicate Inv(s: State) {
    AreHonest(s) && IsSingleFlight(s) && IsVouchedFor(s)
  }

  // ------------------------------------------------------------------ one step

  /** Writing an honest probe of the past or present keeps all probes honest. */
  lemma ReplacedIsHonest(s: State, i: nat, p: Probe)
    requires AreHonest(s) && i < |s.probes| && IsHonest(p) && p.revision == s.probes[i].revision
    ensures AreHonest(WithProbe(s, i, p)) && AreHonest(Settle(s, i, p))
  {
  }

  lemma WorkKeepsHonesty(s: State, e: Event)
    requires AreHonest(s) && !e.CallProbe? && !e.PoolError? && !e.Close? && !e.Stop?
    ensures AreHonest(Step(s, e)) && |s.probes| == |Step(s, e).probes| && s.revision == Step(s, e).revision
  {
    hide AreHonest, Settle, WithProbe;
    if e.probe < |s.probes| {
      HonestAt(s, e.probe);
      var p := s.probes[e.probe];
      var usable := p.(checks := p.checks.(database := USABLE));
      var migrated := usable.(checks := usable.checks.(migrations := CURRENT));
      if p.work == AwaitingRow {
        ReplacedIsHonest(s, e.probe, usable.(work := Succeeded));
        ReplacedIsHonest(s, e.probe, migrated.(work := Succeeded));
        ReplacedIsHonest(s, e.probe, migrated.(work := AwaitingMembership));
        ReplacedIsHonest(s, e.probe, p.(work := Failed));
      } else if p.work == AwaitingMembership {
        ReplacedIsHonest(s, e.probe, p.(work := Failed));
        ReplacedIsHonest(s, e.probe, p.(checks := p.checks.(membership := USABLE), work := Succeeded));
      }
      ReplacedIsHonest(s, e.probe, p.(answered := true));
      StoresKeepProbes(s, e.probe, usable.(work := Succeeded));
      StoresKeepProbes(s, e.probe, migrated.(work := Succeeded));
      StoresKeepProbes(s, e.probe, migrated.(work := AwaitingMembership));
      StoresKeepProbes(s, e.probe, p.(work := Failed));
      StoresKeepProbes(s, e.probe, p.(checks := p.checks.(membership := USABLE), work := Succeeded));
      StoresKeepProbes(s, e.probe, p.(answered := true));
      MarkKeepsHonesty(WithProbe(s, e.probe, p.(answered := true)), p.checks);
    }
  }

  lemma HonestAt(s: State, i: nat)
    requires AreHonest(s) && i < |s.probes|
    ensures IsHonest(s.probes[i]) && s.probes[i].revision <= s.revision
  {
  }

  lemma StoresKeepProbes(s: State, i: nat, p: Probe)
    requires i < |s.probes|
    ensures |WithProbe(s, i, p).probes| == |s.probes| && WithProbe(s, i, p).revision == s.revision
    ensures |Settle(s, i, p).probes| == |s.probes| && Settle(s, i, p).revision == s.revision
  {
  }

  lemma MarkKeepsHonesty(s: State, checks: Checks)
    ensures AreHonest(Mark(s, checks)) == AreHonest(s) && Mark(s, checks).probes == s.probes
    ensures Mark(s, checks).revision == s.revision
  {
  }

  lemma StepKeepsHonesty(s: State, e: Event)
    requires AreHonest(s)
    ensures AreHonest(Step(s, e)) && |s.probes| <= |Step(s, e).probes| && s.revision <= Step(s, e).revision
  {
    if !e.CallProbe? && !e.PoolError? && !e.Close? && !e.Stop? { WorkKeepsHonesty(s, e); }
  }

  /** A probe that is written back pending was pending before, and a settled one leaves the flight. */
  lemma ReplacedKeepsFlight(s: State, i: nat, p: Probe)
    requires IsSingleFlight(s) && i < |s.probes|
    ensures (IsPending(p) ==> IsPending(s.probes[i])) ==> IsSingleFlight(WithProbe(s, i, p))
    ensures !IsPending(p) ==> IsSingleFlight(Settle(s, i, p))
  {
  }

  lemma MarkKeepsFlight(s: State, checks: Checks)
    ensures IsSingleFlight(Mark(s, checks)) == IsSingleFlight(s)
  {
  }

  lemma StepKeepsSingleFlight(s: State, e: Event)
    requires IsSingleFlight(s)
    ensures IsSingleFlight(Step(s, e))
  {
    if e.CallProbe? || e.PoolError? || e.Close? || e.Stop? {
    } else if e.probe < |s.probes| {
      WorkKeepsFlight(s, e);
    }
  }

  lemma WorkKeepsFlight(s: State, e: Event)
    requires IsSingleFlight(s) && !e.CallProbe? && !e.PoolError? && !e.Close? && !e.Stop? && e.probe < |s.probes|
    ensures IsSingleFlight(Step(s, e))
  {
    hide IsSingleFlight, Settle, WithProbe;
    var p := s.probes[e.probe];
    var usable := p.(checks := p.checks.(database := USABLE));
    var migrated := usable.(checks := usable.checks.(migrations := CURRENT));
    ReplacedKeepsFlight(s, e.probe, usable.(work := Succeeded));
    ReplacedKeepsFlight(s, e.probe, migrated.(work := Succeeded));
    ReplacedKeepsFlight(s, e.probe, migrated.(work := AwaitingMembership));
    ReplacedKeepsFlight(s, e.probe, p.(work := Failed));
    ReplacedKeepsFlight(s, e.probe, p.(checks := p.checks.(membership := USABLE), work := Succeeded));
    ReplacedKeepsFlight(s, e.probe, p.(answered := true));
    MarkKeepsFlight(WithProbe(s, e.probe, p.(answered := true)), p.checks);
  }

  /** A probe that vouched still does after a step that leaves snapshot and revision alone. */
  lemma StillVouches(s: State, t: State, i: nat)
    requires Vouches(s, i) && t.current == s.current && t.revision == s.revision
    requires i < |t.probes| && t.probes[i] == s.probes[i]
    ensures Vouches(t, i)
  {
  }

  /** The work of a finished probe is never touched again, nor its answer taken back. */
  lemma FinishedStays(s: State, e: Event, i: nat)
    requires i < |s.probes| && s.probes[i].work == Succeeded && s.probes[i].answered
    ensures i < |Step(s, e).probes| && Step(s, e).probes[i] == s.probes[i]
  {
  }

  /** Only an answer makes the runtime ready, and then by a good probe of the present revision. */
  lemma WhoPublishes(s: State, e: Event)
    requires AreHonest(s) && Step(s, e).current.ready && Step(s, e).current != s.current
    ensures e.Answer? && e.probe < |s.probes| && Vouches(Step(s, e), e.probe) && s.lifecycle == Open
    ensures Step(s, e).lifecycle == Open
  {
    if e.TimeOut? && e.probe < |s.probes| { assert IsHonest(s.probes[e.probe]); }
    if e.Answer? && e.probe < |s.probes| { assert IsHonest(s.probes[e.probe]); }
  }

  lemma ReadyStandsStill(s: State, e: Event)
    requires IsVouchedFor(s) && Step(s, e).current.ready && Step(s, e).current == s.current
    ensures Step(s, e).revision == s.revision && Step(s, e).lifecycle == Open
  {
  }

  lemma ClosedFollowsLifecycle(s: State, e: Event)
    requires s.closed <==> s.lifecycle != Open
    ensures Step(s, e).closed <==> Step(s, e).lifecycle != Open
  {
  }

  lemma StepKeepsInv(s: State, e: Event)
    requires Inv(s)
    ensures Inv(Step(s, e))
  {
    hide Step, AreHonest, IsSingleFlight, Vouches;
    StepKeepsHonesty(s, e);
    StepKeepsSingleFlight(s, e);
    ClosedFollowsLifecycle(s, e);
    var t := Step(s, e);
    if t.current.ready {
      if t.current != s.current {
        WhoPublishes(s, e);
        VoucherExists(t, e.probe);
      } else {
        ReadyStandsStill(s, e);
        var i :| 0 <= i < |s.probes| && Vouches(s, i);
        VoucherIsFinished(s, i);
        FinishedStays(s, e, i);
        StillVouches(s, t, i);
      }
    }
  }

  lemma VoucherExists(s: State, i: nat)
    requires Vouches(s, i)
    ensures exists k | 0 <= k < |s.probes| :: Vouches(s, k)
  {
  }

  lemma VoucherIsFinished(s: State, i: nat)
    requires Vouches(s, i)
    ensures i < |s.probes| && s.probes[i].work == Succeeded && s.probes[i].answered
  {
  }

  // ------------------------------------------------------------------ runs

  function Run(events: seq<Event>): State {
    if events == [] then START else Step(Run(events[..|events| - 1]), events[|events| - 1])
  }

  lemma {:induction false} InvHolds(events: seq<Event>)
    ensures Inv(Run(events))
  {
    hide Step;
    if events != [] {
      InvHolds(events[..|events| - 1]);
      StepKeepsInv(Run(events[..|events| - 1]), events[|events| - 1]);
    }
  }

  /** The events that invalidate running probes: a pool error, or the first shutdown. */
  predicate Invalidates(events: seq<Event>, k: nat)
    requires k < |events|
  {
    events[k] == PoolError || (events[k] == Close && Run(events[..k]).lifecycle == Open)
  }

  lemma RunStep(events: seq<Event>, k: nat)
    requires k < |events|
    ensures Run(events[..k + 1]) == Step(Run(events[..k]), events[k])
  {
    hide Step;
    assert events[..k + 1][..k] == events[..k];
  }

  lemma RevisionCounts(s: State, e: Event)
    ensures Step(s, e).revision == s.revision + (if e == PoolError || (e == Close && s.lifecycle == Open) then 1 else 0)
  {
  }

  /** The revision never falls, and rises at every invalidating event. */
  lemma {:induction false} RevisionRises(events: seq<Event>, j: nat, k: nat)
    requires j <= k <= |events|
    ensures Run(events[..j]).revision <= Run(events[..k]).revision
    ensures Run(events[..j]).revision == Run(events[..k]).revision ==>
              forall m | j <= m < k :: !Invalidates(events, m)
    decreases k
  {
    hide Step;
    if j < k {
      RevisionRises(events, j, k - 1);
      RunStep(events, k - 1);
      RevisionCounts(Run(events[..k - 1]), events[k - 1]);
    }
  }

  lemma ProbesStep(s: State, e: Event, i: nat)
    ensures i < |s.probes| ==> i < |Step(s, e).probes| && Step(s, e).probes[i].revision == s.probes[i].revision
    ensures |s.probes| <= i < |Step(s, e).probes| ==>
              e == CallProbe && i == |s.probes| && Step(s, e).probes[i].revision == s.revision && s.lifecycle == Open
  {
  }

  /** A probe of a run was started by one of its calls and carries the revision of that moment. */
  lemma {:induction false} ProbeWasStarted(events: seq<Event>, k: nat, i: nat) returns (j: nat)
    requires k <= |events| && i < |Run(events[..k]).probes|
    ensures j < k && events[j] == CallProbe && |Run(events[..j]).probes| == i && Run(events[..j]).lifecycle == Open
    ensures Run(events[..k]).probes[i].revision == Run(events[..j]).revision
    decreases k
  {
    hide Step;
    j := 0;
    if k > 0 {
      RunStep(events, k - 1);
      ProbesStep(Run(events[..k - 1]), events[k - 1], i);
      j := k - 1;
      if i < |Run(events[..k - 1]).probes| {
        j := ProbeWasStarted(events, k - 1, i);
      }
    }
  }

  /**
   * Safety: when the runtime is ready it is not closing, and the published checks are those of a probe that
   * was started by a call j, succeeded in full, and saw no pool error and no shutdown between its start and now.
   */
  lemma ReadyIsVouchedFor(events: seq<Event>) returns (i: nat, j: nat)
    requires Run(events).current.ready
    ensures Run(events).lifecycle == Open
    ensures var s := Run(events);
            && i < |s.probes| && s.probes[i].work == Succeeded
            && s.current.checks == s.probes[i].checks && AllGood(s.current.checks)
    ensures j < |events| && events[j] == CallProbe && |Run(events[..j]).probes| == i
    ensures forall m | j <= m < |events| :: !Invalidates(events, m)
  {
    hide Step, AreHonest, IsSingleFlight;
    InvHolds(events);
    var s := Run(events);
    i :| 0 <= i < |s.probes| && Vouches(s, i);
    var n := |events|;
    assert events[..n] == events;
    j := ProbeWasStarted(events, n, i);
    RevisionRises(events, j, n);
  }

  /** At most one probe has work in flight. */
  lemma OneProbeInFlight(events: seq<Event>, i: nat, k: nat)
    requires i < |Run(events).probes| && k < |Run(events).probes|
    requires IsPending(Run(events).probes[i]) && IsPending(Run(events).probes[k])
    ensures i == k
  {
    hide Step, AreHonest, IsVouchedFor, Run;
    InvHolds(events);
  }

  // ------------------------------------------------------------------ stale probes and shutdown

  /** The events that belong to the work or the result of probe i. */
  predicate Concerns(e: Event, i: nat) {
    match e
    case RowArrives(k, _) => k == i
    case RowFails(k) => k == i
    case MembershipArrives(k, _) => k == i
    case MembershipFails(k) => k == i
    case Answer(k) => k == i
    case TimeOut(k) => k == i
    case _ => false
  }

  lemma StaleStep(s: State, e: Event, i: nat)
    requires i < |s.probes| && !IsCurrent(s, s.probes[i]) && Concerns(e, i)
    ensures Step(s, e).current == s.current
  {
  }

  lemma {:induction false} ProbeKeepsRevision(events: seq<Event>, j: nat, k: nat, i: nat)
    requires j <= k <= |events| && i < |Run(events[..j]).probes|
    ensures i < |Run(events[..k]).probes| && Run(events[..k]).probes[i].revision == Run(events[..j]).probes[i].revision
    decreases k
  {
    hide Step;
    if j < k {
      ProbeKeepsRevision(events, j, k - 1, i);
      RunStep(events, k - 1);
      ProbesStep(Run(events[..k - 1]), events[k - 1], i);
    }
  }

  /**
   * A probe that was started before a pool error or shutdown never changes the snapshot after it, whatever becomes of
   * its work, its answer and its timeout.
   */
  lemma StaleProbesAreSilent(events: seq<Event>, i: nat, m: nat, k: nat)
    requires m < k < |events| && Invalidates(events, m) && i < |Run(events[..m]).probes| && Concerns(events[k], i)
    ensures Run(events[..k + 1]).current == Run(events[..k]).current
  {
    hide Step, Run, Inv, IsSingleFlight, IsVouchedFor, Concerns, Invalidates;
    ProbeKeepsRevision(events, m, k, i);
    RevisionRises(events, m, k);
    RunStep(events, k);
    HonestRun(events, m, i);
    StaleStep(Run(events[..k]), events[k], i);
  }

  lemma HonestRun(events: seq<Event>, m: nat, i: nat)
    requires m <= |events| && i < |Run(events[..m]).probes|
    ensures Run(events[..m]).probes[i].revision <= Run(events[..m]).revision
  {
    hide Step, Run, IsSingleFlight, IsVouchedFor;
    InvHolds(events[..m]);
    HonestAt(Run(events[..m]), i);
  }

  /** Once shutdown closed the readiness record, the snapshot is the same at every later moment, and not ready. */
  lemma {:induction false} ClosedForGood(events: seq<Event>, j: nat, k: nat)
    requires j <= k <= |events| && Run(events[..j]).closed
    ensures Run(events[..k]).closed && Run(events[..k]).current == Run(events[..j]).current
    ensures !Run(events[..k]).current.ready
    decreases k
  {
    hide Step, Inv, AreHonest, IsSingleFlight;
    InvHolds(events[..j]);
    ReadyMeansOpen(Run(events[..j]));
    if j < k {
      ClosedForGood(events, j, k - 1);
      RunStep(events, k - 1);
      ClosedStep(Run(events[..k - 1]), events[k - 1]);
    }
  }

  lemma ReadyMeansOpen(s: State)
    requires Inv(s)
    ensures s.closed ==> !s.current.ready
  {
    hide AreHonest, IsSingleFlight;
  }

  lemma ClosedStep(s: State, e: Event)
    requires s.closed
    ensures Step(s, e).closed && Step(s, e).current == s.current
  {
  }
}

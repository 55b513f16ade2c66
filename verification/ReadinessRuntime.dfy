/** The readiness part of the pilot runtime, against its state machine and invariant. */
module ReadinessRuntime {
  import opened Text
  import opened Readiness
  import opened ReadinessSafety

  class Runtime {
    var lifecycle: Lifecycle
    var readinessRevision: nat
    var closed: bool
    var current: Snapshot
    var probeInFlight: Option<nat>
    var probes: seq<Probe>

    function Now(): State
      reads this
    {
      State(lifecycle, readinessRevision, closed, current, probeInFlight, probes)
    }

    constructor ()
      ensures Now() == START && Inv(Now())
    {
      lifecycle, readinessRevision, closed := Open, 0, false;
      current, probeInFlight, probes := Snapshot(false, UNAVAILABLE), None, [];
    }

    method MarkChecks(checks: Checks)
      modifies `current
      ensures Now() == Mark(old(Now()), checks)
    {
      if closed {
        return;
      }
      current := Snapshot(AllGood(checks), checks);
    }

    method ProbeReadiness()
      modifies `probes, `probeInFlight
      ensures Now() == Step(old(Now()), CallProbe)
      ensures Inv(old(Now())) ==> Inv(Now())
    {
      hide Inv;
      StepKept(Now(), CallProbe);
      if lifecycle != Open || probeInFlight.Some? {
        return;
      }
      probeInFlight := Some(|probes|);
      probes := probes + [Probe(readinessRevision, UNAVAILABLE, AwaitingRow, false)];
    }

    method ClearProbe(i: nat)
      modifies `probeInFlight
      ensures probeInFlight == if old(probeInFlight) == Some(i) then None else old(probeInFlight)
    {
      if probeInFlight == Some(i) {
        probeInFlight := None;
      }
    }

    method DatabaseRow(i: nat, row: Row)
      requires i < |probes|
      modifies `probes, `probeInFlight
      ensures Now() == Step(old(Now()), RowArrives(i, row))
      ensures Inv(old(Now())) ==> Inv(Now())
    {
      hide Inv;
      StepKept(Now(), RowArrives(i, row));
      var p := probes[i];
      if p.work != AwaitingRow {
        return;
      }
      p := p.(checks := p.checks.(database := USABLE));
      if row == LackingRow {
        probes := probes[i := p.(work := Succeeded)];
        ClearProbe(i);
        return;
      }
      p := p.(checks := p.checks.(migrations := CURRENT));
      if lifecycle != Open || p.revision != readinessRevision {
        probes := probes[i := p.(work := Succeeded)];
        ClearProbe(i);
        return;
      }
      probes := probes[i := p.(work := AwaitingMembership)];
    }

    method Memberships(i: nat, isList: bool)
      requires i < |probes|
      modifies `probes, `probeInFlight
      ensures Now() == Step(old(Now()), MembershipArrives(i, isList))
      ensures Inv(old(Now())) ==> Inv(Now())
    {
      hide Inv;
      StepKept(Now(), MembershipArrives(i, isList));
      var p := probes[i];
      if p.work != AwaitingMembership {
        return;
      }
      if !isList {
        probes := probes[i := p.(work := Failed)];
      } else {
        p := p.(checks := p.checks.(membership := USABLE));
        probes := probes[i := p.(work := Succeeded)];
      }
      ClearProbe(i);
    }

    method WorkFails(i: nat, waiting: Work)
      requires i < |probes| && waiting in {AwaitingRow, AwaitingMembership}
      modifies `probes, `probeInFlight
      ensures Now() == FailWork(old(Now()), i, waiting)
      ensures Inv(old(Now())) ==> Inv(Now())
    {
      hide Inv;
      StepKept(Now(), if waiting == AwaitingRow then RowFails(i) else MembershipFails(i));
      if probes[i].work != waiting {
        return;
      }
      probes := probes[i := probes[i].(work := Failed)];
      ClearProbe(i);
    }

    /** The result settles, by the work or by the timeout. */
    method ResultSettles(i: nat)
      requires i < |probes|
      modifies `probes, `current
      ensures Now() == Publish(old(Now()), i)
      ensures Inv(old(Now())) ==> Inv(Now())
    {
      hide Inv;
      StepKept(Now(), if IsPending(probes[i]) then TimeOut(i) else Answer(i));
      if probes[i].answered {
        return;
      }
      probes := probes[i := probes[i].(answered := true)];
      if lifecycle != Open || probes[i].revision != readinessRevision {
        return;
      }
      MarkChecks(probes[i].checks);
    }

    method OnPoolError()
      modifies `readinessRevision, `current
      ensures Now() == Step(old(Now()), PoolError)
      ensures Inv(old(Now())) ==> Inv(Now())
    {
      hide Inv;
      StepKept(Now(), PoolError);
      readinessRevision := readinessRevision + 1;
      MarkChecks(UNAVAILABLE);
    }

    method CloseRuntime()
      modifies `lifecycle, `readinessRevision, `closed, `current
      ensures Now() == Step(old(Now()), Close)
      ensures Inv(old(Now())) ==> Inv(Now())
    {
      hide Inv;
      StepKept(Now(), Close);
      if lifecycle != Open {
        return;
      }
      lifecycle := Closing;
      readinessRevision := readinessRevision + 1;
      if closed {
        return;
      }
      closed := true;
      current := Snapshot(false,
        current.checks.(database := CLOSED_CHECK, migrations := NOT_READY, membership := NOT_READY));
    }
  }

  lemma StepKept(s: State, e: Event)
    ensures Inv(s) ==> Inv(Step(s, e))
  {
    hide Step, Inv;
    if Inv(s) { StepKeepsInv(s, e); }
  }
}

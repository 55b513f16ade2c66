/** The readiness probe of the pilot runtime as a state machine over every order of events. */
module Readiness {
  import opened Text

  datatype Check = NOT_READY | IS_READY | USABLE | CURRENT | CONFIGURED | CLOSED_CHECK

  datatype Checks = Checks(configuration: Check, auth: Check, database: Check, migrations: Check, membership: Check)

  /** createUnavailableChecks */
  const UNAVAILABLE := Checks(IS_READY, CONFIGURED, NOT_READY, NOT_READY, NOT_READY)

  predicate IsGood(c: Check) {
    c in {IS_READY, USABLE, CURRENT, CONFIGURED}
  }

  predicate AllGood(c: Checks) {
    IsGood(c.configuration) && IsGood(c.auth) && IsGood(c.database) && IsGood(c.migrations) && IsGood(c.membership)
  }

  datatype Snapshot = Snapshot(ready: bool, checks: Checks)

  datatype Lifecycle = Open | Closing | Stopped

  /** What the asynchronous work of a probe is waiting for. */
  datatype Work = AwaitingRow | AwaitingMembership | Succeeded | Failed

  /** A probe: the revision it saw, its checks, its work, and whether its result was already handed out. */
  datatype Probe = Probe(revision: nat, checks: Checks, work: Work, answered: bool)

  datatype State = State(
    lifecycle: Lifecycle, revision: nat, closed: bool, current: Snapshot, inFlight: Option<nat>, probes: seq<Probe>)

  const START := State(Open, 0, false, Snapshot(false, UNAVAILABLE), None, [])

  /** The row that the database probe reads: current with all roles and relations, or lacking something. */
  datatype Row = CurrentRow | LackingRow

  datatype Event =
    | CallProbe
    | RowArrives(probe: nat, row: Row)
    | RowFails(probe: nat)
    | MembershipArrives(probe: nat, isList: bool)
    | MembershipFails(probe: nat)
    | Answer(probe: nat)
    | TimeOut(probe: nat)
    | PoolError
    | Close
    | Stop

  predicate IsPending(p: Probe) {
    p.work in {AwaitingRow, AwaitingMembership}
  }

  // ------------------------------------------------------------------ the readiness record

  function Mark(s: State, checks: Checks): State {
    if s.closed then s else s.(current := Snapshot(AllGood(checks), checks))
  }

  function CloseReadiness(s: State): State {
    if s.closed then s
    else
      s.(closed := true, current := Snapshot(false,
           s.current.checks.(database := CLOSED_CHECK, migrations := NOT_READY, membership := NOT_READY)))
  }

  // ------------------------------------------------------------------ steps

  function WithProbe(s: State, i: nat, p: Probe): State
    requires i < |s.probes|
  {
    s.(probes := s.probes[i := p])
  }

  /** The work of a probe is over, so that the record in flight is cleared. */
  function Settle(s: State, i: nat, p: Probe): State
    requires i < |s.probes|
  {
    var t := WithProbe(s, i, p);
    if t.inFlight == Some(i) then t.(inFlight := None) else t
  }

  predicate IsCurrent(s: State, p: Probe) {
    s.lifecycle == Open && p.revision == s.revision
  }

  function StartProbe(s: State): State {
    if s.lifecycle != Open || s.inFlight.Some? then s
    else s.(inFlight := Some(|s.probes|), probes := s.probes + [Probe(s.revision, UNAVAILABLE, AwaitingRow, false)])
  }

  function TakeRow(s: State, i: nat, row: Row): State
    requires i < |s.probes|
  {
    var p := s.probes[i];
    if p.work != AwaitingRow then s
    else
      var usable := p.(checks := p.checks.(database := USABLE));
      if row == LackingRow then Settle(s, i, usable.(work := Succeeded))
      else
        var migrated := usable.(checks := usable.checks.(migrations := CURRENT));
        if !IsCurrent(s, p) then Settle(s, i, migrated.(work := Succeeded))
        else WithProbe(s, i, migrated.(work := AwaitingMembership))
  }

  function TakeMembership(s: State, i: nat, isList: bool): State
    requires i < |s.probes|
  {
    var p := s.probes[i];
    if p.work != AwaitingMembership then s
    else if !isList then Settle(s, i, p.(work := Failed))
    else Settle(s, i, p.(checks := p.checks.(membership := USABLE), work := Succeeded))
  }

  function FailWork(s: State, i: nat, waiting: Work): State
    requires i < |s.probes|
  {
    if s.probes[i].work != waiting then s else Settle(s, i, s.probes[i].(work := Failed))
  }

  /** The handlers of the result: publish the checks unless the runtime moved on. */
  function Publish(s: State, i: nat): State
    requires i < |s.probes|
  {
    var p := s.probes[i];
    if p.answered then s
    else
      var t := WithProbe(s, i, p.(answered := true));
      if IsCurrent(s, p) then Mark(t, p.checks) else t
  }

  function Step(s: State, e: Event): State {
    match e
    case CallProbe => StartProbe(s)
    case RowArrives(i, row) => if i < |s.probes| then TakeRow(s, i, row) else s
    case RowFails(i) => if i < |s.probes| then FailWork(s, i, AwaitingRow) else s
    case MembershipArrives(i, isList) => if i < |s.probes| then TakeMembership(s, i, isList) else s
    case MembershipFails(i) => if i < |s.probes| then FailWork(s, i, AwaitingMembership) else s
    case Answer(i) => if i < |s.probes| && !IsPending(s.probes[i]) then Publish(s, i) else s
    case TimeOut(i) => if i < |s.probes| && IsPending(s.probes[i]) then Publish(s, i) else s
    case PoolError => Mark(s.(revision := s.revision + 1), UNAVAILABLE)
    case Close =>
      if s.lifecycle != Open then s else CloseReadiness(s.(lifecycle := Closing, revision := s.revision + 1))
    case Stop => if s.lifecycle == Closing then s.(lifecycle := Stopped) else s
  }
}

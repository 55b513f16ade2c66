/** Opportunities, the next best action, and the facts an action is fingerprinted on. */
module Deals {
  import opened Text
  import opened NumericEvidence
  import Digits

  const DAY := 86_400_000

  datatype Stage = NEW | QUALIFIED | CONTACTED | REPLIED | MEETING | PROPOSAL | WON | LOST
  datatype Priority = HIGH | MEDIUM | LOW
  datatype ActionType = FOLLOW_UP | CREATE_TASK | RESEARCH | QUALIFY | ADVANCE
  datatype ExecutionType = COMMUNICATION_DRAFT | INTERNAL_TASK
  datatype Mode = MANUAL_CONFIRMED | SYSTEM_INTERNAL
  datatype Source = REVENUE_ACTION | DEAL_INTELLIGENCE | OTHER_SOURCE

  /** A recorded amount keeps its JSON type, which the fingerprint tells apart. */
  datatype Amount = NoAmount | NumberAmount(text: string) | TextAmount(text: string)

  /** The contact, name, service and location fields are listed in the order in which they are tried. */
  datatype Opportunity = Opportunity(
    id: string, prospectId: Option<string>, stage: Stage, nextAction: Option<string>,
    value: Amount, currency: Option<string>,
    names: seq<Option<string>>, services: seq<Option<string>>,
    locations: seq<Option<string>>, contacts: seq<Option<string>>)

  datatype Prospect = Prospect(
    id: string, names: seq<Option<string>>, services: seq<Option<string>>,
    locations: seq<Option<string>>, contacts: seq<Option<string>>)

  datatype Activity = Activity(
    id: string, opportunityId: string, kind: string, createdAt: int, metadata: ActivityMetadata)

  datatype ActivityMetadata = ActivityMetadata(
    source: Source, revenueActionId: Option<string>, actionType: Option<ActionType>,
    effectType: Option<ExecutionType>, mode: Option<Mode>, channel: Option<string>, taskId: Option<string>)

  datatype Task = Task(
    id: string, opportunityId: string, title: string, priority: Option<Priority>, dueAt: Option<string>,
    open: bool, createdAt: int, metadata: TaskMetadata)

  datatype TaskMetadata = TaskMetadata(
    source: Source, revenueActionId: Option<string>, actionType: Option<ActionType>,
    effectType: Option<ExecutionType>, normalizedTitle: Option<string>, semanticKey: Option<string>)

  predicate IsClosed(stage: Stage) {
    stage == WON || stage == LOST
  }

  predicate HasValue(value: Option<string>) {
    value.Some? && Trim(value.value) != "" && ToLower(Trim(value.value)) != "unknown"
  }

  predicate HasContact(value: Option<string>) {
    HasValue(value) && ToLower(Trim(value.value)) != "j" && |Trim(value.value)| >= 2
  }

  function FirstValue(values: seq<Option<string>>): (r: Option<string>)
    ensures r.Some? ==> HasValue(r)
  {
    if values == [] then None else if HasValue(values[0]) then values[0] else FirstValue(values[1..])
  }

  function FirstContact(values: seq<Option<string>>): (r: Option<string>)
    ensures r.Some? ==> HasContact(r)
  {
    if values == [] then None else if HasContact(values[0]) then values[0] else FirstContact(values[1..])
  }

  function FindProspect(prospects: seq<Prospect>, id: Option<string>): Option<Prospect> {
    if prospects == [] || id.None? then None
    else if prospects[0].id == id.value then Some(prospects[0])
    else FindProspect(prospects[1..], id)
  }

  function BusinessName(o: Opportunity, p: Option<Prospect>): Option<string> {
    FirstValue(o.names + if p.Some? then p.value.names else [])
  }

  function Service(o: Opportunity, p: Option<Prospect>): Option<string> {
    FirstValue(o.services + if p.Some? then p.value.services else [])
  }

  function Location(o: Opportunity, p: Option<Prospect>): Option<string> {
    FirstValue(o.locations + if p.Some? then p.value.locations else [])
  }

  function ContactName(o: Opportunity, p: Option<Prospect>): Option<string> {
    FirstContact(o.contacts + if p.Some? then p.value.contacts else [])
  }

  /** The newest activity of an opportunity; the earliest recorded one among equals. */
  function LatestActivity(activities: seq<Activity>, opportunityId: string): Option<Activity> {
    if activities == [] then None
    else
      var best := LatestActivity(activities[..|activities| - 1], opportunityId);
      var last := activities[|activities| - 1];
      if last.opportunityId == opportunityId && (best.None? || best.value.createdAt < last.createdAt)
      then Some(last) else best
  }

  /** The activities that are not effects of the given action. */
  function WithoutEffectsOf(activities: seq<Activity>, actionId: string): seq<Activity> {
    if activities == [] then []
    else
      var last := activities[|activities| - 1];
      WithoutEffectsOf(activities[..|activities| - 1], actionId)
      + if last.metadata.revenueActionId == Some(actionId) then [] else [last]
  }

  /** daysSince in milliseconds, never negative. */
  function Age(latest: Option<Activity>, now: int): Option<nat> {
    if latest.None? then None
    else Some(if now < latest.value.createdAt then 0 else now - latest.value.createdAt)
  }

  /** Math.round of an age in days. */
  function RoundedDays(age: nat): nat {
    (2 * age + DAY) / (2 * DAY)
  }

  /** Number(value || 0) <= 0, which a text that is no number fails. */
  predicate IsNotPositive(value: Amount) {
    match value
    case NoAmount => true
    case NumberAmount(text) => IsExactZeroLiteral(text) || IsNegativeNumberLiteral(text)
    case TextAmount(text) =>
      Trim(text) == "" || Trim(text) == "-Infinity" || IsExactZeroLiteral(text) || IsNegativeNumberLiteral(text)
  }

  datatype Recommendation = Recommendation(
    actionType: ActionType, priority: Priority, title: string, reason: string, taskTitle: Option<string>)

  function TextOr(value: Option<string>, otherwise: string): string {
    if value.Some? then value.value else otherwise
  }

  /** next_best_action of the deal intelligence. */
  function NextBestAction(o: Opportunity, business: Option<string>, contact: Option<string>, age: Option<nat>)
    : Recommendation
  {
    if !HasValue(o.nextAction) then
      Recommendation(CREATE_TASK, HIGH, "Define the next action",
        "The opportunity has no explicit next action recorded.",
        Some("Define next action \U{2014} " + TextOr(business, "opportunity")))
    else if contact.None? then
      Recommendation(RESEARCH, HIGH, "Identify the decision maker",
        "The opportunity has an action plan but no identified contact or decision maker.",
        Some("Identify decision maker \U{2014} " + TextOr(business, "opportunity")))
    else if age.None? || age.value > 7 * DAY then
      Recommendation(FOLLOW_UP, if age.Some? && age.value > 14 * DAY then HIGH else MEDIUM,
        "Follow up on the opportunity",
        if age.None? then "There is no recorded activity."
        else "The opportunity has had no activity for approximately "
             + Digits.TextOf(RoundedDays(age.value)) + " days.",
        Some("Follow up \U{2014} " + TextOr(business, "opportunity")))
    else if IsNotPositive(o.value) then
      Recommendation(QUALIFY, MEDIUM, "Confirm commercial value",
        "The opportunity is active but its commercial value has not been established.",
        Some("Confirm opportunity value \U{2014} " + TextOr(business, "opportunity")))
    else
      Recommendation(ADVANCE, MEDIUM, TextOr(o.nextAction, "Advance the opportunity"),
        "The opportunity has recent activity, known commercial value and a defined next action.",
        o.nextAction)
  }

  datatype LatestFacts = LatestFacts(id: string, kind: string, createdAt: int)

  datatype Currency = NoCurrency | ValidCurrency(code: string) | InvalidCurrency(text: string)

  /** evidence.factual without its task counts, which the fingerprint leaves out. */
  datatype Facts = Facts(
    stage: Stage, nextAction: Option<string>, amount: Amount, currency: Currency,
    business: Option<string>, contact: Option<string>, service: Option<string>, location: Option<string>,
    latest: Option<LatestFacts>)

  /** What basis_fingerprint hashes; equal fingerprints stand for equal bases. */
  datatype Basis = Basis(opportunityId: string, recommendation: Recommendation, facts: Facts)

  predicate IsCurrencyCode(code: string) {
    |code| == 3 && forall i | 0 <= i < 3 :: 'A' <= code[i] <= 'Z'
  }

  function CurrencyFacts(currency: Option<string>): Currency {
    if currency.None? then NoCurrency
    else if IsCurrencyCode(currency.value) then ValidCurrency(currency.value)
    else InvalidCurrency(currency.value)
  }

  /** An amount is a fact when it is an exact positive decimal. */
  function AmountFacts(value: Amount): Amount {
    if value.NoAmount? then NoAmount
    else
      var units := CanonicalDecimalUnits(value.text);
      if units.None? || units.value <= 0 then NoAmount else value
  }

  /** normalizeText(next_action) || null */
  function RecordedNextAction(nextAction: Option<string>): Option<string> {
    if nextAction.None? || NormalizeText(nextAction.value) == "" then None
    else Some(NormalizeText(nextAction.value))
  }

  function BasisOf(o: Opportunity, prospects: seq<Prospect>, activities: seq<Activity>, now: int): Basis {
    var p := FindProspect(prospects, o.prospectId);
    var latest := LatestActivity(activities, o.id);
    var business := BusinessName(o, p);
    var contact := ContactName(o, p);
    Basis(o.id, NextBestAction(o, business, contact, Age(latest, now)),
      Facts(o.stage, RecordedNextAction(o.nextAction), AmountFacts(o.value), CurrencyFacts(o.currency),
        business, contact, Service(o, p), Location(o, p),
        if latest.None? then None
        else Some(LatestFacts(latest.value.id, latest.value.kind, latest.value.createdAt))))
  }

  /** Effects of the action, wherever they stand among the activities, are not seen once they are left out. */
  lemma {:induction false} EffectsAreLeftOut(before: seq<Activity>, effects: seq<Activity>, after: seq<Activity>,
                                             actionId: string)
    requires forall i | 0 <= i < |effects| :: effects[i].metadata.revenueActionId == Some(actionId)
    ensures WithoutEffectsOf(before + effects + after, actionId) == WithoutEffectsOf(before + after, actionId)
    decreases |effects| + |after|
  {
    if after != [] {
      var n := |after| - 1;
      EffectsAreLeftOut(before, effects, after[..n], actionId);
      assert (before + effects + after)[..|before| + |effects| + n] == before + effects + after[..n];
      assert (before + after)[..|before| + n] == before + after[..n];
    } else if effects != [] {
      var n := |effects| - 1;
      EffectsAreLeftOut(before, effects[..n], [], actionId);
      assert (before + effects + [])[..|before| + n] == before + effects[..n] + [];
    } else {
      assert before + [] + [] == before + [];
    }
  }

  lemma {:induction false} NothingIsLeftOut(activities: seq<Activity>, actionId: string)
    requires forall i | 0 <= i < |activities| :: activities[i].metadata.revenueActionId != Some(actionId)
    ensures WithoutEffectsOf(activities, actionId) == activities
  {
    if activities != [] {
      var front := activities[..|activities| - 1];
      NothingIsLeftOut(front, actionId);
      assert activities == front + [activities[|activities| - 1]];
    }
  }

  /** LatestActivity is the newest one: nothing of the opportunity is newer, and it is one of them. */
  lemma {:induction false} LatestActivityIsNewest(activities: seq<Activity>, id: string)
    ensures LatestActivity(activities, id).None? <==>
            forall i | 0 <= i < |activities| :: activities[i].opportunityId != id
    ensures forall i | 0 <= i < |activities| && activities[i].opportunityId == id ::
              activities[i].createdAt <= LatestActivity(activities, id).value.createdAt
    ensures LatestActivity(activities, id).Some? ==>
              LatestActivity(activities, id).value in activities
              && LatestActivity(activities, id).value.opportunityId == id
  {
    if activities != [] {
      var front := activities[..|activities| - 1];
      LatestActivityIsNewest(front, id);
      assert activities == front + [activities[|activities| - 1]];
    }
  }
}

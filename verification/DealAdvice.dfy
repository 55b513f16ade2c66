/** What the next best action of an opportunity is, told from the stored records. */
module DealAdvice {
  import opened Text
  import opened NumericEvidence
  import opened DecimalValue
  import opened DecimalExact
  import opened Deals
  import Digits

  /** A text that says something: neither blank nor the word unknown. */
  predicate Says(text: Option<string>) {
    text.Some? && Trim(text.value) != "" && ToLower(Trim(text.value)) != "unknown"
  }

  /** A text that names a contact; a single letter does not. */
  predicate NamesContact(text: Option<string>) {
    Says(text) && |Trim(text.value)| > 1
  }

  /** The prospect an opportunity refers to is the first stored one of that id. */
  predicate IsProspectOf(o: Opportunity, prospects: seq<Prospect>, k: nat) {
    && k < |prospects| && o.prospectId == Some(prospects[k].id)
    && forall j | 0 <= j < k :: prospects[j].id != prospects[k].id
  }

  predicate HasContactText(o: Opportunity, prospects: seq<Prospect>) {
    || (exists c | c in o.contacts :: NamesContact(c))
    || (exists k | 0 <= k < |prospects| :: IsProspectOf(o, prospects, k)
          && exists c | c in prospects[k].contacts :: NamesContact(c))
  }

  /** An activity of the opportunity less than so many milliseconds old, or exactly so old. */
  predicate HasActivityWithin(o: Opportunity, activities: seq<Activity>, now: int, age: int) {
    exists v | v in activities :: v.opportunityId == o.id && now - v.createdAt <= age
  }

  predicate HasActivity(o: Opportunity, activities: seq<Activity>) {
    exists v | v in activities :: v.opportunityId == o.id
  }

  /** The recorded value is missing, blank, zero or negative; a text that is no number is none of these. */
  ghost predicate LacksValue(value: Amount) {
    match value
    case NoAmount => true
    case NumberAmount(text) => IsDecimalNumberLiteral(text) && Value(text) <= 0.0
    case TextAmount(text) =>
      || Trim(text) in {"", "-Infinity"}
      || (IsDecimalNumberLiteral(text) && Value(text) <= 0.0)
  }

  // ------------------------------------------------------------------ the parts of the advice

  lemma {:induction false} FirstContactExactly(values: seq<Option<string>>)
    ensures FirstContact(values).Some? <==> exists c | c in values :: NamesContact(c)
  {
    if values != [] {
      FirstContactExactly(values[1..]);
      ContactExactly(values[0]);
      assert values == [values[0]] + values[1..];
    }
  }

  lemma ContactExactly(c: Option<string>)
    ensures HasContact(c) <==> NamesContact(c)
    ensures HasValue(c) <==> Says(c)
  {
    hide Trim;
  }

  lemma {:induction false} ProspectExactly(prospects: seq<Prospect>, id: Option<string>)
    ensures FindProspect(prospects, id).None? <==>
            id.None? || forall k | 0 <= k < |prospects| :: prospects[k].id != id.value
    ensures forall k | 0 <= k < |prospects| && id == Some(prospects[k].id)
                       && (forall j | 0 <= j < k :: prospects[j].id != prospects[k].id) ::
              FindProspect(prospects, id) == Some(prospects[k])
    ensures FindProspect(prospects, id).Some? ==>
              exists k | 0 <= k < |prospects| :: id == Some(prospects[k].id)
                && FindProspect(prospects, id) == Some(prospects[k])
                && forall j | 0 <= j < k :: prospects[j].id != prospects[k].id
  {
    if prospects != [] && id.Some? {
      var rest := prospects[1..];
      ProspectExactly(rest, id);
      assert forall k | 0 <= k < |rest| :: rest[k] == prospects[k + 1];
      if prospects[0].id != id.value {
        forall k | 0 <= k < |prospects| && id == Some(prospects[k].id)
                   && (forall j | 0 <= j < k :: prospects[j].id != prospects[k].id)
          ensures FindProspect(prospects, id) == Some(prospects[k])
        {
          assert rest[k - 1] == prospects[k];
        }
        if FindProspect(prospects, id).Some? {
          var k :| 0 <= k < |rest| && id == Some(rest[k].id) && FindProspect(rest, id) == Some(rest[k])
            && forall j | 0 <= j < k :: rest[j].id != rest[k].id;
          assert prospects[k + 1] == rest[k];
          forall j | 0 <= j < k + 1 ensures prospects[j].id != prospects[k + 1].id {
            if j > 0 { assert rest[j - 1] == prospects[j]; }
          }
        }
      }
    }
  }

  lemma ContactIsFound(o: Opportunity, prospects: seq<Prospect>)
    ensures ContactName(o, FindProspect(prospects, o.prospectId)).Some? <==> HasContactText(o, prospects)
  {
    hide NamesContact, FindProspect, FirstContact;
    var p := FindProspect(prospects, o.prospectId);
    ProspectExactly(prospects, o.prospectId);
    var texts := o.contacts + if p.Some? then p.value.contacts else [];
    FirstContactExactly(texts);
    if p.Some? {
      var k :| 0 <= k < |prospects| && o.prospectId == Some(prospects[k].id) && p == Some(prospects[k])
        && forall j | 0 <= j < k :: prospects[j].id != prospects[k].id;
      assert IsProspectOf(o, prospects, k);
    }
    forall c ensures c in texts <==> c in o.contacts || (p.Some? && c in p.value.contacts) {
    }
  }

  lemma ValueExactly(value: Amount)
    ensures IsNotPositive(value) <==> LacksValue(value)
  {
    hide IsDecimalNumberLiteral, Value, IsExactZeroLiteral, IsNegativeNumberLiteral, Trim;
    if !value.NoAmount? { ZeroAndSignAreExact(value.text); }
  }

  lemma AgeExactly(o: Opportunity, activities: seq<Activity>, now: int, days: nat)
    ensures var age := Age(LatestActivity(activities, o.id), now);
            && (age.None? <==> !HasActivity(o, activities))
            && (age.None? || age.value > days <==> !HasActivityWithin(o, activities, now, days))
  {
    hide LatestActivity;
    LatestActivityIsNewest(activities, o.id);
    forall v | v in activities ensures exists i | 0 <= i < |activities| :: activities[i] == v {
    }
  }

  // ------------------------------------------------------------------ main results

  const WEEK: nat := 7 * 86_400_000

  /** The action type and the priority of the next best action, without its texts. */
  function KindOfAdvice(planned: bool, contact: bool, age: Option<nat>, lacksValue: bool): (ActionType, Priority) {
    if !planned then (CREATE_TASK, HIGH)
    else if !contact then (RESEARCH, HIGH)
    else if age.None? || age.value > 7 * 86_400_000 then
      (FOLLOW_UP, if age.Some? && age.value > 14 * 86_400_000 then HIGH else MEDIUM)
    else if lacksValue then (QUALIFY, MEDIUM)
    else (ADVANCE, MEDIUM)
  }

  lemma ActionExactly(o: Opportunity, business: Option<string>, contact: Option<string>, age: Option<nat>)
    ensures var r := NextBestAction(o, business, contact, age);
            (r.actionType, r.priority)
            == KindOfAdvice(HasValue(o.nextAction), contact.Some?, age, IsNotPositive(o.value))
  {
    hide HasValue, IsNotPositive, RoundedDays, TextOr, Digits.TextOf;
  }

  lemma BasisAdvises(o: Opportunity, prospects: seq<Prospect>, activities: seq<Activity>, now: int)
    ensures var p := FindProspect(prospects, o.prospectId);
            BasisOf(o, prospects, activities, now).recommendation ==
            NextBestAction(o, BusinessName(o, p), ContactName(o, p), Age(LatestActivity(activities, o.id), now))
  {
    hide NextBestAction, LatestActivity, FindProspect, BusinessName, ContactName, Age;
  }

  /**
   * The advice, told from the records: without a recorded next action to define one; then without a contact to find
   * one; then without an activity of the last seven days to follow up; then without a positive value to confirm it;
   * and else to go ahead. Urgent are the first two, and a follow-up whose last activity is more than two weeks old.
   */
  lemma AdvisedExactlyWhen(o: Opportunity, prospects: seq<Prospect>, activities: seq<Activity>, now: int)
    ensures var r := BasisOf(o, prospects, activities, now).recommendation;
            var planned, contact := Says(o.nextAction), HasContactText(o, prospects);
            var recent := HasActivityWithin(o, activities, now, WEEK);
            && (r.actionType == CREATE_TASK <==> !planned)
            && (r.actionType == RESEARCH <==> planned && !contact)
            && (r.actionType == FOLLOW_UP <==> planned && contact && !recent)
            && (r.actionType == QUALIFY <==> planned && contact && recent && LacksValue(o.value))
            && (r.actionType == ADVANCE <==> planned && contact && recent && !LacksValue(o.value))
            && r.priority == if !planned || !contact
                                || (!recent && HasActivity(o, activities)
                                    && !HasActivityWithin(o, activities, now, 2 * WEEK))
                             then HIGH else MEDIUM
  {
    hide Says, HasValue, HasContactText, HasActivityWithin, HasActivity, LacksValue, IsNotPositive, LatestActivity,
      FindProspect, ContactName, AmountFacts, BusinessName, NextBestAction, BasisOf, Age;
    var p := FindProspect(prospects, o.prospectId);
    BasisAdvises(o, prospects, activities, now);
    ActionExactly(o, BusinessName(o, p), ContactName(o, p), Age(LatestActivity(activities, o.id), now));
    ContactExactly(o.nextAction);
    ContactIsFound(o, prospects);
    ValueExactly(o.value);
    AgeExactly(o, activities, now, WEEK);
    AgeExactly(o, activities, now, 2 * WEEK);
  }

  /** Days are rounded to the nearest, halves up. */
  lemma DaysAreNearest(age: nat, days: nat)
    ensures RoundedDays(age) == days <==> 2 * age - 86_400_000 < 2 * days * 86_400_000 <= 2 * age + 86_400_000
  {
  }

  /** An amount is a fact when it is an exact positive decimal that the database can hold. */
  ghost predicate IsPositiveAmount(value: Amount) {
    !value.NoAmount? && CanonicalDecimalUnits(value.text).Some? && Value(value.text) > 0.0
  }

  /** r is the first text of the list that says something, or none if none does. */
  predicate IsFirstSaying(values: seq<Option<string>>, r: Option<string>) {
    if r.None? then forall v | v in values :: !Says(v)
    else
      exists i | 0 <= i < |values| ::
        values[i] == r && Says(r) && forall j | 0 <= j < i :: !Says(values[j])
  }

  lemma {:induction false} FirstValueIsFirst(values: seq<Option<string>>)
    ensures IsFirstSaying(values, FirstValue(values))
  {
    if values != [] {
      ContactExactly(values[0]);
      var rest, r := values[1..], FirstValue(values);
      FirstValueIsFirst(rest);
      assert values == [values[0]] + rest;
      if !Says(values[0]) && r.Some? {
        var i :| 0 <= i < |rest| && rest[i] == r && Says(r) && forall j | 0 <= j < i :: !Says(rest[j]);
        assert values[i + 1] == r;
        forall j | 0 <= j < i + 1 ensures !Says(values[j]) {
          if j > 0 { assert values[j] == rest[j - 1]; }
        }
      }
    }
  }

  /** Names are looked for in the opportunity's own record first, and then in that of its prospect. */
  lemma NamesAreFirst(o: Opportunity, prospects: seq<Prospect>)
    ensures var p := FindProspect(prospects, o.prospectId);
            && (p.None? ==> IsFirstSaying(o.names, BusinessName(o, p)) && IsFirstSaying(o.services, Service(o, p))
                            && IsFirstSaying(o.locations, Location(o, p)))
            && (p.Some? ==>
                  && IsFirstSaying(o.names + p.value.names, BusinessName(o, p))
                  && IsFirstSaying(o.services + p.value.services, Service(o, p))
                  && IsFirstSaying(o.locations + p.value.locations, Location(o, p)))
  {
    hide FirstValue, FindProspect, IsFirstSaying;
    var p := FindProspect(prospects, o.prospectId);
    assert o.names + [] == o.names && o.services + [] == o.services && o.locations + [] == o.locations;
    FirstValueIsFirst(o.names + if p.Some? then p.value.names else []);
    FirstValueIsFirst(o.services + if p.Some? then p.value.services else []);
    FirstValueIsFirst(o.locations + if p.Some? then p.value.locations else []);
  }

  /** Two newest activities, if there are any, are told alike by id, kind and time. */
  predicate LookAlike(v: Option<Activity>, w: Option<Activity>) {
    && (v.Some? <==> w.Some?)
    && (v.Some? ==> v.value.id == w.value.id && v.value.kind == w.value.kind && v.value.createdAt == w.value.createdAt)
  }

  /** Recorded next actions read alike, white space aside; a blank one reads as none. */
  predicate RecordAlike(a: Option<string>, b: Option<string>) {
    if a.None? || Trim(a.value) == "" then b.None? || Trim(b.value) == ""
    else b.Some? && NormalizeText(b.value) == NormalizeText(a.value)
  }

  lemma RecordedExactly(text: Option<string>)
    ensures RecordedNextAction(text) ==
            if text.None? || Trim(text.value) == "" then None else Some(NormalizeText(text.value))
  {
    hide NormalizeText, Trim;
    if text.Some? { BlankNormalizes(text.value); }
  }

  /** The names that an opportunity takes from its own record or else from its prospect. */
  function NamesOf(o: Opportunity, p: Option<Prospect>): seq<Option<string>> {
    [BusinessName(o, p), ContactName(o, p), Service(o, p), Location(o, p)]
  }

  /**
   * What the fingerprint notices: equal bases mean the same advice, stage, recorded next action, currency, newest
   * activity, positive amount, and the same names of business, contact, service and location.
   */
  lemma BasesTellFactsApart(o: Opportunity, prospects: seq<Prospect>, activities: seq<Activity>, now: int,
                            p: Opportunity, others: seq<Prospect>, more: seq<Activity>, later: int)
    requires BasisOf(o, prospects, activities, now) == BasisOf(p, others, more, later)
    ensures p.id == o.id && p.stage == o.stage && p.currency == o.currency
    ensures RecordAlike(o.nextAction, p.nextAction)
    ensures IsPositiveAmount(o.value) || IsPositiveAmount(p.value) ==> p.value == o.value
    ensures LookAlike(LatestActivity(activities, o.id), LatestActivity(more, p.id))
    ensures NamesOf(o, FindProspect(prospects, o.prospectId)) == NamesOf(p, FindProspect(others, p.prospectId))
  {
    hide LatestActivity, FindProspect, BusinessName, ContactName, Service, Location, NextBestAction, Value,
      CanonicalDecimalUnits, RecordedNextAction, NormalizeText, Trim;
    AmountExactly(o.value);
    AmountExactly(p.value);
    RecordedExactly(o.nextAction);
    RecordedExactly(p.nextAction);
    if o.nextAction.Some? { BlankNormalizes(o.nextAction.value); }
    if p.nextAction.Some? { BlankNormalizes(p.nextAction.value); }
  }

  lemma AmountExactly(value: Amount)
    ensures AmountFacts(value) == if IsPositiveAmount(value) then value else NoAmount
  {
    hide Value, CanonicalDecimalUnits;
    if !value.NoAmount? && CanonicalDecimalUnits(value.text).Some? {
      UnitsAreExact(value.text, CanonicalDecimalUnits(value.text).value);
    }
  }
}

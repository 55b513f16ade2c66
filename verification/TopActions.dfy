/** The order of the top actions over all opportunities. */
module TopActions {
  import opened Text
  import opened Sorting
  import opened NumericEvidence
  import opened DecimalValue
  import opened DecimalExact

  /** What the comparator looks at; a known amount is a positive exact decimal. */
  datatype TopAction = TopAction(
    opportunityId: string, priority: string, classification: Option<string>, staleRisk: real,
    known: bool, amount: string, currency: Option<string>, probability: real, actionType: string)

  function PriorityRank(p: string): nat {
    if p == "HIGH" then 0 else if p == "MEDIUM" then 1 else if p == "LOW" then 2 else 99
  }

  function ClassificationRank(c: Option<string>): nat {
    if c.None? then 99
    else if c.value == "NO_NEXT_ACTION" then 0
    else if c.value == "STALE" then 1
    else if c.value == "AT_RISK" then 2
    else if c.value == "VALUE_UNKNOWN" then 3
    else if c.value == "STRONG" then 4
    else 99
  }

  function TypeRank(t: string): nat {
    if t == "CREATE_TASK" then 0
    else if t == "RESEARCH" then 1
    else if t == "FOLLOW_UP" then 2
    else if t == "QUALIFY" then 3
    else if t == "ADVANCE" then 4
    else if t == "REVIEW" then 5
    else 99
  }

  predicate IsWellFormed(a: TopAction) {
    a.known ==> CanonicalDecimalUnits(a.amount).Some? && CanonicalDecimalUnits(a.amount).value > 0
  }

  function UnitsOf(a: TopAction): int {
    if CanonicalDecimalUnits(a.amount).Some? then CanonicalDecimalUnits(a.amount).value else 0
  }

  /** The sign of a difference. */
  function Sign(x: real): int {
    if x < 0.0 then -1 else if x > 0.0 then 1 else 0
  }

  /** The part of compareTopActions that looks at money; zero where it does not decide. */
  function CompareMoney(left: TopAction, right: TopAction): int
    requires IsWellFormed(left) && IsWellFormed(right)
  {
    if left.known != right.known then if left.known then -1 else 1
    else if !left.known then 0
    else if left.currency != right.currency then
      if left.currency.None? then 1
      else if right.currency.None? then -1
      else CompareTexts(left.currency.value, right.currency.value)
    else if left.currency.None? then 0
    else CompareCanonicalDecimals(right.amount, left.amount).value
  }

  /** compareTopActions */
  function CompareTopActions(left: TopAction, right: TopAction): int
    requires IsWellFormed(left) && IsWellFormed(right)
  {
    var priority := PriorityRank(left.priority) - PriorityRank(right.priority);
    var classification := ClassificationRank(left.classification) - ClassificationRank(right.classification);
    var money := CompareMoney(left, right);
    var kind := TypeRank(left.actionType) - TypeRank(right.actionType);
    if priority != 0 then priority
    else if classification != 0 then classification
    else if left.staleRisk != right.staleRisk then Sign(right.staleRisk - left.staleRisk)
    else if money != 0 then money
    else if left.probability != right.probability then Sign(right.probability - left.probability)
    else if kind != 0 then kind
    else CompareTexts(left.opportunityId, right.opportunityId)
  }

  predicate Precedes(left: TopAction, right: TopAction) {
    IsWellFormed(left) && IsWellFormed(right) && CompareTopActions(left, right) < 0
  }

  function ActionOrder(): (TopAction, TopAction) -> bool {
    (left: TopAction, right: TopAction) => Precedes(left, right)
  }

  /** buildRevenueIntelligence keeps the first five. */
  function TopFive(actions: seq<TopAction>): seq<TopAction> {
    var sorted := SortBy(actions, ActionOrder());
    if |sorted| <= 5 then sorted else sorted[..5]
  }

  // ------------------------------------------------------------------ the order it defines

  /** Swapping the sides swaps the verdict of the money factor. */
  lemma MoneyIsAntisymmetric(a: TopAction, b: TopAction)
    requires IsWellFormed(a) && IsWellFormed(b)
    ensures CompareMoney(a, b) == -CompareMoney(b, a)
  {
    hide Before, CanonicalDecimalUnits, CompareTexts;
    if a.currency.Some? && b.currency.Some? { TextsCompare(a.currency.value, b.currency.value); }
  }

  /** The money factor is a preorder: it chains, and strictly so if one link is strict. */
  lemma MoneyChains(a: TopAction, b: TopAction, c: TopAction)
    requires IsWellFormed(a) && IsWellFormed(b) && IsWellFormed(c)
    requires CompareMoney(a, b) <= 0 && CompareMoney(b, c) <= 0
    ensures CompareMoney(a, c) <= 0
    ensures CompareMoney(a, b) < 0 || CompareMoney(b, c) < 0 ==> CompareMoney(a, c) < 0
  {
    hide Before, CanonicalDecimalUnits, CompareTexts;
    if a.currency.Some? && b.currency.Some? && c.currency.Some? {
      TextsCompare(a.currency.value, b.currency.value);
      TextsCompare(b.currency.value, c.currency.value);
      TextsCompare(a.currency.value, c.currency.value);
      TextsChain(a.currency.value, b.currency.value, c.currency.value);
    }
  }

  lemma ComparatorIsAntisymmetric(a: TopAction, b: TopAction)
    requires IsWellFormed(a) && IsWellFormed(b)
    ensures CompareTopActions(a, b) == -CompareTopActions(b, a)
    ensures CompareTopActions(a, b) == 0 ==> a.opportunityId == b.opportunityId
  {
    hide CompareMoney, CompareTexts, PriorityRank, ClassificationRank, TypeRank, IsWellFormed;
    MoneyIsAntisymmetric(a, b);
    TextsCompare(a.opportunityId, b.opportunityId);
  }

  /** The factors after money. */
  function CompareRest(left: TopAction, right: TopAction): int {
    var kind := TypeRank(left.actionType) - TypeRank(right.actionType);
    if left.probability != right.probability then Sign(right.probability - left.probability)
    else if kind != 0 then kind
    else CompareTexts(left.opportunityId, right.opportunityId)
  }

  lemma RestChains(a: TopAction, b: TopAction, c: TopAction)
    requires CompareRest(a, b) < 0 && CompareRest(b, c) < 0
    ensures CompareRest(a, c) < 0
  {
    hide CompareTexts, TypeRank;
    TextsChain(a.opportunityId, b.opportunityId, c.opportunityId);
  }

  lemma ComparatorChains(a: TopAction, b: TopAction, c: TopAction)
    requires IsWellFormed(a) && IsWellFormed(b) && IsWellFormed(c)
    requires CompareTopActions(a, b) < 0 && CompareTopActions(b, c) < 0
    ensures CompareTopActions(a, c) < 0
  {
    hide CompareMoney, CompareRest, PriorityRank, ClassificationRank, IsWellFormed;
    RestIsTail(a, b);
    RestIsTail(b, c);
    RestIsTail(a, c);
    if CompareMoney(a, b) <= 0 && CompareMoney(b, c) <= 0 { MoneyChains(a, b, c); }
    MoneyIsAntisymmetric(a, b);
    MoneyIsAntisymmetric(b, c);
    if CompareRest(a, b) < 0 && CompareRest(b, c) < 0 { RestChains(a, b, c); }
  }

  lemma RestIsTail(a: TopAction, b: TopAction)
    requires IsWellFormed(a) && IsWellFormed(b)
    ensures CompareTopActions(a, b) ==
            var priority := PriorityRank(a.priority) - PriorityRank(b.priority);
            var classification := ClassificationRank(a.classification) - ClassificationRank(b.classification);
            if priority != 0 then priority
            else if classification != 0 then classification
            else if a.staleRisk != b.staleRisk then Sign(b.staleRisk - a.staleRisk)
            else if CompareMoney(a, b) != 0 then CompareMoney(a, b)
            else CompareRest(a, b)
  {
    hide CompareMoney, CompareTexts, PriorityRank, ClassificationRank, TypeRank, IsWellFormed;
  }

  // ------------------------------------------------------------------ the documented factors

  const PRIORITIES := ["HIGH", "MEDIUM", "LOW"]

  const CLASSIFICATIONS := ["NO_NEXT_ACTION", "STALE", "AT_RISK", "VALUE_UNKNOWN", "STRONG"]

  const TYPES := ["CREATE_TASK", "RESEARCH", "FOLLOW_UP", "QUALIFY", "ADVANCE", "REVIEW"]

  /** x stands before y in the list, or only x stands in it. */
  predicate StandsBefore(list: seq<string>, x: string, y: string) {
    exists i | 0 <= i < |list| :: list[i] == x && y !in list[..i + 1]
  }

  predicate StandAlike(list: seq<string>, x: string, y: string) {
    x == y || (x !in list && y !in list)
  }

  function ClassificationText(a: TopAction): string {
    if a.classification.Some? then a.classification.value else ""
  }

  /** x is the element of the list at i, or none of it when i is its length. */
  predicate IsAt(list: seq<string>, x: string, i: nat) {
    i <= |list| && (if i < |list| then list[i] == x else x !in list)
  }

  predicate AreDifferent(list: seq<string>) {
    forall i, j | 0 <= i < j < |list| :: list[i] != list[j]
  }

  lemma StandsByPlace(list: seq<string>, x: string, y: string, i: nat, j: nat)
    requires AreDifferent(list) && IsAt(list, x, i) && IsAt(list, y, j)
    ensures StandsBefore(list, x, y) <==> i < j
    ensures StandAlike(list, x, y) <==> i == j
  {
    if i < j { assert list[i] == x && y !in list[..i + 1]; }
    if j <= i < |list| { assert y == list[..i + 1][j]; }
  }

  lemma PriorityIsAt(x: string)
    ensures AreDifferent(PRIORITIES) && PriorityRank(x) in {0, 1, 2, 99}
    ensures IsAt(PRIORITIES, x, if PriorityRank(x) == 99 then 3 else PriorityRank(x))
  {
    var l := PRIORITIES;
    assert l[0] == "HIGH" && l[1] == "MEDIUM" && l[2] == "LOW" && |l| == 3;
    assert l[0][0] == 'H' && l[1][0] == 'M' && l[2][0] == 'L';
  }

  lemma ClassificationIsAt(a: TopAction)
    ensures AreDifferent(CLASSIFICATIONS) && ClassificationRank(a.classification) in {0, 1, 2, 3, 4, 99}
    ensures var rank := ClassificationRank(a.classification);
            IsAt(CLASSIFICATIONS, ClassificationText(a), if rank == 99 then 5 else rank)
  {
    var l := CLASSIFICATIONS;
    assert l[0] == "NO_NEXT_ACTION" && l[1] == "STALE" && l[2] == "AT_RISK" && l[3] == "VALUE_UNKNOWN"
        && l[4] == "STRONG" && |l| == 5;
    assert l[0][0] == 'N' && l[1][2] == 'A' && l[2][0] == 'A' && l[3][0] == 'V' && l[4][2] == 'R' && l[1][0] == 'S'
        && l[4][0] == 'S';
  }

  lemma TypeIsAt(x: string)
    ensures AreDifferent(TYPES) && TypeRank(x) in {0, 1, 2, 3, 4, 5, 99}
    ensures IsAt(TYPES, x, if TypeRank(x) == 99 then 6 else TypeRank(x))
  {
    var l := TYPES;
    assert l[0] == "CREATE_TASK" && l[1] == "RESEARCH" && l[2] == "FOLLOW_UP" && l[3] == "QUALIFY"
        && l[4] == "ADVANCE" && l[5] == "REVIEW" && |l| == 6;
    assert l[0][0] == 'C' && l[1][2] == 'S' && l[2][0] == 'F' && l[3][0] == 'Q' && l[4][0] == 'A' && l[5][2] == 'V'
        && l[1][0] == 'R' && l[5][0] == 'R';
  }

  lemma PrioritiesRank(x: string, y: string)
    ensures PriorityRank(x) < PriorityRank(y) <==> StandsBefore(PRIORITIES, x, y)
    ensures PriorityRank(x) == PriorityRank(y) <==> StandAlike(PRIORITIES, x, y)
  {
    hide PriorityRank, StandsBefore, StandAlike, IsAt, AreDifferent;
    PriorityIsAt(x);
    PriorityIsAt(y);
    StandsByPlace(PRIORITIES, x, y, if PriorityRank(x) == 99 then 3 else PriorityRank(x),
      if PriorityRank(y) == 99 then 3 else PriorityRank(y));
  }

  lemma ClassificationsRank(a: TopAction, b: TopAction)
    ensures ClassificationRank(a.classification) < ClassificationRank(b.classification) <==>
            StandsBefore(CLASSIFICATIONS, ClassificationText(a), ClassificationText(b))
    ensures ClassificationRank(a.classification) == ClassificationRank(b.classification) <==>
            StandAlike(CLASSIFICATIONS, ClassificationText(a), ClassificationText(b))
  {
    hide ClassificationRank, ClassificationText, StandsBefore, StandAlike, IsAt, AreDifferent;
    ClassificationIsAt(a);
    ClassificationIsAt(b);
    var i, j := ClassificationRank(a.classification), ClassificationRank(b.classification);
    StandsByPlace(CLASSIFICATIONS, ClassificationText(a), ClassificationText(b), if i == 99 then 5 else i,
      if j == 99 then 5 else j);
  }

  lemma TypesRank(x: string, y: string)
    ensures TypeRank(x) < TypeRank(y) <==> StandsBefore(TYPES, x, y)
    ensures TypeRank(x) == TypeRank(y) <==> StandAlike(TYPES, x, y)
  {
    hide TypeRank, StandsBefore, StandAlike, IsAt, AreDifferent;
    TypeIsAt(x);
    TypeIsAt(y);
    StandsByPlace(TYPES, x, y, if TypeRank(x) == 99 then 6 else TypeRank(x),
      if TypeRank(y) == 99 then 6 else TypeRank(y));
  }

  predicate AreDecimals(a: TopAction, b: TopAction) {
    IsDecimalNumberLiteral(a.amount) && IsDecimalNumberLiteral(b.amount)
  }

  /** Known before unknown; a currency before none, then by its text; and within a currency the larger value. */
  ghost predicate HasMoreMoney(a: TopAction, b: TopAction) {
    a.known
    && (|| !b.known
        || (a.currency.Some? && b.currency.None?)
        || (a.currency.Some? && b.currency.Some? && Before(a.currency.value, b.currency.value))
        || (a.currency.Some? && a.currency == b.currency && AreDecimals(a, b) && Value(a.amount) > Value(b.amount)))
  }

  ghost predicate HasSameMoney(a: TopAction, b: TopAction) {
    a.known == b.known
    && (a.known ==>
          && a.currency == b.currency
          && (a.currency.Some? ==> AreDecimals(a, b) && Value(a.amount) == Value(b.amount)))
  }

  /** The documented factors, read as one lexicographic order. */
  ghost predicate ByFactors(a: TopAction, b: TopAction) {
    || StandsBefore(PRIORITIES, a.priority, b.priority)
    || (StandAlike(PRIORITIES, a.priority, b.priority) && ByClassification(a, b))
  }

  ghost predicate ByClassification(a: TopAction, b: TopAction) {
    || StandsBefore(CLASSIFICATIONS, ClassificationText(a), ClassificationText(b))
    || (StandAlike(CLASSIFICATIONS, ClassificationText(a), ClassificationText(b)) && ByRisk(a, b))
  }

  ghost predicate ByRisk(a: TopAction, b: TopAction) {
    || a.staleRisk > b.staleRisk
    || (a.staleRisk == b.staleRisk && (HasMoreMoney(a, b) || (HasSameMoney(a, b) && ByProbability(a, b))))
  }

  predicate ByProbability(a: TopAction, b: TopAction) {
    || a.probability > b.probability
    || (a.probability == b.probability
        && (|| StandsBefore(TYPES, a.actionType, b.actionType)
            || (StandAlike(TYPES, a.actionType, b.actionType) && Before(a.opportunityId, b.opportunityId))))
  }

  /** The comparator decides exactly by the documented factors. */
  lemma ComparatorIsFactors(a: TopAction, b: TopAction)
    requires IsWellFormed(a) && IsWellFormed(b)
    ensures CompareTopActions(a, b) < 0 <==> ByFactors(a, b)
  {
    hide CompareMoney, CompareTexts, PriorityRank, ClassificationRank, TypeRank, IsWellFormed, StandsBefore, StandAlike,
      HasMoreMoney, HasSameMoney, Before, ClassificationText;
    PrioritiesRank(a.priority, b.priority);
    ClassificationsRank(a, b);
    TypesRank(a.actionType, b.actionType);
    MoneyDecides(a, b);
    TextsCompare(a.opportunityId, b.opportunityId);
  }

  lemma MoneyDecides(a: TopAction, b: TopAction)
    requires IsWellFormed(a) && IsWellFormed(b)
    ensures CompareMoney(a, b) < 0 <==> HasMoreMoney(a, b)
    ensures CompareMoney(a, b) == 0 <==> HasSameMoney(a, b)
  {
    hide CanonicalDecimalUnits, Value, IsDecimalNumberLiteral, Before, CompareTexts, CompareCanonicalDecimals,
      IsCanonicalNumericLiteralRepresentable;
    if a.known && b.known && a.currency.Some? && b.currency.Some? {
      TextsCompare(a.currency.value, b.currency.value);
      RepresentableUnits(a.amount);
      RepresentableUnits(b.amount);
      ComparisonIsTheOrder(b.amount, a.amount);
    }
  }

  function IdOf(): TopAction -> string {
    (a: TopAction) => a.opportunityId
  }

  /** On actions of different opportunities the comparator is a strict total order. */
  lemma ActionOrderIsStrict(actions: seq<TopAction>)
    requires (forall a | a in actions :: IsWellFormed(a)) && HasDistinctKeys(actions, IdOf())
    ensures IsStrictOrderOn(ActionOrder(), actions)
  {
    hide CompareTopActions, IsWellFormed, HasDistinctKeys;
    var less := ActionOrder();
    forall x, y | x in actions && y in actions ensures x == y || less(x, y) || less(y, x) {
      ComparatorIsAntisymmetric(x, y);
      if x.opportunityId == y.opportunityId { SameIdSameAction(actions, x, y); }
    }
    forall x, y | x in actions && y in actions && less(x, y) ensures !less(y, x) {
      ComparatorIsAntisymmetric(x, y);
    }
    forall x, y, z | x in actions && y in actions && z in actions && less(x, y) && less(y, z) ensures less(x, z) {
      ComparatorChains(x, y, z);
    }
  }

  lemma SameIdSameAction(actions: seq<TopAction>, x: TopAction, y: TopAction)
    requires HasDistinctKeys(actions, IdOf()) && x in actions && y in actions && x.opportunityId == y.opportunityId
    ensures x == y
  {
    var i :| 0 <= i < |actions| && actions[i] == x;
    var j :| 0 <= j < |actions| && actions[j] == y;
  }

  lemma DistinctActions(actions: seq<TopAction>)
    requires HasDistinctKeys(actions, IdOf())
    ensures HasNoDuplicates(actions)
  {
  }

  /** Amounts in different currencies never decide: replacing them changes nothing. */
  lemma CurrenciesAreNotCompared(a: TopAction, b: TopAction, x: string, y: string)
    requires IsWellFormed(a) && IsWellFormed(b) && IsWellFormed(a.(amount := x)) && IsWellFormed(b.(amount := y))
    requires a.known && b.known && a.currency != b.currency
    ensures CompareTopActions(a.(amount := x), b.(amount := y)) == CompareTopActions(a, b)
  {
    hide Before, CanonicalDecimalUnits, CompareTexts, PriorityRank, ClassificationRank, TypeRank;
  }

  /** Within a currency the larger value comes first, and a known value before an unknown one. */
  lemma LargerAmountFirst(a: TopAction, b: TopAction)
    requires IsWellFormed(a) && IsWellFormed(b) && a.known
    requires a.priority == b.priority && a.classification == b.classification && a.staleRisk == b.staleRisk
    ensures !b.known ==> Precedes(a, b)
    ensures IsDecimalNumberLiteral(a.amount) && (b.known ==> IsDecimalNumberLiteral(b.amount))
    ensures b.known && a.currency.Some? && a.currency == b.currency && Value(a.amount) > Value(b.amount)
            ==> Precedes(a, b)
  {
    hide CanonicalDecimalUnits, Value, IsDecimalNumberLiteral, Before;
    UnitsAreExact(a.amount, UnitsOf(a));
    if b.known {
      UnitsAreExact(b.amount, UnitsOf(b));
      RepresentableUnits(a.amount);
      RepresentableUnits(b.amount);
      ComparisonIsTheOrder(b.amount, a.amount);
    }
  }

  lemma RepresentableUnits(amount: string)
    ensures CanonicalDecimalUnits(amount).Some? ==> IsCanonicalNumericLiteralRepresentable(amount)
  {
  }

  /** The five kept are the first of the order: nothing left out precedes one of them. */
  lemma TopFiveAreFirst(actions: seq<TopAction>)
    requires (forall a | a in actions :: IsWellFormed(a)) && HasDistinctKeys(actions, IdOf())
    ensures var top := TopFive(actions);
            && |top| == (if |actions| < 5 then |actions| else 5)
            && (forall i, j | 0 <= i < j < |top| :: Precedes(top[i], top[j]))
            && (forall a | a in actions && a !in top :: forall i | 0 <= i < |top| :: Precedes(top[i], a))
            && (forall a | a in top :: a in actions)
  {
    hide CompareTopActions, IsWellFormed, HasDistinctKeys, IsStrictOrderOn;
    ActionOrderIsStrict(actions);
    DistinctActions(actions);
    SortIsSorted(actions, ActionOrder());
    SortIsPermutation(actions, ActionOrder());
    var sorted := SortBy(actions, ActionOrder());
    SameMembers(sorted, actions);
    var top := TopFive(actions);
    forall i, j | 0 <= i < j < |sorted| ensures Precedes(sorted[i], sorted[j]) {
      assert ActionOrder()(sorted[i], sorted[j]);
    }
    forall a, i | a in actions && a !in top && 0 <= i < |top| ensures Precedes(top[i], a) {
      var k :| 0 <= k < |sorted| && sorted[k] == a;
      assert k >= |top|;
    }
  }
}

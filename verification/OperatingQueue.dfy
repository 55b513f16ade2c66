/** The operating queue of active leak cases: urgency and the order of its entries. */
module OperatingQueue {
  import opened Text
  import opened Sorting
  import opened NumericEvidence
  import opened DecimalValue
  import opened DecimalExact
  import opened DecimalPrinting
  import LC = LeakCases

  // ------------------------------------------------------------------ entries

  datatype Urgency = OVERDUE | SNOOZE_WAKE_DUE | OPEN_NO_OVERDUE_DEADLINE | SNOOZED_UNTIL_FUTURE

  datatype PotentialValueKind = KNOWN_POSITIVE | KNOWN_ZERO | UNKNOWN_VALUE | NOT_APPLICABLE

  datatype Entry = Entry(
    id: string, urgency: Urgency, basis: Option<int>, kind: PotentialValueKind,
    amount: Option<string>, currency: Option<string>, age: int)

  function UrgencyTier(u: Urgency): nat {
    match u
    case OVERDUE => 0
    case SNOOZE_WAKE_DUE => 1
    case OPEN_NO_OVERDUE_DEADLINE => 2
    case SNOOZED_UNTIL_FUTURE => 3
  }

  function ValueTier(k: PotentialValueKind): nat {
    match k
    case KNOWN_POSITIVE => 0
    case KNOWN_ZERO => 1
    case UNKNOWN_VALUE => 2
    case NOT_APPLICABLE => 3
  }

  /** deriveUrgency with its basis timestamp. */
  function DeriveUrgency(dueAt: Option<int>, state: LC.CaseState, snoozedUntil: Option<int>, now: int)
    : (Urgency, Option<int>)
  {
    if dueAt.Some? && dueAt.value <= now then (OVERDUE, dueAt)
    else if state == LC.SNOOZED && snoozedUntil.Some? then
      (if snoozedUntil.value <= now then SNOOZE_WAKE_DUE else SNOOZED_UNTIL_FUTURE, snoozedUntil)
    else (OPEN_NO_OVERDUE_DEADLINE, dueAt)
  }

  function KindOf(v: LC.CommercialValue): PotentialValueKind {
    if v.classification == "KNOWN" then if v.amount == Some("0") then KNOWN_ZERO else KNOWN_POSITIVE
    else if v.classification == "UNKNOWN" then UNKNOWN_VALUE else NOT_APPLICABLE
  }

  /** The ordering part of buildEntry, None when the case may not be shown. */
  function BuildEntry(r: LC.Record, now: int): Option<Entry> {
    var v := LC.NormalizeCommercialValue(r.content.value);
    if !LC.IsActive(r.life.state) || r.content.detectedAt > now || v.None? then None
    else
      var (urgency, basis) := DeriveUrgency(r.content.dueAt, r.life.state, r.life.snoozedUntil, now);
      Some(Entry(r.content.id, urgency, basis, KindOf(v.value), v.value.amount, v.value.currency,
        now - r.content.detectedAt))
  }

  /** A positive entry carries an amount in units and a currency. */
  predicate IsWellFormed(e: Entry) {
    e.kind == KNOWN_POSITIVE ==>
      && e.currency.Some? && e.amount.Some? && CanonicalDecimalUnits(e.amount.value).Some?
      && CanonicalDecimalUnits(e.amount.value).value > 0
  }

  /** KNOWN_ZERO is exactly the value zero, and KNOWN_POSITIVE exactly the positive ones. */
  lemma KindIsExact(v: LC.CommercialValue)
    requires LC.NormalizeCommercialValue(v) == Some(v) && v.classification == "KNOWN"
    ensures v.amount.Some? && IsDecimalNumberLiteral(v.amount.value)
    ensures KindOf(v) == KNOWN_ZERO <==> Value(v.amount.value) == 0.0
    ensures KindOf(v) == KNOWN_POSITIVE <==> Value(v.amount.value) > 0.0
  {
    hide Value, CanonicalizeDecimalLiteral, IsDecimalNumberLiteral, IsNegativeNumberLiteral,
      IsCanonicalNumericLiteralRepresentable, LC.NonEmpty, ToUpper, LC.IsLetters;
    var amount := v.amount.value;
    RepresentableIsCanonical(amount);
    CanonicalZero(amount);
    ZeroAndSignAreExact(amount);
  }

  /** The kind of an entry is that of its value, and only a known one is told apart by its amount. */
  lemma KindIsTold(v: LC.CommercialValue)
    requires LC.NormalizeCommercialValue(v) == Some(v)
    ensures v.classification in {"KNOWN", "UNKNOWN", "NOT_APPLICABLE"}
    ensures KindOf(v) == UNKNOWN_VALUE <==> v.classification == "UNKNOWN"
    ensures KindOf(v) == NOT_APPLICABLE <==> v.classification == "NOT_APPLICABLE"
    ensures KindOf(v) in {KNOWN_POSITIVE, KNOWN_ZERO} <==> v.classification == "KNOWN"
  {
    hide CanonicalizeDecimalLiteral, IsNegativeNumberLiteral, IsCanonicalNumericLiteralRepresentable, LC.NonEmpty,
      ToUpper, LC.IsLetters;
  }

  lemma RepresentableIsCanonical(literal: string)
    requires IsCanonicalNumericLiteralRepresentable(literal)
    ensures CanonicalizeDecimalLiteral(literal).Some?
  {
  }

  lemma EntryIsWellFormed(r: LC.Record, now: int)
    requires LC.NormalizeCommercialValue(r.content.value) == Some(r.content.value) && BuildEntry(r, now).Some?
    ensures IsWellFormed(BuildEntry(r, now).value)
  {
    hide Value, CanonicalizeDecimalLiteral, IsDecimalNumberLiteral, LC.NormalizeCommercialValue,
      CanonicalDecimalUnits, IsNegativeNumberLiteral, IsCanonicalNumericLiteralRepresentable,
      DecimalFromCanonicalUnits;
    var v := r.content.value;
    if KindOf(v) == KNOWN_POSITIVE {
      KindIsExact(v);
      KnownIsComplete(v);
      CanonicalIsPrintedUnits(v.amount.value);
      RepresentableIsCanonical(v.amount.value);
      var u := CanonicalDecimalUnits(v.amount.value).value;
      UnitsAreExact(v.amount.value, u);
      PositiveUnits(Value(v.amount.value), u);
    }
  }

  lemma PositiveUnits(x: real, u: int)
    requires x > 0.0 && x * 1000000.0 == u as real
    ensures u > 0
  {
  }

  lemma KnownIsComplete(v: LC.CommercialValue)
    requires LC.NormalizeCommercialValue(v) == Some(v) && v.classification == "KNOWN"
    ensures v.amount.Some? && v.currency.Some? && IsCanonicalNumericLiteralRepresentable(v.amount.value)
  {
    hide LC.NonEmpty, ToUpper, LC.IsLetters, CanonicalizeDecimalLiteral, IsCanonicalNumericLiteralRepresentable,
      IsNegativeNumberLiteral;
  }

  // ------------------------------------------------------------------ the comparator

  function UnitsOf(e: Entry): int {
    if e.amount.Some? && CanonicalDecimalUnits(e.amount.value).Some?
    then CanonicalDecimalUnits(e.amount.value).value else 0
  }

  function CurrencyOf(e: Entry): string {
    if e.currency.Some? then e.currency.value else ""
  }

  /** compareEntries: its sign is what sort looks at. */
  function CompareEntries(left: Entry, right: Entry): int
    requires IsWellFormed(left) && IsWellFormed(right)
  {
    if left.urgency != right.urgency then UrgencyTier(left.urgency) - UrgencyTier(right.urgency)
    else if left.kind != right.kind then ValueTier(left.kind) - ValueTier(right.kind)
    else
      var currency := CompareTexts(CurrencyOf(left), CurrencyOf(right));
      var amount := if left.kind == KNOWN_POSITIVE
                    then CompareCanonicalDecimals(right.amount.value, left.amount.value) else Some(0);
      if left.kind == KNOWN_POSITIVE && currency != 0 then currency
      else if left.kind == KNOWN_POSITIVE && amount.Some? && amount.value != 0 then amount.value
      else if left.age != right.age then right.age - left.age
      else CompareTexts(left.id, right.id)
  }

  predicate Precedes(left: Entry, right: Entry) {
    IsWellFormed(left) && IsWellFormed(right) && CompareEntries(left, right) < 0
  }

  function QueueOrder(): (Entry, Entry) -> bool {
    (left: Entry, right: Entry) => Precedes(left, right)
  }

  // ------------------------------------------------------------------ the order it defines

  /** The documented factors, read as one lexicographic order. */
  predicate ByFactors(a: Entry, b: Entry) {
    || UrgencyTier(a.urgency) < UrgencyTier(b.urgency)
    || (a.urgency == b.urgency &&
        (|| ValueTier(a.kind) < ValueTier(b.kind)
         || (a.kind == b.kind && ByMoney(a, b))))
  }

  /** Within a tier: currency and then the larger amount for positive values; then the older; then the id. */
  predicate ByMoney(a: Entry, b: Entry) {
    if a.kind != KNOWN_POSITIVE then ByAge(a, b)
    else
      || Before(CurrencyOf(a), CurrencyOf(b))
      || (CurrencyOf(a) == CurrencyOf(b) &&
          (UnitsOf(a) > UnitsOf(b) || (UnitsOf(a) == UnitsOf(b) && ByAge(a, b))))
  }

  predicate ByAge(a: Entry, b: Entry) {
    a.age > b.age || (a.age == b.age && Before(a.id, b.id))
  }

  /** The comparator decides exactly by the factors. */
  lemma ComparatorIsFactors(a: Entry, b: Entry)
    requires IsWellFormed(a) && IsWellFormed(b)
    ensures CompareEntries(a, b) < 0 <==> ByFactors(a, b)
  {
    hide Before, CanonicalDecimalUnits, CompareTexts;
    TextsCompare(CurrencyOf(a), CurrencyOf(b));
    TextsCompare(a.id, b.id);
    BeforeIrreflexive(CurrencyOf(a));
  }

  lemma BeforeIrreflexive(a: string)
    ensures !Before(a, a)
  {
    if Before(a, a) { BeforeAsymmetric(a, a); }
  }

  lemma ByAgeTotal(a: Entry, b: Entry)
    requires a.id != b.id
    ensures ByAge(a, b) || ByAge(b, a)
    ensures !(ByAge(a, b) && ByAge(b, a))
  {
    hide Before;
    BeforeTotal(a.id, b.id);
    if Before(a.id, b.id) { BeforeAsymmetric(a.id, b.id); }
  }

  lemma ByMoneyTotal(a: Entry, b: Entry)
    requires a.id != b.id && a.kind == b.kind
    ensures ByMoney(a, b) || ByMoney(b, a)
    ensures !(ByMoney(a, b) && ByMoney(b, a))
  {
    hide Before, ByAge, UnitsOf;
    ByAgeTotal(a, b);
    BeforeTotal(CurrencyOf(a), CurrencyOf(b));
    BeforeIrreflexive(CurrencyOf(a));
    if Before(CurrencyOf(a), CurrencyOf(b)) { BeforeAsymmetric(CurrencyOf(a), CurrencyOf(b)); }
  }

  lemma ByAgeTransitive(a: Entry, b: Entry, c: Entry)
    requires ByAge(a, b) && ByAge(b, c)
    ensures ByAge(a, c)
  {
    hide Before;
    if a.age == b.age && b.age == c.age { BeforeTransitive(a.id, b.id, c.id); }
  }

  lemma ByMoneyTransitive(a: Entry, b: Entry, c: Entry)
    requires ByMoney(a, b) && ByMoney(b, c) && a.kind == b.kind == c.kind
    ensures ByMoney(a, c)
  {
    hide Before, ByAge, UnitsOf;
    if ByAge(a, b) && ByAge(b, c) { ByAgeTransitive(a, b, c); }
    if Before(CurrencyOf(a), CurrencyOf(b)) && Before(CurrencyOf(b), CurrencyOf(c)) {
      BeforeTransitive(CurrencyOf(a), CurrencyOf(b), CurrencyOf(c));
    }
  }

  lemma FactorsAreTotal(a: Entry, b: Entry)
    requires a.id != b.id
    ensures ByFactors(a, b) || ByFactors(b, a)
    ensures !(ByFactors(a, b) && ByFactors(b, a))
  {
    hide ByMoney;
    if a.kind == b.kind { ByMoneyTotal(a, b); }
  }

  lemma FactorsAreTransitive(a: Entry, b: Entry, c: Entry)
    requires ByFactors(a, b) && ByFactors(b, c)
    ensures ByFactors(a, c)
  {
    hide ByMoney;
    if a.kind == b.kind == c.kind && ByMoney(a, b) && ByMoney(b, c) { ByMoneyTransitive(a, b, c); }
  }

  lemma FactorsAreIrreflexive(a: Entry)
    ensures !ByFactors(a, a)
  {
    hide Before, UnitsOf;
    BeforeIrreflexive(a.id);
    BeforeIrreflexive(CurrencyOf(a));
  }

  function IdOf(): Entry -> string {
    (e: Entry) => e.id
  }

  /** On entries with ids of their own the comparator is a strict total order. */
  lemma QueueOrderIsStrict(entries: seq<Entry>)
    requires (forall e | e in entries :: IsWellFormed(e)) && HasDistinctKeys(entries, IdOf())
    ensures IsStrictOrderOn(QueueOrder(), entries)
  {
    hide CompareEntries, ByFactors, IsWellFormed, HasDistinctKeys;
    var less := QueueOrder();
    forall x, y | x in entries && y in entries ensures less(x, y) <==> ByFactors(x, y) {
      ComparatorIsFactors(x, y);
    }
    forall x, y | x in entries && y in entries ensures x == y || less(x, y) || less(y, x) {
      if x != y {
        DistinctEntriesDistinctIds(entries, x, y);
        FactorsAreTotal(x, y);
      }
    }
    forall x, y | x in entries && y in entries && less(x, y) ensures !less(y, x) {
      if x == y { FactorsAreIrreflexive(x); } else {
        DistinctEntriesDistinctIds(entries, x, y);
        FactorsAreTotal(x, y);
      }
    }
    forall x, y, z | x in entries && y in entries && z in entries && less(x, y) && less(y, z) ensures less(x, z) {
      FactorsAreTransitive(x, y, z);
    }
  }

  lemma DistinctEntriesDistinctIds(entries: seq<Entry>, x: Entry, y: Entry)
    requires HasDistinctKeys(entries, IdOf()) && x in entries && y in entries && x != y
    ensures x.id != y.id
  {
    var i :| 0 <= i < |entries| && entries[i] == x;
    var j :| 0 <= j < |entries| && entries[j] == y;
  }

  // ------------------------------------------------------------------ what urgency means

  predicate IsOverdue(r: LC.Record, now: int) {
    r.content.dueAt.Some? && r.content.dueAt.value <= now
  }

  predicate IsAwake(r: LC.Record, now: int) {
    r.life.state == LC.SNOOZED && r.life.snoozedUntil.Some? && r.life.snoozedUntil.value <= now
  }

  predicate IsAsleep(r: LC.Record, now: int) {
    r.life.state == LC.SNOOZED && r.life.snoozedUntil.Some? && now < r.life.snoozedUntil.value
  }

  /** Overdue cases come first; of the others those whose snooze is over come first and sleeping ones last. */
  lemma UrgentCasesFirst(a: LC.Record, b: LC.Record, now: int)
    requires LC.NormalizeCommercialValue(a.content.value) == Some(a.content.value) && BuildEntry(a, now).Some?
    requires LC.NormalizeCommercialValue(b.content.value) == Some(b.content.value) && BuildEntry(b, now).Some?
    ensures var before := Precedes(BuildEntry(a, now).value, BuildEntry(b, now).value);
            && (IsOverdue(a, now) && !IsOverdue(b, now) ==> before)
            && (!IsOverdue(a, now) && !IsOverdue(b, now) ==>
                  && (IsAwake(a, now) && !IsAwake(b, now) ==> before)
                  && (!IsAsleep(a, now) && IsAsleep(b, now) ==> before))
  {
    hide LC.NormalizeCommercialValue, CanonicalDecimalUnits, IsWellFormed;
    EntryIsWellFormed(a, now);
    EntryIsWellFormed(b, now);
  }

  /**
   * Between cases of the same commercial value, both overdue, or neither of them overdue nor snoozed, the one detected
   * earlier comes first, and the smaller id decides between simultaneous ones.
   */
  lemma OlderFirst(a: LC.Record, b: LC.Record, now: int)
    requires LC.NormalizeCommercialValue(a.content.value) == Some(a.content.value) && BuildEntry(a, now).Some?
    requires BuildEntry(b, now).Some? && b.content.value == a.content.value
    requires IsOverdue(a, now) <==> IsOverdue(b, now)
    requires IsOverdue(a, now) || (a.life.state == LC.OPEN && b.life.state == LC.OPEN)
    ensures var before := Precedes(BuildEntry(a, now).value, BuildEntry(b, now).value);
            && (a.content.detectedAt < b.content.detectedAt ==> before)
            && (a.content.detectedAt == b.content.detectedAt && Before(a.content.id, b.content.id) ==> before)
            && (a.content.detectedAt > b.content.detectedAt ==> !before)
  {
    hide LC.NormalizeCommercialValue, CanonicalDecimalUnits, IsWellFormed, Before, CompareEntries, UnitsOf;
    EntryIsWellFormed(a, now);
    EntryIsWellFormed(b, now);
    var x, y := BuildEntry(a, now).value, BuildEntry(b, now).value;
    ComparatorIsFactors(x, y);
    BeforeIrreflexive(CurrencyOf(x));
    SameMoneySameUnits(x, y);
  }

  lemma SameMoneySameUnits(x: Entry, y: Entry)
    requires x.amount == y.amount && x.currency == y.currency
    ensures UnitsOf(x) == UnitsOf(y) && CurrencyOf(x) == CurrencyOf(y)
  {
  }

  /** A case may not be shown exactly when it is over, from the future, or of no usable value. */
  lemma ShownExactlyWhen(r: LC.Record, now: int)
    ensures BuildEntry(r, now).Some? <==>
            r.life.state in {LC.OPEN, LC.SNOOZED} && r.content.detectedAt <= now
            && LC.NormalizeCommercialValue(r.content.value).Some?
    ensures BuildEntry(r, now).Some? ==> BuildEntry(r, now).value.id == r.content.id
  {
    hide LC.NormalizeCommercialValue;
  }

  /** Amounts in different currencies never decide: replacing them changes nothing. */
  lemma CurrenciesAreNotCompared(a: Entry, b: Entry, x: string, y: string)
    requires IsWellFormed(a) && IsWellFormed(b)
    requires IsWellFormed(a.(amount := Some(x))) && IsWellFormed(b.(amount := Some(y)))
    requires a.kind == KNOWN_POSITIVE && b.kind == KNOWN_POSITIVE && a.currency != b.currency
    ensures CompareEntries(a.(amount := Some(x)), b.(amount := Some(y))) == CompareEntries(a, b)
  {
    hide Before, CanonicalDecimalUnits;
    TextsCompare(CurrencyOf(a), CurrencyOf(b));
  }

  /** Within a currency the larger value comes first. */
  lemma LargerAmountFirst(a: Entry, b: Entry)
    requires IsWellFormed(a) && IsWellFormed(b) && a.urgency == b.urgency && a.currency == b.currency
    requires a.kind == KNOWN_POSITIVE && b.kind == KNOWN_POSITIVE
    ensures IsDecimalNumberLiteral(a.amount.value) && IsDecimalNumberLiteral(b.amount.value)
    ensures Value(a.amount.value) > Value(b.amount.value) ==> Precedes(a, b)
  {
    hide Before, CanonicalDecimalUnits, Value, IsDecimalNumberLiteral, IsCanonicalNumericLiteralRepresentable,
      CompareCanonicalDecimals;
    UnitsAreExact(a.amount.value, UnitsOf(a));
    UnitsAreExact(b.amount.value, UnitsOf(b));
    BothComparable(a.amount.value, b.amount.value);
    ComparisonIsTheOrder(b.amount.value, a.amount.value);
  }

  lemma BothComparable(a: string, b: string)
    requires CanonicalDecimalUnits(a).Some? && CanonicalDecimalUnits(b).Some?
    ensures CompareCanonicalDecimals(b, a).Some?
  {
    hide CanonicalDecimalUnits;
  }

  // ------------------------------------------------------------------ the queue

  /** The entries of all cases, None when one of them may not be shown. */
  function Entries(records: seq<LC.Record>, now: int): Option<seq<Entry>> {
    if records == [] then Some([])
    else
      var before := Entries(records[..|records| - 1], now);
      var e := BuildEntry(records[|records| - 1], now);
      if before.None? || e.None? then None else Some(before.value + [e.value])
  }

  /** buildRevenueLeakOperatingQueue: the entries in queue order. */
  function Queue(records: seq<LC.Record>, now: int): Option<seq<Entry>> {
    var entries := Entries(records, now);
    if entries.None? then None else Some(SortBy(entries.value, QueueOrder()))
  }

  lemma {:induction false} EntriesOfRecords(records: seq<LC.Record>, now: int)
    requires Entries(records, now).Some?
    ensures var e := Entries(records, now).value;
            |e| == |records| && forall k | 0 <= k < |records| :: Some(e[k]) == BuildEntry(records[k], now)
  {
    hide BuildEntry;
    if records != [] { EntriesOfRecords(records[..|records| - 1], now); }
  }

  lemma EntryKeepsId(r: LC.Record, now: int)
    requires BuildEntry(r, now).Some?
    ensures BuildEntry(r, now).value.id == r.content.id
  {
    hide LC.NormalizeCommercialValue, KindOf;
  }

  /** The queue is refused as a whole when one of its cases is not to be shown, and only then. */
  lemma QueuedExactlyWhen(records: seq<LC.Record>, now: int)
    ensures Queue(records, now).Some? <==>
            forall r | r in records :: r.life.state in {LC.OPEN, LC.SNOOZED} && r.content.detectedAt <= now
                                       && LC.NormalizeCommercialValue(r.content.value).Some?
  {
    hide LC.NormalizeCommercialValue, BuildEntry, SortBy;
    EntriesExactlyWhen(records, now);
    forall r ensures BuildEntry(r, now).Some? <==>
                     r.life.state in {LC.OPEN, LC.SNOOZED} && r.content.detectedAt <= now
                     && LC.NormalizeCommercialValue(r.content.value).Some?
    {
      ShownExactlyWhen(r, now);
    }
  }

  lemma {:induction false} EntriesExactlyWhen(records: seq<LC.Record>, now: int)
    ensures Entries(records, now).Some? <==> forall r | r in records :: BuildEntry(r, now).Some?
  {
    hide BuildEntry;
    if records != [] {
      EntriesExactlyWhen(records[..|records| - 1], now);
      assert records == records[..|records| - 1] + [records[|records| - 1]];
    }
  }

  /** Entries with ids of their own are sorted by the factors. */
  lemma SortedByFactors(e: seq<Entry>)
    requires (forall x | x in e :: IsWellFormed(x)) && HasDistinctKeys(e, IdOf())
    ensures var q := SortBy(e, QueueOrder());
            && multiset(q) == multiset(e)
            && forall i, j | 0 <= i < j < |q| :: ByFactors(q[i], q[j])
  {
    hide ByFactors, CompareEntries, IsWellFormed, IsStrictOrderOn;
    QueueOrderIsStrict(e);
    DistinctEntries(e);
    SortIsSorted(e, QueueOrder());
    SortIsPermutation(e, QueueOrder());
    var q := SortBy(e, QueueOrder());
    SameMembers(q, e);
    forall i, j | 0 <= i < j < |q| ensures ByFactors(q[i], q[j]) {
      assert q[i] in e && q[j] in e && QueueOrder()(q[i], q[j]);
      ComparatorIsFactors(q[i], q[j]);
    }
  }

  lemma DistinctEntries(e: seq<Entry>)
    requires HasDistinctKeys(e, IdOf())
    ensures HasNoDuplicates(e)
  {
  }

  lemma EntriesAreWellFormed(records: seq<LC.Record>, now: int)
    requires Entries(records, now).Some?
    requires forall i, j | 0 <= i < j < |records| :: records[i].content.id != records[j].content.id
    requires forall r | r in records :: LC.NormalizeCommercialValue(r.content.value) == Some(r.content.value)
    ensures var e := Entries(records, now).value;
            |e| == |records| && (forall x | x in e :: IsWellFormed(x)) && HasDistinctKeys(e, IdOf())
  {
    hide BuildEntry, IsWellFormed, LC.NormalizeCommercialValue, Entries;
    var e := Entries(records, now).value;
    EntriesOfRecords(records, now);
    forall k | 0 <= k < |records| ensures e[k].id == records[k].content.id && IsWellFormed(e[k]) {
      EntryKeepsId(records[k], now);
      assert records[k] in records;
      EntryIsWellFormed(records[k], now);
    }
  }

  /** The queue is a permutation of the entries of its cases, sorted strictly by the documented factors. */
  lemma QueueIsSortedPermutation(records: seq<LC.Record>, now: int)
    requires Queue(records, now).Some?
    requires forall i, j | 0 <= i < j < |records| :: records[i].content.id != records[j].content.id
    requires forall r | r in records :: LC.NormalizeCommercialValue(r.content.value) == Some(r.content.value)
    ensures var q := Queue(records, now).value; var e := Entries(records, now).value;
            && multiset(q) == multiset(e) && |q| == |records|
            && forall i, j | 0 <= i < j < |q| :: ByFactors(q[i], q[j])
  {
    hide Entries, ByFactors, IsWellFormed, LC.NormalizeCommercialValue;
    var e := Entries(records, now).value;
    EntriesAreWellFormed(records, now);
    SortedByFactors(e);
    SameMembers(SortBy(e, QueueOrder()), e);
  }
}

/** Exact money sums: amounts are added per currency in scaled units and printed without loss. */
module MonetarySummary {
  import opened Text
  import opened Lists
  import opened Sorting
  import opened NumericEvidence
  import opened DecimalValue
  import opened DecimalExact
  import opened DecimalPrinting
  import opened CurrencyLedger
  import Deals

  /** An amount as it is printed, None when it is neither number nor text, with its currency. */
  datatype Item = Item(amount: Option<string>, currency: Option<string>)

  /** knownPositiveCommercialValue: the units of a positive exact decimal. */
  function KnownUnits(amount: Option<string>): Option<int> {
    if amount.None? then None
    else
      var units := CanonicalDecimalUnits(amount.value);
      if units.None? || units.value <= 0 then None else units
  }

  predicate HasCurrency(i: Item) {
    i.currency.Some? && Deals.IsCurrencyCode(i.currency.value)
  }

  /** The accumulator of a summary. */
  datatype Totals = Totals(known: nat, unknown: nat, withheld: nat, ledger: Ledger)

  const NOTHING := Totals(0, 0, 0, EMPTY)

  function AddTo(t: Totals, i: Item): Totals {
    var units := KnownUnits(i.amount);
    if units.None? then t.(unknown := t.unknown + 1)
    else if !HasCurrency(i) then t.(known := t.known + 1, withheld := t.withheld + 1)
    else t.(known := t.known + 1, ledger := Book(t.ledger, i.currency.value, units.value))
  }

  function TotalsOf(items: seq<Item>): Totals {
    if items == [] then NOTHING else AddTo(TotalsOf(items[..|items| - 1]), items[|items| - 1])
  }

  // ------------------------------------------------------------------ the final summary

  /** The one known total: zero without known amounts, the amount of the only currency, or withheld. */
  datatype KnownTotal = NoKnownAmount | OneCurrency(amount: string, currency: string) | WithheldTotal

  datatype CurrencyTotal = CurrencyTotal(currency: string, amount: string, count: nat)

  datatype Summary = Summary(total: KnownTotal, known: nat, unknown: nat, withheld: nat, byCurrency: seq<CurrencyTotal>)

  function PrintedTotal(): (string, Aggregate) -> CurrencyTotal {
    (c: string, a: Aggregate) => CurrencyTotal(c, DecimalFromCanonicalUnits(a.units), a.count)
  }

  /** finalizeMonetarySummary */
  function Finalize(t: Totals): Summary {
    var totals := Rows(t.ledger, PrintedTotal());
    Summary(
      if t.known == 0 then NoKnownAmount
      else if t.withheld == 0 && |totals| == 1 then OneCurrency(totals[0].amount, totals[0].currency)
      else WithheldTotal,
      t.known, t.unknown, t.withheld, totals)
  }

  class Accumulator {
    var knownCount: nat
    var unknownCount: nat
    var withheldCount: nat
    var totalsByCurrency: Ledger

    function State(): Totals
      reads this
    {
      Totals(knownCount, unknownCount, withheldCount, totalsByCurrency)
    }

    constructor ()
      ensures State() == NOTHING
    {
      knownCount, unknownCount, withheldCount, totalsByCurrency := 0, 0, 0, EMPTY;
    }

    method AddMonetaryAmount(i: Item)
      modifies this
      ensures State() == AddTo(old(State()), i)
    {
      hide KnownUnits;
      var units := KnownUnits(i.amount);
      if units.None? {
        unknownCount := unknownCount + 1;
        return;
      }
      knownCount := knownCount + 1;
      if !HasCurrency(i) {
        withheldCount := withheldCount + 1;
        return;
      }
      totalsByCurrency := Book(totalsByCurrency, i.currency.value, units.value);
    }
  }

  /** summarizeOpportunityAmounts: one accumulator filled in a loop. */
  method SummarizeAmounts(items: seq<Item>) returns (s: Summary)
    ensures s == Finalize(TotalsOf(items))
  {
    hide AddTo, Finalize;
    var accumulator := new Accumulator();
    var n := 0;
    while n < |items|
      invariant 0 <= n <= |items|
      invariant fresh(accumulator) && accumulator.State() == TotalsOf(items[..n])
    {
      assert items[..n + 1][..n] == items[..n];
      accumulator.AddMonetaryAmount(items[n]);
      n := n + 1;
    }
    assert items[..n] == items;
    s := Finalize(accumulator.State());
  }

  // ------------------------------------------------------------------ what the totals mean

  /** An amount is known exactly when it is a positive decimal that fits the scaled units, which then are its value. */
  lemma KnownExactlyWhen(amount: Option<string>)
    ensures KnownUnits(amount).Some? <==>
            && amount.Some? && IsDecimalNumberLiteral(amount.value) && Value(amount.value) > 0.0
            && CanonicalDecimalUnits(amount.value).Some?
    ensures KnownUnits(amount).Some? ==>
              amount.Some? && IsDecimalNumberLiteral(amount.value)
              && Value(amount.value) * 1000000.0 == KnownUnits(amount).value as real
  {
    hide CanonicalDecimalUnits, Value, IsDecimalNumberLiteral;
    if amount.Some? && CanonicalDecimalUnits(amount.value).Some? {
      UnitsAreExact(amount.value, CanonicalDecimalUnits(amount.value).value);
    }
  }

  function IsKnown(): Item -> bool {
    (i: Item) => KnownUnits(i.amount).Some?
  }

  /** A known amount in the given currency. */
  function IsKnownIn(c: string): Item -> bool {
    (i: Item) => KnownUnits(i.amount).Some? && HasCurrency(i) && i.currency.value == c
  }

  function IsWithheld(): Item -> bool {
    (i: Item) => KnownUnits(i.amount).Some? && !HasCurrency(i)
  }

  /** The rational value of a known amount, zero for the others. */
  ghost function ValueOf(i: Item): real {
    if KnownUnits(i.amount).Some? && IsDecimalNumberLiteral(i.amount.value) then Value(i.amount.value) else 0.0
  }

  ghost function Worth(): Item -> real {
    (i: Item) => ValueOf(i)
  }

  /** The exact sum of the known amounts that satisfy p. */
  ghost function SumOf(items: seq<Item>, p: Item -> bool): real {
    Sum(items, p, Worth())
  }

  lemma UnitsAreValue(i: Item)
    requires KnownUnits(i.amount).Some?
    ensures ValueOf(i) * 1000000.0 == KnownUnits(i.amount).value as real
  {
    hide CanonicalDecimalUnits, Value, IsDecimalNumberLiteral;
    UnitsAreExact(i.amount.value, KnownUnits(i.amount).value);
  }

  /** Every amount is counted once, and the units of a currency are its exact sum, scaled. */
  lemma {:induction false} TotalsAreExact(items: seq<Item>, c: string)
    ensures var t := TotalsOf(items);
            && t.known == Count(items, IsKnown()) && t.withheld == Count(items, IsWithheld())
            && t.known + t.unknown == |items|
            && AggregateOf(t.ledger, c).count == Count(items, IsKnownIn(c))
            && SumOf(items, IsKnownIn(c)) * 1000000.0 == AggregateOf(t.ledger, c).units as real
            && (c in t.ledger.byCurrency <==> Count(items, IsKnownIn(c)) > 0)
  {
    hide KnownUnits, ValueOf, Count, HasCurrency;
    if items == [] {
      CountNothing(items, IsKnown());
      CountNothing(items, IsWithheld());
      CountNothing(items, IsKnownIn(c));
      assert items[..0] == items;
    } else {
      var front, last := items[..|items| - 1], items[|items| - 1];
      TotalsAreExact(front, c);
      assert items == front + [last];
      SumAppend(front, last, IsKnownIn(c), Worth());
      CountAppend(front, last, IsKnown());
      CountAppend(front, last, IsWithheld());
      CountAppend(front, last, IsKnownIn(c));
      if IsKnownIn(c)(last) {
        UnitsAreValue(last);
        ScaledSum(SumOf(front, IsKnownIn(c)), ValueOf(last), AggregateOf(TotalsOf(front).ledger, c).units,
          KnownUnits(last.amount).value);
      }
    }
  }

  /** The currencies are listed once each. */
  lemma {:induction false} TotalsListOnce(items: seq<Item>)
    ensures ListsOnce(TotalsOf(items).ledger)
  {
    hide KnownUnits, ListsOnce, Book, Deals.IsCurrencyCode;
    if items == [] {
      NothingIsBooked();
    } else {
      var front, last := items[..|items| - 1], items[|items| - 1];
      TotalsListOnce(front);
      if KnownUnits(last.amount).Some? && HasCurrency(last) {
        BookingListsOnce(TotalsOf(front).ledger, last.currency.value, KnownUnits(last.amount).value);
      }
    }
  }

  /** The printed total of a currency denotes exactly the sum of its known amounts, however large. */
  lemma PrintedTotalIsExact(items: seq<Item>, c: string)
    ensures var text := DecimalFromCanonicalUnits(AggregateOf(TotalsOf(items).ledger, c).units);
            IsDecimalNumberLiteral(text) && Value(text) == SumOf(items, IsKnownIn(c))
  {
    hide DecimalFromCanonicalUnits, Value, IsDecimalNumberLiteral, TotalsOf, SumOf, Count;
    TotalsAreExact(items, c);
    var u := AggregateOf(TotalsOf(items).ledger, c).units;
    PrintedValueIsExact(u);
    SameScale(Value(DecimalFromCanonicalUnits(u)), SumOf(items, IsKnownIn(c)), u);
  }

  /** The printed rows: one for every currency met, in strict alphabetical order, each with its exact sum and count. */
  lemma RowsAreExact(items: seq<Item>, k: nat)
    requires k < |Finalize(TotalsOf(items)).byCurrency|
    ensures var rows := Finalize(TotalsOf(items)).byCurrency; var row := rows[k];
            && (forall j | 0 <= j < k :: Before(rows[j].currency, row.currency))
            && row.count == Count(items, IsKnownIn(row.currency)) && row.count > 0
            && IsDecimalNumberLiteral(row.amount) && Value(row.amount) == SumOf(items, IsKnownIn(row.currency))
    ensures forall c :: Count(items, IsKnownIn(c)) > 0 ==> c in Currencies(TotalsOf(items).ledger)
  {
    hide DecimalFromCanonicalUnits, Value, IsDecimalNumberLiteral, TotalsOf, SumOf, Count, Currencies, ListsOnce,
      Before;
    var l := TotalsOf(items).ledger;
    TotalsListOnce(items);
    RowsAreAlphabetical(l);
    var c := Currencies(l)[k];
    TotalsAreExact(items, c);
    PrintedTotalIsExact(items, c);
    forall d | Count(items, IsKnownIn(d)) > 0 ensures d in Currencies(l) {
      TotalsAreExact(items, d);
    }
  }

  lemma NothingCounted<T>(s: seq<T>, p: T -> bool, x: T)
    requires x in s && Count(s, p) == 0
    ensures !p(x)
  {
    FilterMembers(s, p, x);
  }

  /**
   * The single known total is given exactly when there are known amounts, all of them in one canonical
   * currency; it then denotes the sum of all known amounts.
   */
  lemma KnownTotalIsExact(items: seq<Item>)
    ensures var s := Finalize(TotalsOf(items));
            && (s.total.NoKnownAmount? <==> forall i | i in items :: !IsKnown()(i))
            && (s.total.OneCurrency? <==>
                  (exists i | i in items :: IsKnown()(i)) && exists c :: AllKnownAre(items, c))
            && (s.total.OneCurrency? ==>
                  && AllKnownAre(items, s.total.currency)
                  && IsDecimalNumberLiteral(s.total.amount) && Value(s.total.amount) == SumOf(items, IsKnown()))
  {
    hide DecimalFromCanonicalUnits, Value, IsDecimalNumberLiteral, TotalsOf, Sum, Count, KnownUnits, SortBy,
      HasNoDuplicates, Deals.IsCurrencyCode;
    var t := TotalsOf(items);
    var s := Finalize(t);
    KnownItems(items);
    if s.total.OneCurrency? {
      var c := s.total.currency;
      OnlyCurrency(items, c);
      PrintedTotalIsExact(items, c);
      forall i | i in items ensures IsKnownIn(c)(i) == IsKnown()(i) {
        OneCurrencyItem(items, c, i);
      }
      SumsAgree(items, IsKnownIn(c), IsKnown(), Worth());
      forall i | i in items && IsKnown()(i) ensures HasCurrency(i) && i.currency.value == c {
        OneCurrencyItem(items, c, i);
      }
      assert AllKnownAre(items, c);
    }
    forall c | (exists i | i in items :: IsKnown()(i)) && AllKnownAre(items, c) ensures s.total.OneCurrency? {
      SoleCurrency(items, c);
    }
  }

  predicate AllKnownAre(items: seq<Item>, c: string) {
    forall i | i in items && IsKnown()(i) :: HasCurrency(i) && i.currency.value == c
  }

  /** Known amounts that are all of one currency give a single total. */
  lemma SoleCurrency(items: seq<Item>, c: string)
    requires (exists i | i in items :: IsKnown()(i)) && AllKnownAre(items, c)
    ensures Finalize(TotalsOf(items)).total.OneCurrency?
  {
    hide TotalsOf, DecimalFromCanonicalUnits, SortBy, KnownUnits, Count, Deals.IsCurrencyCode;
    var t := TotalsOf(items);
    KnownItems(items);
    TotalsAreExact(items, c);
    TotalsListOnce(items);
    NoneCounted(items, IsWithheld());
    forall d | d in t.ledger.order ensures d == c {
      TotalsAreExact(items, d);
      if d != c { NoneCounted(items, IsKnownIn(d)); }
    }
    var i :| i in items && IsKnown()(i);
    CountedMember(items, IsKnownIn(c), i);
    assert c in t.ledger.order;
    if |t.ledger.order| > 1 { assert t.ledger.order[0] in t.ledger.order && t.ledger.order[1] in t.ledger.order; }
    SortIsPermutation(t.ledger.order, TextOrder());
    SortKeepsOne(t.ledger.order);
  }

  lemma SortKeepsOne(s: seq<string>)
    requires |s| == 1
    ensures |SortBy(s, TextOrder())| == 1
  {
    SortIsPermutation(s, TextOrder());
    assert |multiset(SortBy(s, TextOrder()))| == |multiset(s)|;
  }

  lemma KnownItems(items: seq<Item>)
    ensures TotalsOf(items).known == 0 <==> forall i | i in items :: !IsKnown()(i)
  {
    hide Count, TotalsOf, KnownUnits;
    TotalsAreExact(items, "");
    if TotalsOf(items).known == 0 {
      forall i | i in items ensures !IsKnown()(i) {
        NothingCounted(items, IsKnown(), i);
      }
    }
    if forall i | i in items :: !IsKnown()(i) { NoneCounted(items, IsKnown()); }
  }

  /** The currency of a single total is the only one met. */
  lemma OnlyCurrency(items: seq<Item>, c: string)
    requires var s := Finalize(TotalsOf(items)); s.total.OneCurrency? && s.total.currency == c
    ensures TotalsOf(items).ledger.order == [c] && TotalsOf(items).withheld == 0
    ensures Finalize(TotalsOf(items)).total.amount
            == DecimalFromCanonicalUnits(AggregateOf(TotalsOf(items).ledger, c).units)
  {
    hide TotalsOf, DecimalFromCanonicalUnits, SortBy;
    var t := TotalsOf(items);
    SortIsPermutation(t.ledger.order, TextOrder());
    SameMembers(SortBy(t.ledger.order, TextOrder()), t.ledger.order);
    assert |t.ledger.order| == 1;
    assert t.ledger.order[0] in SortBy(t.ledger.order, TextOrder());
  }

  lemma OneCurrencyItem(items: seq<Item>, c: string, i: Item)
    requires TotalsOf(items).ledger.order == [c] && TotalsOf(items).withheld == 0 && i in items
    ensures IsKnownIn(c)(i) == IsKnown()(i)
    ensures IsKnown()(i) ==> HasCurrency(i) && i.currency.value == c
  {
    hide Count, TotalsOf, KnownUnits;
    TotalsAreExact(items, c);
    TotalsListOnce(items);
    NothingCounted(items, IsWithheld(), i);
    if IsKnown()(i) && HasCurrency(i) {
      var d := i.currency.value;
      TotalsAreExact(items, d);
      CountedMember(items, IsKnownIn(d), i);
      assert d in TotalsOf(items).ledger.order;
    }
  }
}

/** The value summary of the operating queue: kinds counted, positive values summed per currency. */
module QueueSummary {
  import opened Text
  import opened Lists
  import opened Digits
  import opened NumericEvidence
  import opened DecimalValue
  import opened DecimalExact
  import opened DecimalPrinting
  import opened OperatingQueue
  import opened CurrencyLedger

  datatype Sums = Sums(positive: nat, zero: nat, unknown: nat, notApplicable: nat, positiveBy: Ledger, zeroBy: Ledger)

  /** One turn of the summing loop. */
  function AddEntry(s: Sums, e: Entry): Sums {
    match e.kind
    case KNOWN_POSITIVE => s.(positive := s.positive + 1, positiveBy := Book(s.positiveBy, CurrencyOf(e), UnitsOf(e)))
    case KNOWN_ZERO => s.(zero := s.zero + 1, zeroBy := Book(s.zeroBy, CurrencyOf(e), 0))
    case UNKNOWN_VALUE => s.(unknown := s.unknown + 1)
    case NOT_APPLICABLE => s.(notApplicable := s.notApplicable + 1)
  }

  function SumsOf(entries: seq<Entry>): Sums {
    if entries == [] then Sums(0, 0, 0, 0, EMPTY, EMPTY)
    else AddEntry(SumsOf(entries[..|entries| - 1]), entries[|entries| - 1])
  }

  datatype PositiveRow = PositiveRow(currency: string, amount: string, cases: nat)

  datatype ZeroRow = ZeroRow(currency: string, cases: nat)

  datatype ValueSummary = ValueSummary(
    positive: nat, positiveRows: seq<PositiveRow>, zero: nat, zeroRows: seq<ZeroRow>, unknown: nat, notApplicable: nat)

  function PrintedPositive(): (string, Aggregate) -> PositiveRow {
    (c: string, a: Aggregate) => PositiveRow(c, if a.units < 0 then "" else DecimalFromUnits(a.units), a.count)
  }

  function PrintedZero(): (string, Aggregate) -> ZeroRow {
    (c: string, a: Aggregate) => ZeroRow(c, a.count)
  }

  /** What is returned of the sums. */
  function Returned(s: Sums): ValueSummary {
    ValueSummary(s.positive, Rows(s.positiveBy, PrintedPositive()), s.zero, Rows(s.zeroBy, PrintedZero()),
      s.unknown, s.notApplicable)
  }

  /** summarizeValues: the loop with its counters and maps, and the rows made of them. */
  method SummarizeValues(entries: seq<Entry>) returns (r: ValueSummary)
    ensures r == Returned(SumsOf(entries))
  {
    hide UnitsOf, Book, Returned;
    var positive, zero, unknown, notApplicable := 0, 0, 0, 0;
    var positiveBy, zeroBy := EMPTY, EMPTY;
    var n := 0;
    while n < |entries|
      invariant 0 <= n <= |entries|
      invariant 0 <= positive && 0 <= zero && 0 <= unknown && 0 <= notApplicable
      invariant Sums(positive, zero, unknown, notApplicable, positiveBy, zeroBy) == SumsOf(entries[..n])
    {
      assert entries[..n + 1][..n] == entries[..n];
      var e := entries[n];
      var currency := CurrencyOf(e);
      if e.kind == KNOWN_POSITIVE {
        positive := positive + 1;
        positiveBy := Book(positiveBy, currency, UnitsOf(e));
      } else if e.kind == KNOWN_ZERO {
        zero := zero + 1;
        zeroBy := Book(zeroBy, currency, 0);
      } else if e.kind == UNKNOWN_VALUE {
        unknown := unknown + 1;
      } else {
        notApplicable := notApplicable + 1;
      }
      n := n + 1;
    }
    assert entries[..n] == entries;
    r := Returned(Sums(positive, zero, unknown, notApplicable, positiveBy, zeroBy));
  }

  /** decimalFromUnits, for sums that are never negative. */
  function DecimalFromUnits(units: nat): string {
    var fraction := StripTrailing(PadStart(TextOf(units % UNITS_PER_ONE), SCALE));
    if fraction != "" then TextOf(units / UNITS_PER_ONE) + "." + fraction else TextOf(units / UNITS_PER_ONE)
  }

  /** The queue prints as the canonical printer does. */
  lemma SamePrinting(units: nat)
    ensures DecimalFromUnits(units) == DecimalFromCanonicalUnits(units)
  {
    hide TextOf, StripTrailing, PadStart;
  }

  // ------------------------------------------------------------------ meaning

  function OfKind(k: PotentialValueKind): Entry -> bool {
    (e: Entry) => e.kind == k
  }

  function ZeroIn(c: string): Entry -> bool {
    (e: Entry) => e.kind == KNOWN_ZERO && CurrencyOf(e) == c
  }

  function PositiveIn(c: string): Entry -> bool {
    (e: Entry) => e.kind == KNOWN_POSITIVE && CurrencyOf(e) == c
  }

  ghost function ValueOf(e: Entry): real {
    if e.amount.Some? && IsDecimalNumberLiteral(e.amount.value) then Value(e.amount.value) else 0.0
  }

  ghost function Worth(): Entry -> real {
    (e: Entry) => ValueOf(e)
  }

  ghost function SumOf(entries: seq<Entry>, p: Entry -> bool): real {
    Sum(entries, p, Worth())
  }

  lemma UnitsAreValue(e: Entry)
    requires IsWellFormed(e) && e.kind == KNOWN_POSITIVE
    ensures ValueOf(e) * 1000000.0 == UnitsOf(e) as real && UnitsOf(e) > 0
  {
    hide CanonicalDecimalUnits, Value, IsDecimalNumberLiteral;
    UnitsAreExact(e.amount.value, UnitsOf(e));
  }

  /** The kinds partition the entries, and the units of a currency are the exact sum of its positive values. */
  lemma {:induction false} SumsAreExact(entries: seq<Entry>, c: string)
    requires forall e | e in entries :: IsWellFormed(e)
    ensures var s := SumsOf(entries);
            && s.positive == Count(entries, OfKind(KNOWN_POSITIVE)) && s.zero == Count(entries, OfKind(KNOWN_ZERO))
            && s.unknown == Count(entries, OfKind(UNKNOWN_VALUE))
            && s.notApplicable == Count(entries, OfKind(NOT_APPLICABLE))
            && s.positive + s.zero + s.unknown + s.notApplicable == |entries|
            && AggregateOf(s.positiveBy, c).count == Count(entries, PositiveIn(c))
            && AggregateOf(s.positiveBy, c).units >= 0
            && AggregateOf(s.zeroBy, c).count == Count(entries, ZeroIn(c))
            && (c in s.positiveBy.byCurrency <==> Count(entries, PositiveIn(c)) > 0)
            && (c in s.zeroBy.byCurrency <==> Count(entries, ZeroIn(c)) > 0)
            && SumOf(entries, PositiveIn(c)) * 1000000.0 == AggregateOf(s.positiveBy, c).units as real
  {
    hide UnitsOf, ValueOf, Count, IsWellFormed;
    if entries == [] {
      CountNothing(entries, OfKind(KNOWN_POSITIVE));
      CountNothing(entries, OfKind(KNOWN_ZERO));
      CountNothing(entries, OfKind(UNKNOWN_VALUE));
      CountNothing(entries, OfKind(NOT_APPLICABLE));
      CountNothing(entries, PositiveIn(c));
      CountNothing(entries, ZeroIn(c));
      assert entries[..0] == entries;
    } else {
      var front, last := entries[..|entries| - 1], entries[|entries| - 1];
      assert entries == front + [last] && last in entries && forall e | e in front :: e in entries;
      SumsAreExact(front, c);
      CountAppend(front, last, OfKind(KNOWN_POSITIVE));
      CountAppend(front, last, OfKind(KNOWN_ZERO));
      CountAppend(front, last, OfKind(UNKNOWN_VALUE));
      CountAppend(front, last, OfKind(NOT_APPLICABLE));
      CountAppend(front, last, PositiveIn(c));
      CountAppend(front, last, ZeroIn(c));
      SumAppend(front, last, PositiveIn(c), Worth());
      if PositiveIn(c)(last) {
        UnitsAreValue(last);
        ScaledSum(SumOf(front, PositiveIn(c)), ValueOf(last), AggregateOf(SumsOf(front).positiveBy, c).units,
          UnitsOf(last));
      }
    }
  }

  /** The printed total of a currency denotes the exact sum of its positive values. */
  lemma PrintedTotalIsExact(entries: seq<Entry>, c: string)
    requires forall e | e in entries :: IsWellFormed(e)
    ensures AggregateOf(SumsOf(entries).positiveBy, c).units >= 0
    ensures var text := DecimalFromUnits(AggregateOf(SumsOf(entries).positiveBy, c).units);
            IsDecimalNumberLiteral(text) && Value(text) == SumOf(entries, PositiveIn(c))
  {
    hide DecimalFromCanonicalUnits, DecimalFromUnits, Value, IsDecimalNumberLiteral, SumsOf, SumOf, Count, IsWellFormed;
    SumsAreExact(entries, c);
    var u := AggregateOf(SumsOf(entries).positiveBy, c).units;
    SamePrinting(u);
    PrintedValueIsExact(u);
    SameScale(Value(DecimalFromCanonicalUnits(u)), SumOf(entries, PositiveIn(c)), u);
  }

  lemma {:induction false} SumsListOnce(entries: seq<Entry>)
    ensures ListsOnce(SumsOf(entries).positiveBy) && ListsOnce(SumsOf(entries).zeroBy)
  {
    hide UnitsOf, ListsOnce, Book;
    if entries == [] {
      NothingIsBooked();
    } else {
      var front, last := entries[..|entries| - 1], entries[|entries| - 1];
      SumsListOnce(front);
      BookingListsOnce(SumsOf(front).positiveBy, CurrencyOf(last), UnitsOf(last));
      BookingListsOnce(SumsOf(front).zeroBy, CurrencyOf(last), 0);
    }
  }

  /**
   * The rows of positive values: one for every currency, in strict alphabetical order, with its exact sum and
   * count.
   */
  lemma PositiveRowsAreExact(entries: seq<Entry>, k: nat)
    requires (forall e | e in entries :: IsWellFormed(e)) && k < |Returned(SumsOf(entries)).positiveRows|
    ensures var rows := Returned(SumsOf(entries)).positiveRows; var row := rows[k];
            && (forall j | 0 <= j < k :: Before(rows[j].currency, row.currency))
            && row.cases == Count(entries, PositiveIn(row.currency)) && row.cases > 0
            && IsDecimalNumberLiteral(row.amount) && Value(row.amount) == SumOf(entries, PositiveIn(row.currency))
    ensures forall c :: Count(entries, PositiveIn(c)) > 0 ==> c in Currencies(SumsOf(entries).positiveBy)
  {
    hide DecimalFromUnits, Value, IsDecimalNumberLiteral, SumsOf, SumOf, Count, Currencies, ListsOnce, Before,
      IsWellFormed;
    var l := SumsOf(entries).positiveBy;
    SumsListOnce(entries);
    RowsAreAlphabetical(l);
    var c := Currencies(l)[k];
    SumsAreExact(entries, c);
    PrintedTotalIsExact(entries, c);
    forall d | Count(entries, PositiveIn(d)) > 0 ensures d in Currencies(l) {
      SumsAreExact(entries, d);
    }
  }

  /** The rows of zero values: one for every currency, in strict alphabetical order, with its count. */
  lemma ZeroRowsAreExact(entries: seq<Entry>, k: nat)
    requires (forall e | e in entries :: IsWellFormed(e)) && k < |Returned(SumsOf(entries)).zeroRows|
    ensures var rows := Returned(SumsOf(entries)).zeroRows; var row := rows[k];
            && (forall j | 0 <= j < k :: Before(rows[j].currency, row.currency))
            && row.cases == Count(entries, ZeroIn(row.currency)) && row.cases > 0
    ensures forall c :: Count(entries, ZeroIn(c)) > 0 ==> c in Currencies(SumsOf(entries).zeroBy)
  {
    hide SumsOf, SumOf, Count, Currencies, ListsOnce, Before, IsWellFormed, DecimalFromUnits;
    var l := SumsOf(entries).zeroBy;
    SumsListOnce(entries);
    RowsAreAlphabetical(l);
    SumsAreExact(entries, Currencies(l)[k]);
    forall d | Count(entries, ZeroIn(d)) > 0 ensures d in Currencies(l) {
      SumsAreExact(entries, d);
    }
  }
}

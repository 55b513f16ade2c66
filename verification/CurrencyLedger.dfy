/** Amounts booked per currency, their rows in alphabetical order, and exact sums. */
module CurrencyLedger {
  import opened Text
  import opened Sorting

  /** The sum of the units booked in a currency, and how many bookings there were. */
  datatype Aggregate = Aggregate(units: int, count: nat)

  /** order lists the currencies as they were first booked. */
  datatype Ledger = Ledger(order: seq<string>, byCurrency: map<string, Aggregate>)

  const EMPTY := Ledger([], map[])

  function AggregateOf(l: Ledger, c: string): Aggregate {
    if c in l.byCurrency then l.byCurrency[c] else Aggregate(0, 0)
  }

  function Book(l: Ledger, c: string, units: int): Ledger {
    var a := AggregateOf(l, c);
    Ledger(if c in l.byCurrency then l.order else l.order + [c],
      l.byCurrency[c := Aggregate(a.units + units, a.count + 1)])
  }

  /** Every booked currency is listed, once. */
  ghost predicate ListsOnce(l: Ledger) {
    (forall c :: c in l.order <==> c in l.byCurrency) && HasNoDuplicates(l.order)
  }

  lemma NothingIsBooked()
    ensures ListsOnce(EMPTY)
  {
  }

  lemma BookingListsOnce(l: Ledger, c: string, units: int)
    requires ListsOnce(l)
    ensures ListsOnce(Book(l, c, units))
  {
  }

  // ------------------------------------------------------------------ rows

  function Currencies(l: Ledger): seq<string> {
    SortBy(l.order, TextOrder())
  }

  function Rows<R>(l: Ledger, row: (string, Aggregate) -> R): (rows: seq<R>)
    ensures |rows| == |Currencies(l)|
    ensures forall k | 0 <= k < |rows| :: rows[k] == row(Currencies(l)[k], AggregateOf(l, Currencies(l)[k]))
  {
    seq(|Currencies(l)|, k requires 0 <= k < |Currencies(l)| => row(Currencies(l)[k], AggregateOf(l, Currencies(l)[k])))
  }

  /** The rows stand in strict alphabetical order, one for every booked currency. */
  lemma RowsAreAlphabetical(l: Ledger)
    requires ListsOnce(l)
    ensures forall j, k | 0 <= j < k < |Currencies(l)| :: Before(Currencies(l)[j], Currencies(l)[k])
    ensures forall c :: c in Currencies(l) <==> c in l.byCurrency
    ensures |Currencies(l)| == |l.order|
  {
    hide SortBy, Before;
    TextOrderIsStrict(l.order);
    SortIsSorted(l.order, TextOrder());
    SortIsPermutation(l.order, TextOrder());
    SameMembers(Currencies(l), l.order);
    assert |multiset(Currencies(l))| == |multiset(l.order)|;
    assert forall j, k | 0 <= j < k < |Currencies(l)| :: TextOrder()(Currencies(l)[j], Currencies(l)[k]);
  }

  lemma TextOrderIsStrict(s: seq<string>)
    ensures IsStrictOrderOn(TextOrder(), s)
  {
    forall a, b | a in s && b in s
      ensures a != b ==> TextOrder()(a, b) || TextOrder()(b, a)
      ensures !(TextOrder()(a, b) && TextOrder()(b, a))
    {
      BeforeTotal(a, b);
      if Before(a, b) { BeforeAsymmetric(a, b); }
      if Before(b, a) { BeforeAsymmetric(b, a); }
    }
    forall a, b, c | a in s && b in s && c in s && TextOrder()(a, b) && TextOrder()(b, c)
      ensures TextOrder()(a, c)
    {
      BeforeTransitive(a, b, c);
    }
  }

  // ------------------------------------------------------------------ exact sums

  /** The rational sum of the values of the elements that satisfy p. */
  ghost function Sum<T>(s: seq<T>, p: T -> bool, value: T -> real): real {
    if s == [] then 0.0
    else Sum(s[..|s| - 1], p, value) + if p(s[|s| - 1]) then value(s[|s| - 1]) else 0.0
  }

  lemma SumAppend<T>(s: seq<T>, x: T, p: T -> bool, value: T -> real)
    ensures Sum(s + [x], p, value) == Sum(s, p, value) + if p(x) then value(x) else 0.0
  {
    assert (s + [x])[..|s|] == s;
  }

  lemma {:induction false} SumsAgree<T>(s: seq<T>, p: T -> bool, q: T -> bool, value: T -> real)
    requires forall x | x in s :: p(x) == q(x)
    ensures Sum(s, p, value) == Sum(s, q, value)
  {
    if s != [] {
      var n := |s| - 1;
      assert s[n] in s && forall x | x in s[..n] :: x in s;
      SumsAgree(s[..n], p, q, value);
    }
  }
}

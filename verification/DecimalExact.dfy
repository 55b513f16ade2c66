/** Every predicate and conversion of NumericEvidence is exact over the rationals. */
module DecimalExact {
  import opened Text
  import opened Digits
  import opened NumericEvidence
  import opened DecimalValue

  // ----- normal forms are unique -----

  lemma LastDigit(s: string, m: nat)
    requires AllDigits(s) && s != "" && s[|s| - 1] != '0'
    ensures NatOf(s) != 10 * m
  {
    assert NatOf(s) == 10 * NatOf(s[..|s| - 1]) + DigitValue(s[|s| - 1]);
  }

  /** Digits without a zero at the end are no multiple of a positive power of ten. */
  lemma NotDivisible(s: string, m: nat, k: nat)
    requires AllDigits(s) && s != "" && s[|s| - 1] != '0' && k > 0
    ensures NatOf(s) != m * Power(k)
  {
    LastDigit(s, m * Power(k - 1));
    Scale(m, Power(k - 1));
  }

  lemma CommonPower(m: nat, n: nat, k: nat, p: int)
    requires m as real * Pow10(p + k) == n as real * Pow10(p)
    ensures m * Power(k) == n
  {
    hide *;
    MagnitudeShift(m, k, p);
    Pow10Positive(p);
    RealCancel((m * Power(k)) as real, n as real, Pow10(p));
  }

  lemma Pow10Positive(p: int)
    ensures Pow10(p) > 0.0
  {
  }

  predicate HasNormalEnds(s: string) {
    AllDigits(s) && s != "" && s[0] != '0' && s[|s| - 1] != '0'
  }

  lemma PowersAgree(a: string, p: int, b: string, q: int)
    requires HasNormalEnds(a) && HasNormalEnds(b) && Magnitude(a, p) == Magnitude(b, q)
    ensures p <= q
  {
    hide NatOf, Power, Pow10, AllDigits;
    if p > q {
      assert q + (p - q) == p;
      CommonPower(NatOf(a), NatOf(b), p - q, q);
      NotDivisible(b, NatOf(a), p - q);
    }
  }

  lemma NormalFormsAreUnique(a: string, p: int, b: string, q: int)
    requires HasNormalEnds(a) && HasNormalEnds(b)
    ensures Magnitude(a, p) == Magnitude(b, q) <==> a == b && p == q
  {
    hide NatOf, Power, Pow10;
    if Magnitude(a, p) == Magnitude(b, q) {
      PowersAgree(a, p, b, q);
      PowersAgree(b, q, a, p);
      Pow10Positive(p);
      RealCancel(NatOf(a) as real, NatOf(b) as real, Pow10(p));
      NatOfInjectiveLead(a, b);
    }
  }

  lemma MagnitudePositive(s: string, p: int)
    requires HasNormalEnds(s)
    ensures Magnitude(s, p) > 0.0
  {
    MagnitudeZero(s, p);
    NatOfPositive(s, 0);
  }

  /** Two literals are equivalent exactly when their values are equal. */
  lemma EquivalenceIsEquality(left: string, right: string)
    ensures AreDecimalLiteralsEquivalent(left, right) <==>
      IsDecimalNumberLiteral(left) && IsDecimalNumberLiteral(right) && Value(left) == Value(right)
  {
    hide Value, Magnitude, NormalizeDecimalLiteral, IsDecimalNumberLiteral;
    if IsDecimalNumberLiteral(left) && IsDecimalNumberLiteral(right) {
      NormalizeKeepsValue(left);
      NormalizeKeepsValue(right);
      var l, r := NormalizeDecimalLiteral(left).value, NormalizeDecimalLiteral(right).value;
      if !l.zero && !r.zero {
        NormalFormsAreUnique(l.digits, l.power, r.digits, r.power);
        MagnitudePositive(l.digits, l.power);
        MagnitudePositive(r.digits, r.power);
      }
    }
  }

  // ----- NUMERIC(20,6) -----

  /** One more than the greatest magnitude of NUMERIC(20,6) in units. */
  const UNITS_BOUND: int := 100_000_000_000_000_000_000

  lemma PowerTable()
    ensures Power(PRECISION) == UNITS_BOUND && Power(SCALE) == UNITS_PER_ONE
    ensures Pow10(SCALE) == UNITS_PER_ONE as real
  {
  }

  /** value * 10^6 is the integer u, and u has at most twenty digits. */
  ghost predicate HasUnits(value: string, u: int)
    requires IsDecimalNumberLiteral(value)
  {
    hide *;
    Value(value) * 1000000.0 == u as real && -UNITS_BOUND < u < UNITS_BOUND
  }

  lemma ScaledMagnitude(s: string, p: int)
    requires AllDigits(s)
    ensures Magnitude(s, p) * 1000000.0 == Magnitude(s, p + SCALE)
  {
    hide NatOf, Pow10, Power;
    PowerTable();
    Pow10Add(p, SCALE);
    var n, x := NatOf(s) as real, Pow10(p);
    assert (n * x) * 1000000.0 == n * (x * 1000000.0);
  }

  lemma NaturalMagnitude(s: string, k: nat)
    requires AllDigits(s)
    ensures Magnitude(s, k) == (NatOf(s) * Power(k)) as real
  {
    hide NatOf, Pow10, Power;
    Pow10Nat(k);
  }

  /** Digits times a power of ten below the precision, exactly when the integer digits fit. */
  lemma PrecisionBound(s: string, k: nat)
    requires HasNormalEnds(s)
    ensures NatOf(s) * Power(k) < UNITS_BOUND <==> |s| + k <= PRECISION
  {
    hide NatOf, Power;
    PowerTable();
    NatOfBound(s);
    NatOfLead(s);
    PowerAdd(|s|, k);
    PowerAdd(|s| - 1, k);
    var n, x := NatOf(s), Power(k);
    if |s| + k <= PRECISION {
      ProductBelow(n, Power(|s|), x);
      PowerMonotone(|s| + k, PRECISION);
    } else {
      ProductAtMost(Power(|s| - 1), n, x);
      PowerMonotone(PRECISION, |s| - 1 + k);
    }
  }

  lemma ProductBelow(a: nat, b: nat, x: nat)
    requires a < b && x > 0
    ensures a * x < b * x
  {
  }

  lemma ProductAtMost(a: nat, b: nat, x: nat)
    requires a <= b
    ensures a * x <= b * x
  {
  }

  /** A magnitude whose scaled form is an integer has at most SCALE fraction digits. */
  lemma ScaleBound(s: string, p: int, u: nat)
    requires HasNormalEnds(s) && Magnitude(s, p + SCALE) == u as real
    ensures -p <= SCALE
  {
    if -p > SCALE {
      hide NatOf, Power, Pow10;
      var k := -p - SCALE;
      assert u as real * Pow10(0) == u as real by { Pow10Zero(); }
      CommonPower(u, NatOf(s), k, p + SCALE);
      NotDivisible(s, u, k);
    }
  }

  /** The scaled magnitude is the natural number u. */
  ghost predicate ScalesTo(s: string, p: int, u: nat)
    requires AllDigits(s)
  {
    Magnitude(s, p) * 1000000.0 == u as real
  }

  lemma UnitsOfMagnitude(s: string, p: int, u: nat)
    requires HasNormalEnds(s)
    ensures ScalesTo(s, p, u) && u < UNITS_BOUND <==>
      |s| + p <= PRECISION - SCALE && -p <= SCALE && u == NatOf(s) * Power(p + SCALE)
  {
    hide NatOf, Power, Pow10, Magnitude;
    ScaledMagnitude(s, p);
    if -p <= SCALE {
      NaturalMagnitude(s, p + SCALE);
      PrecisionBound(s, p + SCALE);
    } else if ScalesTo(s, p, u) {
      ScaleBound(s, p, u);
    }
  }

  /** Units exist exactly for in-range exponents whose scaled value is an integer of at most twenty
      digits, and then they are that integer. */
  lemma UnitsAreExact(value: string, u: int)
    ensures CanonicalDecimalUnits(value) == Some(u) <==>
      && IsDecimalNumberLiteral(value)
      && MIN_INPUT_EXPONENT <= InputExponent(value) <= MAX_INPUT_EXPONENT
      && HasUnits(value, u)
  {
    hide Value, InputExponent, NormalizeDecimalLiteral, NatOf, Power, Pow10, Magnitude, IsDecimalNumberLiteral;
    if IsDecimalNumberLiteral(value) {
      NormalizeKeepsValue(value);
      var n := NormalizeDecimalLiteral(value).value;
      if !n.zero {
        MagnitudePositive(n.digits, n.power);
        if u >= 0 { UnitsOfMagnitude(n.digits, n.power, u); }
        if u <= 0 { UnitsOfMagnitude(n.digits, n.power, -u); }
      }
    }
  }

  /** Representable means: exponent in range and a scaled integer of at most twenty digits. */
  lemma RepresentableIsExact(value: string)
    ensures IsCanonicalNumericLiteralRepresentable(value) <==>
      && IsDecimalNumberLiteral(value)
      && MIN_INPUT_EXPONENT <= InputExponent(value) <= MAX_INPUT_EXPONENT
      && exists u :: HasUnits(value, u)
  {
    hide Value, InputExponent, NormalizeDecimalLiteral, NatOf, Power, Pow10, IsDecimalNumberLiteral, HasUnits;
    var units := CanonicalDecimalUnits(value);
    if units.Some? { UnitsAreExact(value, units.value); }
    if IsDecimalNumberLiteral(value) {
      forall u | HasUnits(value, u)
        ensures MIN_INPUT_EXPONENT <= InputExponent(value) <= MAX_INPUT_EXPONENT ==> units == Some(u)
      {
        UnitsAreExact(value, u);
      }
    }
  }

  /** Comparison is the order of the values, and refuses exactly the values without units. */
  lemma ComparisonIsTheOrder(left: string, right: string)
    ensures CompareCanonicalDecimals(left, right).Some? <==>
      IsCanonicalNumericLiteralRepresentable(left) && IsCanonicalNumericLiteralRepresentable(right)
    ensures CompareCanonicalDecimals(left, right).Some? ==>
      && IsDecimalNumberLiteral(left) && IsDecimalNumberLiteral(right)
      && var c := CompareCanonicalDecimals(left, right).value;
      && (c == -1 <==> Value(left) < Value(right))
      && (c == 0 <==> Value(left) == Value(right))
      && (c == 1 <==> Value(left) > Value(right))
  {
    hide InputExponent, Value, NormalizeDecimalLiteral, NatOf, Power, Pow10, IsDecimalNumberLiteral;
    var l, r := CanonicalDecimalUnits(left), CanonicalDecimalUnits(right);
    if l.Some? { UnitsAreExact(left, l.value); }
    if r.Some? { UnitsAreExact(right, r.value); }
  }

  // ----- zero, sign and one -----

  lemma {:induction false} ZeroDigits(s: string)
    requires AllDigits(s)
    ensures NatOf(s) == 0 <==> forall i | 0 <= i < |s| :: !IsNonzeroDigit(s[i])
  {
    if s != "" {
      ZeroDigits(s[..|s| - 1]);
      assert s == s[..|s| - 1] + [s[|s| - 1]];
      if exists i | 0 <= i < |s| :: IsNonzeroDigit(s[i]) {
        var i :| 0 <= i < |s| && IsNonzeroDigit(s[i]);
        NatOfPositive(s, i);
      }
    }
  }

  lemma ZeroCoefficient(l: Literal)
    requires WellFormed(l)
    ensures NatOf(l.integer + l.fraction) == 0 <==>
      IndexWhere(Coefficient(l), IsNonzeroDigit) == |Coefficient(l)|
  {
    hide NatOf, IndexWhere;
    var c, d := Coefficient(l), l.integer + l.fraction;
    ZeroDigits(d);
    var shift := if l.point then 1 else 0;
    forall i | 0 <= i < |d| ensures d[i] == c[if i < |l.integer| then i else i + shift] {
    }
    forall i | 0 <= i < |c| && IsNonzeroDigit(c[i])
      ensures c[i] == d[if i < |l.integer| then i else i - shift]
    {
    }
  }

  lemma ZeroText(t: string)
    requires IsLiteralText(t)
    ensures var c := CoefficientOf(DropSign(t));
      IndexWhere(c, IsNonzeroDigit) == |c| <==> Meaning(ParseText(t)) == 0.0
    ensures Meaning(ParseText(t)) < 0.0 ==> t != "" && t[0] == '-'
    ensures Meaning(ParseText(t)) > 0.0 ==> t == "" || t[0] != '-'
  {
    hide ParseText, NatOf, Pow10, Magnitude, CoefficientOf, IntegerOf, FractionOf, DropSign, ExponentTextOf, SignedOf,
      IndexWhere, AllDigits, WellFormed, Coefficient, IsLiteralText, Spell, ExponentOf;
    var l := ParseText(t);
    PartsOf(t);
    ZeroCoefficient(l);
    MagnitudeZero(l.integer + l.fraction, ExponentOf(l) - |l.fraction|);
  }

  /** Exact zero means value 0, and negative means value below 0. */
  lemma ZeroAndSignAreExact(value: string)
    ensures IsExactZeroLiteral(value) <==> IsDecimalNumberLiteral(value) && Value(value) == 0.0
    ensures IsNegativeNumberLiteral(value) <==> IsDecimalNumberLiteral(value) && Value(value) < 0.0
  {
    hide ParseText, Meaning, CoefficientOf, DropSign, IndexWhere, IsLiteralText, Trim;
    if IsDecimalNumberLiteral(value) {
      ZeroText(Trim(value));
    }
  }

  lemma HeadSplit(s: string)
    requires AllDigits(s) && s != ""
    ensures NatOf(s) == DigitValue(s[0]) * Power(|s| - 1) + NatOf(s[1..])
    ensures NatOf(s[1..]) < Power(|s| - 1)
  {
    var rest := s[1..];
    assert s == s[..1] + rest;
    assert NatOf(s[..1]) == DigitValue(s[0]) by { assert s[..1][..0] == ""; }
    hide NatOf, Power;
    NatOfConcat(s[..1], rest);
    NatOfBound(rest);
  }

  /** Digits with a nonzero head equal the leading power exactly when they are a one and zeros. */
  lemma LeadingPowerDigits(s: string)
    requires AllDigits(s) && s != "" && IsNonzeroDigit(s[0])
    ensures NatOf(s) > Power(|s| - 1) <==>
      s[0] != '1' || IndexWhere(s[1..], IsNonzeroDigit) < |s| - 1
  {
    hide NatOf, Power, IndexWhere;
    HeadSplit(s);
    ZeroDigits(s[1..]);
    ZeroSearch(s[1..]);
    if s[0] != '1' { ProductAtMost(2, DigitValue(s[0]), Power(|s| - 1)); }
  }

  lemma ZeroSearch(s: string)
    ensures IndexWhere(s, IsNonzeroDigit) == |s| <==> forall i | 0 <= i < |s| :: !IsNonzeroDigit(s[i])
  {
    hide IndexWhere;
  }

  lemma MagnitudeAgainstPower(s: string, k: nat, p: int)
    requires AllDigits(s)
    ensures NatOf(s) > Power(k) <==> Magnitude(s, p) > Pow10(k + p)
    ensures NatOf(s) < Power(k) <==> Magnitude(s, p) < Pow10(k + p)
  {
    hide NatOf, Power, Pow10;
    Pow10Nat(k);
    Pow10Add(k, p);
    Pow10Positive(p);
    OrderedProducts(Pow10(k), NatOf(s) as real, Pow10(p));
    OrderedProducts(NatOf(s) as real, Pow10(k), Pow10(p));
  }

  /** A magnitude against 1, from the power of its leading digit. */
  lemma MagnitudeAgainstOne(s: string, p: int)
    requires AllDigits(s) && s != "" && s[0] != '0'
    ensures |s| - 1 + p > 0 ==> Magnitude(s, p) > 1.0
    ensures |s| - 1 + p < 0 ==> Magnitude(s, p) < 1.0
    ensures |s| - 1 + p == 0 ==> (Magnitude(s, p) > 1.0 <==> NatOf(s) > Power(|s| - 1))
  {
    hide NatOf, Power, Pow10, Magnitude;
    NatOfBound(s);
    NatOfLead(s);
    Pow10Zero();
    MagnitudeAgainstPower(s, |s| - 1, p);
    MagnitudeAgainstPower(s, |s|, p);
    if |s| - 1 + p > 0 { Pow10Monotone(0, |s| - 1 + p); }
    if |s| + p < 0 { Pow10Monotone(|s| + p, 0); }
  }

  lemma OrderedProducts(a: real, b: real, x: real)
    requires x > 0.0
    ensures a <= b ==> a * x <= b * x
    ensures a < b ==> a * x < b * x
  {
  }

  /** The digits from the first nonzero one on carry the magnitude. */
  lemma SignificantDigits(digits: string, first: nat, p: int)
    requires AllDigits(digits) && first == IndexWhere(digits, IsNonzeroDigit)
    ensures Magnitude(digits[first..], p) == Magnitude(digits, p)
  {
    hide NatOf, Power, Pow10, IndexWhere;
    var zeros := digits[..first];
    ZeroDigits(zeros);
    assert digits == zeros + digits[first..];
    NatOfConcat(zeros, digits[first..]);
    assert NatOf(zeros) * Power(|digits| - first) == 0;
  }

  lemma PaddedInteger(integer: string, fraction: string)
    requires AllDigits(integer) && AllDigits(fraction)
    ensures var i := if integer == "" then "0" else integer;
      AllDigits(i + fraction) && AllDigits(integer + fraction) && NatOf(i + fraction) == NatOf(integer + fraction)
  {
    hide NatOf;
    if integer == "" {
      NoDigits();
      NatOfConcat("0", fraction);
      assert "" + fraction == fraction;
    }
  }

  /** The test of isGreaterThanOneLiteral on integer and fraction digits and an exponent. */
  ghost predicate ExceedsOne(integer: string, fraction: string, exponent: int)
    requires AllDigits(integer) && AllDigits(fraction)
  {
    var i := if integer == "" then "0" else integer;
    var digits := i + fraction;
    var first := IndexWhere(digits, IsNonzeroDigit);
    first < |digits| &&
    var leadingPower := exponent + |i| - first - 1;
    leadingPower > 0 ||
    (leadingPower == 0 &&
     var significant := digits[first..];
     significant[0] != '1' || IndexWhere(significant[1..], IsNonzeroDigit) < |significant| - 1)
  }

  lemma ExceedsOneIsExact(integer: string, fraction: string, exponent: int)
    requires AllDigits(integer) && AllDigits(fraction)
    ensures ExceedsOne(integer, fraction, exponent) <==>
      Magnitude(integer + fraction, exponent - |fraction|) > 1.0
  {
    hide NatOf, Power, Pow10, IndexWhere, AllDigits;
    var i := if integer == "" then "0" else integer;
    var digits, p := i + fraction, exponent - |fraction|;
    PaddedInteger(integer, fraction);
    assert Magnitude(digits, p) == Magnitude(integer + fraction, p);
    hide Magnitude;
    var first := IndexWhere(digits, IsNonzeroDigit);
    if first == |digits| {
      NoSignificantDigit(digits, p);
    } else {
      var s := digits[first..];
      SignificantDigits(digits, first, p);
      DigitTail(digits, first);
      MagnitudeAgainstOne(s, p);
      LeadingPowerDigits(s);
    }
  }

  lemma DigitTail(digits: string, first: nat)
    requires AllDigits(digits) && first <= |digits|
    ensures AllDigits(digits[first..])
  {
  }

  lemma NoSignificantDigit(digits: string, p: int)
    requires AllDigits(digits) && IndexWhere(digits, IsNonzeroDigit) == |digits|
    ensures Magnitude(digits, p) == 0.0
  {
    hide NatOf, Pow10, IndexWhere, Magnitude;
    ZeroSearch(digits);
    ZeroDigits(digits);
    MagnitudeZero(digits, p);
  }

  lemma NegativeZeroDigits(c: string)
    requires IndexWhere(c, IsNonzeroDigit) == |c|
    ensures var i := IntegerOf("-" + c);
      var d := (if i == "" then "0" else i) + FractionOf("-" + c);
      IndexWhere(d, IsNonzeroDigit) == |d|
  {
    hide IndexWhere;
    ZeroSearch(c);
    var n := "-" + c;
    assert forall k | 0 <= k < |n| :: !IsNonzeroDigit(n[k]);
    var i := IntegerOf(n);
    var d := (if i == "" then "0" else i) + FractionOf(n);
    forall k | 0 <= k < |d| ensures !IsNonzeroDigit(d[k]) {
    }
    ZeroSearch(d);
  }

  lemma MinusCoefficient(t: string)
    requires t != "" && t[0] == '-'
    ensures CoefficientOf(t) == "-" + CoefficientOf(DropSign(t))
  {
    assert !IsExponentMark(t[0]);
  }

  lemma GreaterThanOneMinus(value: string)
    requires IsExactZeroLiteral(value) && Trim(value) != "" && Trim(value)[0] == '-'
    ensures !IsGreaterThanOneLiteral(value)
  {
    var t := Trim(value);
    MinusCoefficient(t);
    hide Trim, ExponentTextOf, SignedOf, IndexWhere, CoefficientOf, IsLiteralText, IntegerOf, FractionOf, DropSign;
    NegativeZeroDigits(CoefficientOf(DropSign(t)));
  }

  lemma GreaterThanOnePlus(value: string)
    requires IsDecimalNumberLiteral(value) && (Trim(value) == "" || Trim(value)[0] != '-')
    ensures IsGreaterThanOneLiteral(value) <==> Value(value) > 1.0
  {
    var t := Trim(value);
    hide Trim, ExponentTextOf, SignedOf, IndexWhere, CoefficientOf, IsLiteralText, IntegerOf, FractionOf, Meaning,
      ParseText;
    assert DropSign(t) == if t != "" && t[0] == '+' then t[1..] else t;
    PositiveLiteral(t);
  }

  /** Greater-than-one means value above 1. */
  lemma GreaterThanOneIsExact(value: string)
    ensures IsGreaterThanOneLiteral(value) <==> IsDecimalNumberLiteral(value) && Value(value) > 1.0
  {
    hide Value, Trim, IsLiteralText, IsExactZeroLiteral;
    ZeroAndSignAreExact(value);
    if IsDecimalNumberLiteral(value) && !IsNegativeNumberLiteral(value) {
      hide IsGreaterThanOneLiteral;
      if Trim(value) != "" && Trim(value)[0] == '-' {
        GreaterThanOneMinus(value);
      } else {
        GreaterThanOnePlus(value);
      }
    }
  }

  /** Without a minus sign the literal test is ExceedsOne of the cut pieces, and so is the value. */
  lemma PositiveLiteral(t: string)
    requires IsLiteralText(t) && (t == "" || t[0] != '-')
    ensures var l := ParseText(t);
      var c := CoefficientOf(DropSign(t));
      && AllDigits(IntegerOf(c)) && AllDigits(FractionOf(c))
      && AllDigits(DropSign(ExponentTextOf(DropSign(t))))
      && (ExceedsOne(IntegerOf(c), FractionOf(c), SignedOf(ExponentTextOf(DropSign(t)))) <==> Meaning(l) > 1.0)
  {
    hide IndexWhere, ParseText, CoefficientOf, ExponentTextOf, IntegerOf, FractionOf, NatOf, SignedOf, DropSign,
      Spell, Coefficient, IsLiteralText, ExponentOf, Magnitude, ExceedsOne;
    var l := ParseText(t);
    PartsOf(t);
    ExceedsOneIsExact(l.integer, l.fraction, ExponentOf(l));
  }
}
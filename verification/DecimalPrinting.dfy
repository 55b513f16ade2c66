/** Printing units and canonicalising literals are the same function of the value. */
module DecimalPrinting {
  import opened Text
  import opened Digits
  import opened NumericEvidence
  import opened DecimalValue
  import opened DecimalExact

  /** The digits before the point: no leading zero unless they are just "0". */
  predicate IsWhole(s: string) {
    AllDigits(s) && s != "" && (s[0] != '0' || s == "0")
  }

  ghost function WithFraction(whole: string, fraction: string): string {
    whole + (if fraction == "" then "" else "." + fraction)
  }

  lemma {:induction false} TextOfIsUnique(s: string)
    requires IsWhole(s)
    ensures TextOf(NatOf(s)) == s
  {
    hide NatOf, TextOf;
    var t := TextOf(NatOf(s));
    NoDigits();
    if s == "0" {
      if t != "0" { NatOfPositive(t, 0); }
    } else {
      NatOfPositive(s, 0);
      NatOfInjectiveLead(s, t);
    }
  }

  lemma PaddedIsUnique(s: string)
    requires AllDigits(s) && |s| == SCALE
    ensures NatOf(s) < UNITS_PER_ONE && Padded(NatOf(s)) == s
  {
    hide NatOf, TextOf, Power;
    var t := TextOf(NatOf(s));
    NatOfBound(s);
    PowerTable();
    if |t| > SCALE {
      NatOfLead(t);
      PowerMonotone(SCALE, |t| - 1);
    }
    var z := Zeros(SCALE - |t|);
    NatOfZeros(SCALE - |t|);
    NatOfConcat(z, t);
    assert NatOf(z) * Power(|t|) == 0;
    assert |z + t| == SCALE;
    NatOfInjective(z + t, s);
    if |t| == SCALE { assert z + t == t; }
  }

  /** Printing whole and fraction digits that make up the units. */
  lemma PrintParts(units: int, whole: string, padded: string)
    requires IsWhole(whole) && AllDigits(padded) && |padded| == SCALE
    requires (if units < 0 then -units else units) == NatOf(whole) * UNITS_PER_ONE + NatOf(padded)
    ensures DecimalFromCanonicalUnits(units) ==
      SignText(units < 0) + WithFraction(whole, StripTrailing(padded))
  {
    hide NatOf, TextOf, Padded, StripTrailing;
    TextOfIsUnique(whole);
    PaddedIsUnique(padded);
    var absolute := if units < 0 then -units else units;
    assert absolute / UNITS_PER_ONE == NatOf(whole) && absolute % UNITS_PER_ONE == NatOf(padded);
  }

  lemma {:induction false} StripAdded(s: string, k: nat)
    requires AllDigits(s) && s != "" && s[|s| - 1] != '0'
    ensures AllDigits(s + Zeros(k)) && StripTrailing(s + Zeros(k)) == s
  {
    if k == 0 {
      assert s + Zeros(0) == s;
    } else {
      StripAdded(s, k - 1);
      assert (s + Zeros(k))[..|s| + k - 1] == s + Zeros(k - 1);
    }
  }

  lemma {:induction false} StripZeros(k: nat)
    ensures StripTrailing(Zeros(k)) == ""
  {
    if k > 0 {
      StripZeros(k - 1);
      assert Zeros(k)[..k - 1] == Zeros(k - 1);
    }
  }

  lemma UnitsProduct(n: nat, p: nat)
    ensures (n * Power(p)) * UNITS_PER_ONE == n * Power(p + SCALE)
  {
    hide Power;
    PowerAdd(p, SCALE);
    PowerTable();
    assert (n * Power(p)) * UNITS_PER_ONE == n * (Power(p) * UNITS_PER_ONE);
  }

  /** A nonnegative power: whole digits followed by zeros. */
  lemma PrintWhole(digits: string, power: nat, units: int)
    requires HasNormalEnds(digits)
    requires (if units < 0 then -units else units) == NatOf(digits) * Power(power + SCALE)
    ensures DecimalFromCanonicalUnits(units) == SignText(units < 0) + digits + Zeros(power)
  {
    hide NatOf, Power, DecimalFromCanonicalUnits, StripTrailing;
    var whole := digits + Zeros(power);
    NatOfConcat(digits, Zeros(power));
    NatOfZeros(power);
    NatOfZeros(SCALE);
    UnitsProduct(NatOf(digits), power);
    PrintParts(units, whole, Zeros(SCALE));
    StripZeros(SCALE);
    assert SignText(units < 0) + (whole + "") == SignText(units < 0) + digits + Zeros(power);
  }

  /** Whole digits a and fraction digits b: the units they make. */
  lemma SplitUnits(a: string, b: string, power: int)
    requires AllDigits(a) && AllDigits(b) && |b| == -power && |b| <= SCALE
    ensures AllDigits(a + b) && AllDigits(b + Zeros(power + SCALE))
    ensures NatOf(a + b) * Power(power + SCALE) == NatOf(a) * UNITS_PER_ONE + NatOf(b + Zeros(power + SCALE))
  {
    hide NatOf, Power;
    var k := power + SCALE;
    NatOfConcat(a, b);
    NatOfConcat(b, Zeros(k));
    NatOfZeros(k);
    PowerAdd(|b|, k);
    PowerTable();
    var x, y, n, m := Power(|b|), Power(k), NatOf(a), NatOf(b);
    assert (n * x + m) * y == n * (x * y) + m * y;
  }

  /** A negative power with whole digits. */
  lemma PrintSplit(digits: string, power: int, units: int)
    requires HasNormalEnds(digits) && -SCALE <= power < 0 < |digits| + power
    requires (if units < 0 then -units else units) == NatOf(digits) * Power(power + SCALE)
    ensures DecimalFromCanonicalUnits(units) ==
      SignText(units < 0) + digits[..|digits| + power] + "." + digits[|digits| + power..]
  {
    hide NatOf, Power, DecimalFromCanonicalUnits, StripTrailing;
    var a, b := digits[..|digits| + power], digits[|digits| + power..];
    assert digits == a + b;
    SplitUnits(a, b, power);
    PrintParts(units, a, b + Zeros(power + SCALE));
    StripAdded(b, power + SCALE);
    assert SignText(units < 0) + (a + ("." + b)) == SignText(units < 0) + a + "." + b;
  }

  /** A negative power without whole digits. */
  lemma PrintFraction(digits: string, power: int, units: int)
    requires HasNormalEnds(digits) && -SCALE <= power < 0 && |digits| + power <= 0
    requires (if units < 0 then -units else units) == NatOf(digits) * Power(power + SCALE)
    ensures DecimalFromCanonicalUnits(units) ==
      SignText(units < 0) + "0." + Zeros(-(|digits| + power)) + digits
  {
    hide NatOf, Power, DecimalFromCanonicalUnits, StripTrailing;
    var k := -(|digits| + power);
    var z := Zeros(k);
    var b := z + digits;
    NoDigits();
    NatOfZeros(k);
    NatOfConcat(z, digits);
    assert NatOf(z) * Power(|digits|) == 0;
    SplitUnits("0", b, power);
    NatOfConcat("0", b);
    assert NatOf("0") * Power(|b|) == 0;
    PrintParts(units, "0", b + Zeros(power + SCALE));
    StripAdded(b, power + SCALE);
    assert SignText(units < 0) + ("0" + ("." + b)) == SignText(units < 0) + "0." + z + digits;
  }

  lemma PrintZero()
    ensures DecimalFromCanonicalUnits(0) == "0"
  {
    NoDigits();
    NatOfZeros(SCALE);
    StripZeros(SCALE);
    hide NatOf, DecimalFromCanonicalUnits, StripTrailing;
    PrintParts(0, "0", Zeros(SCALE));
  }

  lemma PrintNormal(n: Normal, units: int)
    requires IsNormal(n) && !n.zero && Fits(n) && (n.negative <==> units < 0)
    requires (if units < 0 then -units else units) == NatOf(n.digits) * Power(n.power + SCALE)
    ensures DecimalFromCanonicalUnits(units) == PlainText(n)
  {
    hide NatOf, Power, DecimalFromCanonicalUnits, AllDigits;
    if n.power >= 0 {
      PrintWhole(n.digits, n.power, units);
    } else if |n.digits| + n.power > 0 {
      PrintSplit(n.digits, n.power, units);
    } else {
      PrintFraction(n.digits, n.power, units);
    }
  }

  /** Canonicalising is printing the units: both refuse the same literals and agree on the rest. */
  lemma CanonicalIsPrintedUnits(value: string)
    ensures CanonicalizeDecimalLiteral(value).Some? <==> CanonicalDecimalUnits(value).Some?
    ensures CanonicalDecimalUnits(value).Some? ==>
      CanonicalizeDecimalLiteral(value) == Some(DecimalFromCanonicalUnits(CanonicalDecimalUnits(value).value))
  {
    hide NormalizeDecimalLiteral, NatOf, Power, DecimalFromCanonicalUnits, PlainText, AllDigits, IsDecimalNumberLiteral;
    var normalized := NormalizeDecimalLiteral(value);
    if normalized.Some? && Fits(normalized.value) {
      var n := normalized.value;
      PrintZero();
      if !n.zero {
        UnitsSign(n.digits, n.power);
        PrintNormal(n, CanonicalDecimalUnits(value).value);
      }
    }
  }

  lemma UnitsSign(digits: string, power: int)
    requires HasNormalEnds(digits) && -power <= SCALE
    ensures NatOf(digits) * Power(power + SCALE) > 0
  {
    hide NatOf, Power;
    NatOfPositive(digits, 0);
  }

  // ----- reading printed units back -----

  lemma SmallFraction(n: nat)
    requires n < UNITS_PER_ONE
    ensures |Padded(n)| == SCALE && NatOf(Padded(n)) == n
  {
    hide NatOf, TextOf, Power;
    var t := TextOf(n);
    PowerTable();
    NoDigits();
    if |t| > SCALE {
      NatOfLead(t);
      PowerMonotone(SCALE, |t| - 1);
    }
    NatOfZeros(SCALE - |t|);
    NatOfConcat(Zeros(SCALE - |t|), t);
    assert 0 * Power(|t|) == 0;
  }

  /** The grammar tree of printed units. */
  ghost function PrintedLiteral(units: int): Literal {
    var absolute := if units < 0 then -units else units;
    var fraction := StripTrailing(Padded(absolute % UNITS_PER_ONE));
    Literal(SignText(units < 0), TextOf(absolute / UNITS_PER_ONE), fraction != "", fraction, "", "", "")
  }

  lemma PrintedIsSpelled(units: int)
    ensures var l := PrintedLiteral(units);
      WellFormed(l) && Spell(l) == DecimalFromCanonicalUnits(units) && Trim(Spell(l)) == Spell(l)
  {
    hide NatOf, TextOf, Padded, StripTrailing, Trim;
    var l := PrintedLiteral(units);
    var s := DecimalFromCanonicalUnits(units);
    assert Spell(l) == s;
    var last := if l.fraction == "" then l.integer else l.fraction;
    assert s[|s| - 1] == last[|last| - 1];
    assert IsDigit(s[|s| - 1]) && (s[0] == '-' || IsDigit(s[0]));
    TrimKeepsTrimmed(s);
  }

  lemma PrintedMagnitude(absolute: nat)
    ensures var f := StripTrailing(Padded(absolute % UNITS_PER_ONE));
      var w := TextOf(absolute / UNITS_PER_ONE);
      AllDigits(w + f) && Magnitude(w + f, -|f|) * 1000000.0 == absolute as real
  {
    hide NatOf, TextOf, Padded, StripTrailing, Power, Magnitude;
    var n := absolute % UNITS_PER_ONE;
    var w, padded := TextOf(absolute / UNITS_PER_ONE), Padded(n);
    var f := StripTrailing(padded);
    SmallFraction(n);
    StrippedTrailing(padded);
    SplitUnits(w, f, -|f|);
    ScaledMagnitude(w + f, -|f|);
    NaturalMagnitude(w + f, SCALE - |f|);
  }

  lemma PrintedMeaning(units: int)
    ensures var l := PrintedLiteral(units);
      WellFormed(l) && Meaning(l) * 1000000.0 == units as real
  {
    hide NatOf, TextOf, Padded, StripTrailing, Power, Magnitude, DecimalFromCanonicalUnits, Spell, WellFormed, Trim;
    PrintedIsSpelled(units);
    PrintedMagnitude(if units < 0 then -units else units);
    NoDigits();
    var l := PrintedLiteral(units);
    DigitsOf(l);
    assert ExponentOf(l) == 0;
    NegatedScale(Magnitude(l.integer + l.fraction, -|l.fraction|));
  }

  /** Printed units denote their exact value, however many they are. */
  lemma PrintedValueIsExact(units: int)
    ensures var s := DecimalFromCanonicalUnits(units);
      IsDecimalNumberLiteral(s) && Value(s) * 1000000.0 == units as real
  {
    hide PrintedLiteral, DecimalFromCanonicalUnits, Spell, WellFormed, Meaning, Trim, Value, IsDecimalNumberLiteral,
      InputExponent;
    PrintedIsSpelled(units);
    PrintedMeaning(units);
    PrintedExponent(units);
    ValueOfSpelling(DecimalFromCanonicalUnits(units), PrintedLiteral(units));
  }

  /** Units below the bound are read back from their printing. */
  lemma PrintedUnitsReadBack(units: int)
    requires -UNITS_BOUND < units < UNITS_BOUND
    ensures CanonicalDecimalUnits(DecimalFromCanonicalUnits(units)) == Some(units)
  {
    hide PrintedLiteral, DecimalFromCanonicalUnits, Spell, WellFormed, Meaning, Trim, Value, CanonicalDecimalUnits,
      IsDecimalNumberLiteral, InputExponent;
    var s := DecimalFromCanonicalUnits(units);
    PrintedIsSpelled(units);
    PrintedMeaning(units);
    PrintedExponent(units);
    ValueOfSpelling(s, PrintedLiteral(units));
    UnitsAreExact(s, units);
  }

  lemma SameScale(x: real, y: real, u: int)
    requires x * 1000000.0 == u as real && y * 1000000.0 == u as real
    ensures x == y
  {
  }

  lemma ScaledSum(x: real, y: real, u: int, v: int)
    requires x * 1000000.0 == u as real && y * 1000000.0 == v as real
    ensures (x + y) * 1000000.0 == (u + v) as real
  {
  }

  lemma NegatedScale(x: real)
    ensures (-x) * 1000000.0 == -(x * 1000000.0)
  {
  }

  lemma PrintedExponent(units: int)
    ensures var s := DecimalFromCanonicalUnits(units);
      IsDecimalNumberLiteral(s) && InputExponent(s) == 0
  {
    var l := PrintedLiteral(units);
    PrintedIsSpelled(units);
    hide NatOf, TextOf, Padded, StripTrailing, DecimalFromCanonicalUnits, Spell, WellFormed, Trim, IsLiteralText,
      CoefficientOf, IntegerOf, FractionOf, ExponentTextOf, DropSign, IndexWhere, Coefficient;
    SpelledIsLiteral(l);
    CutExponent(l);
    CutExponentSign(l);
    NoDigits();
  }

  /** Canonicalising twice is canonicalising once, and keeps the units. */
  lemma CanonicalIsIdempotent(value: string)
    requires CanonicalizeDecimalLiteral(value).Some?
    ensures var c := CanonicalizeDecimalLiteral(value).value;
      && CanonicalizeDecimalLiteral(c) == Some(c)
      && CanonicalDecimalUnits(c) == CanonicalDecimalUnits(value)
  {
    hide CanonicalizeDecimalLiteral, CanonicalDecimalUnits, DecimalFromCanonicalUnits, IsDecimalNumberLiteral,
      InputExponent;
    CanonicalIsPrintedUnits(value);
    var u := CanonicalDecimalUnits(value).value;
    UnitsAreExact(value, u);
    PrintedUnitsReadBack(u);
    CanonicalIsPrintedUnits(CanonicalizeDecimalLiteral(value).value);
  }

  /** The canonical form of a literal denotes its value. */
  lemma CanonicalKeepsValue(value: string)
    requires CanonicalizeDecimalLiteral(value).Some?
    ensures IsDecimalNumberLiteral(value) && IsDecimalNumberLiteral(CanonicalizeDecimalLiteral(value).value)
    ensures Value(CanonicalizeDecimalLiteral(value).value) == Value(value)
  {
    hide CanonicalizeDecimalLiteral, CanonicalDecimalUnits, DecimalFromCanonicalUnits, Value, IsDecimalNumberLiteral;
    CanonicalIsPrintedUnits(value);
    var units := CanonicalDecimalUnits(value).value;
    PrintedValueIsExact(units);
    UnitsAreExact(value, units);
    SameScale(Value(DecimalFromCanonicalUnits(units)), Value(value), units);
  }

  /** The text "0" is exactly the canonical form of the value 0. */
  lemma CanonicalZero(value: string)
    requires CanonicalizeDecimalLiteral(value).Some?
    ensures IsDecimalNumberLiteral(value)
    ensures CanonicalizeDecimalLiteral(value) == Some("0") <==> Value(value) == 0.0
  {
    hide CanonicalizeDecimalLiteral, CanonicalDecimalUnits, DecimalFromCanonicalUnits, IsDecimalNumberLiteral,
      InputExponent, Value;
    CanonicalIsPrintedUnits(value);
    var u := CanonicalDecimalUnits(value).value;
    UnitsAreExact(value, u);
    PrintedUnitsReadBack(u);
    PrintedUnitsReadBack(0);
    PrintZero();
  }
}

/** Exact decimal literals: recognition, normal form, NUMERIC(20,6) fit, units, printing. */
module NumericEvidence {
  import opened Text
  import opened Digits

  const MAX_INPUT_EXPONENT := 2147483647
  const MIN_INPUT_EXPONENT := -2147483648
  const PRECISION := 20
  const SCALE := 6

  /** 10n ** CANONICAL_NUMERIC_SCALE */
  const UNITS_PER_ONE: nat := 1_000_000

  predicate IsSign(c: char) { c == '+' || c == '-' }

  predicate IsExponentMark(c: char) { c == 'e' || c == 'E' }

  predicate IsNonzeroDigit(c: char) { '1' <= c <= '9' }

  /** The first position whose character satisfies p, or the length. */
  function IndexWhere(s: string, p: char -> bool): (r: nat)
    ensures r <= |s| && (r < |s| ==> p(s[r]))
    ensures forall i | 0 <= i < r :: !p(s[i])
  {
    if s == "" || p(s[0]) then 0 else 1 + IndexWhere(s[1..], p)
  }

  function DropSign(s: string): string {
    if s != "" && IsSign(s[0]) then s[1..] else s
  }

  /** The pieces of split(/e/i), the second one defaulting to "0". */
  function CoefficientOf(unsigned: string): string {
    unsigned[..IndexWhere(unsigned, IsExponentMark)]
  }

  function ExponentTextOf(unsigned: string): string {
    var i := IndexWhere(unsigned, IsExponentMark);
    if i < |unsigned| then unsigned[i + 1..] else "0"
  }

  /** The pieces of split("."), the second one defaulting to the empty string. */
  function IntegerOf(coefficient: string): string {
    coefficient[..IndexWhere(coefficient, c => c == '.')]
  }

  function FractionOf(coefficient: string): string {
    var i := IndexWhere(coefficient, c => c == '.');
    if i < |coefficient| then coefficient[i + 1..] else ""
  }

  /** The regular expression of a decimal literal, matched by cutting at the mark and at the point. */
  predicate IsLiteralText(t: string) {
    var coefficient := CoefficientOf(DropSign(t));
    var exponent := DropSign(ExponentTextOf(DropSign(t)));
    && AllDigits(IntegerOf(coefficient)) && AllDigits(FractionOf(coefficient))
    && (IntegerOf(coefficient) != "" || FractionOf(coefficient) != "")
    && AllDigits(exponent) && exponent != ""
  }

  predicate IsDecimalNumberLiteral(value: string) {
    IsLiteralText(Trim(value))
  }

  /** BigInt of an optionally signed digit string. */
  function SignedOf(s: string): int
    requires AllDigits(DropSign(s))
  {
    var n: int := NatOf(DropSign(s));
    if s != "" && s[0] == '-' then -n else n
  }

  predicate IsExactZeroLiteral(value: string) {
    IsDecimalNumberLiteral(value) &&
    var coefficient := CoefficientOf(DropSign(Trim(value)));
    IndexWhere(coefficient, IsNonzeroDigit) == |coefficient|
  }

  predicate IsNegativeNumberLiteral(value: string) {
    && IsDecimalNumberLiteral(value)
    && Trim(value) != "" && Trim(value)[0] == '-'
    && !IsExactZeroLiteral(value)
  }

  /** A leading minus sign is neither an exponent mark nor part of the exponent. */
  lemma MinusKeepsExponent(t: string)
    ensures t != "" && t[0] == '-' ==> ExponentTextOf(t) == ExponentTextOf(t[1..])
  {
    if t != "" && t[0] == '-' {
      assert !IsExponentMark(t[0]);
    }
  }

  predicate IsGreaterThanOneLiteral(value: string) {
    MinusKeepsExponent(Trim(value));
    IsDecimalNumberLiteral(value) && !IsNegativeNumberLiteral(value) &&
    var t := Trim(value);
    var normalized := if t != "" && t[0] == '+' then t[1..] else t;
    var coefficient := CoefficientOf(normalized);
    var integer := if IntegerOf(coefficient) == "" then "0" else IntegerOf(coefficient);
    var digits := integer + FractionOf(coefficient);
    var first := IndexWhere(digits, IsNonzeroDigit);
    first < |digits| &&
    var leadingPower := SignedOf(ExponentTextOf(normalized)) + |integer| - first - 1;
    leadingPower > 0 ||
    (leadingPower == 0 &&
     var significant := digits[first..];
     significant[0] != '1' || IndexWhere(significant[1..], IsNonzeroDigit) < |significant| - 1)
  }

  datatype Normal = Normal(digits: string, exponent: int, negative: bool, power: int, zero: bool)

  /** No zero at either end of the digits, so that equal values have equal normal forms. */
  predicate IsNormal(n: Normal) {
    && AllDigits(n.digits) && n.digits != ""
    && (n.zero ==> n.digits == "0" && !n.negative && n.power == 0)
    && (!n.zero ==> n.digits[0] != '0' && n.digits[|n.digits| - 1] != '0')
  }

  function NormalizeDecimalLiteral(value: string): (r: Option<Normal>)
    ensures r.Some? <==> IsDecimalNumberLiteral(value)
    ensures r.Some? ==> IsNormal(r.value)
  {
    if !IsDecimalNumberLiteral(value) then None
    else
      var literal := Trim(value);
      var unsigned := DropSign(literal);
      var coefficient := CoefficientOf(unsigned);
      var exponent := SignedOf(ExponentTextOf(unsigned));
      var fraction := FractionOf(coefficient);
      var digits := StripLeading(IntegerOf(coefficient) + fraction);
      if digits == "" then Some(Normal("0", exponent, false, 0, true))
      else
        var stripped := StripTrailing(digits);
        StrippedTrailing(digits);
        Some(Normal(stripped, exponent, literal != "" && literal[0] == '-',
                    exponent - |fraction| + (|digits| - |stripped|), false))
  }

  predicate Fits(n: Normal) {
    && MIN_INPUT_EXPONENT <= n.exponent <= MAX_INPUT_EXPONENT
    && (n.zero || (|n.digits| + n.power <= PRECISION - SCALE && -n.power <= SCALE))
  }

  predicate IsCanonicalNumericLiteralRepresentable(value: string) {
    var n := NormalizeDecimalLiteral(value);
    n.Some? && Fits(n.value)
  }

  predicate AreDecimalLiteralsEquivalent(left: string, right: string) {
    var l := NormalizeDecimalLiteral(left);
    var r := NormalizeDecimalLiteral(right);
    l.Some? && r.Some? &&
    if l.value.zero || r.value.zero then l.value.zero && r.value.zero
    else l.value.negative == r.value.negative && l.value.digits == r.value.digits && l.value.power == r.value.power
  }

  function SignText(negative: bool): string { if negative then "-" else "" }

  /** The digits of a nonzero normal form with its point put in place. */
  function PlainText(n: Normal): string {
    if n.power >= 0 then SignText(n.negative) + n.digits + Zeros(n.power)
    else
      var decimalIndex := |n.digits| + n.power;
      if decimalIndex > 0 then
        SignText(n.negative) + n.digits[..decimalIndex] + "." + n.digits[decimalIndex..]
      else
        SignText(n.negative) + "0." + Zeros(-decimalIndex) + n.digits
  }

  function CanonicalizeDecimalLiteral(value: string): Option<string> {
    var normalized := NormalizeDecimalLiteral(value);
    if normalized == None || !IsCanonicalNumericLiteralRepresentable(value) then None
    else if normalized.value.zero then Some("0")
    else Some(PlainText(normalized.value))
  }

  function CanonicalDecimalUnits(value: string): Option<int> {
    var normalized := NormalizeDecimalLiteral(value);
    if normalized == None || !Fits(normalized.value) then None
    else
      var n := normalized.value;
      if n.zero then Some(0)
      else
        var units := NatOf(n.digits) * Power(n.power + SCALE);
        Some(if n.negative then -units else units)
  }

  /** -1, 0 or 1; None when the source throws CANONICAL_DECIMAL_INVALID. */
  function CompareCanonicalDecimals(left: string, right: string): Option<int> {
    var l := CanonicalDecimalUnits(left);
    var r := CanonicalDecimalUnits(right);
    if l == None || r == None then None
    else Some(if l.value < r.value then -1 else if l.value > r.value then 1 else 0)
  }

  function DecimalFromCanonicalUnits(units: int): string {
    var absolute := if units < 0 then -units else units;
    var whole := absolute / UNITS_PER_ONE;
    var fraction := StripTrailing(Padded(absolute % UNITS_PER_ONE));
    SignText(units < 0) + TextOf(whole) + (if fraction == "" then "" else "." + fraction)
  }

  function Padded(n: nat): (s: string)
    ensures AllDigits(s)
  {
    PadStart(TextOf(n), SCALE)
  }
}

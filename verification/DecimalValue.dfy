/** The rational value of a decimal literal, and the exactness of every operation of NumericEvidence. */
module DecimalValue {
  import opened Text
  import opened Digits
  import opened NumericEvidence

  // ----- the grammar of literals, independent of how they are cut -----

  /** Sign, digits, optional point and fraction, optional marked exponent. */
  datatype Literal = Literal(sign: string, integer: string, point: bool, fraction: string,
                             mark: string, exponentSign: string, exponent: string)

  const SIGNS: set<string> := {"", "+", "-"}

  ghost predicate WellFormed(l: Literal) {
    && l.sign in SIGNS && l.exponentSign in SIGNS && l.mark in {"", "e", "E"}
    && AllDigits(l.integer) && AllDigits(l.fraction) && AllDigits(l.exponent)
    && (l.integer != "" || l.fraction != "")
    && (!l.point ==> l.fraction == "")
    && (l.mark == "" ==> l.exponentSign == "" && l.exponent == "")
    && (l.mark != "" ==> l.exponent != "")
  }

  ghost function Coefficient(l: Literal): string {
    l.integer + (if l.point then "." else "") + l.fraction
  }

  ghost function Spell(l: Literal): string {
    l.sign + (Coefficient(l) + l.mark + l.exponentSign + l.exponent)
  }

  /** Coefficient times ten to the exponent, negated after a minus sign. */
  ghost function Meaning(l: Literal): real
    requires WellFormed(l)
  {
    var p := ExponentOf(l) - |l.fraction|;
    var m := Magnitude(l.integer + l.fraction, p);
    if l.sign == "-" then -m else m
  }

  ghost function Magnitude(digits: string, power: int): real
    requires AllDigits(digits)
  {
    NatOf(digits) as real * Pow10(power)
  }

  // ----- cutting a spelled literal gives its parts back -----

  lemma {:induction false} IndexAfter(a: string, b: string, p: char -> bool)
    requires forall i | 0 <= i < |a| :: !p(a[i])
    ensures IndexWhere(a + b, p) == |a| + IndexWhere(b, p)
  {
    if a == "" {
      assert a + b == b;
    } else {
      assert (a + b)[1..] == a[1..] + b;
      IndexAfter(a[1..], b, p);
    }
  }

  lemma CutSign(sign: string, rest: string)
    requires sign in SIGNS && rest != "" && !IsSign(rest[0])
    ensures DropSign(sign + rest) == rest
    ensures (sign + rest)[0] == '-' <==> sign == "-"
  {
    if sign == "" { assert sign + rest == rest; } else { assert (sign + rest)[1..] == rest; }
  }

  lemma CutAtMark(c: string, tail: string)
    requires forall i | 0 <= i < |c| :: !IsExponentMark(c[i])
    requires tail == "" || IsExponentMark(tail[0])
    ensures CoefficientOf(c + tail) == c
    ensures ExponentTextOf(c + tail) == if tail == "" then "0" else tail[1..]
  {
    IndexAfter(c, tail, IsExponentMark);
    assert (c + tail)[..|c|] == c;
    if tail != "" { assert (c + tail)[|c| + 1..] == tail[1..]; }
  }

  lemma CutAtPoint(integer: string, tail: string)
    requires AllDigits(integer) && (tail == "" || tail[0] == '.')
    ensures IntegerOf(integer + tail) == integer
    ensures FractionOf(integer + tail) == if tail == "" then "" else tail[1..]
  {
    IndexAfter(integer, tail, c => c == '.');
    assert (integer + tail)[..|integer|] == integer;
    if tail != "" { assert (integer + tail)[|integer| + 1..] == tail[1..]; }
  }

  lemma CutSpelled(l: Literal)
    requires WellFormed(l)
    ensures Spell(l) != "" && (l.sign == "-" <==> Spell(l)[0] == '-')
    ensures DropSign(Spell(l)) == Coefficient(l) + (l.mark + l.exponentSign + l.exponent)
  {
    var c, tail := Coefficient(l), l.mark + l.exponentSign + l.exponent;
    assert c != "" && (c[0] == '.' || IsDigit(c[0]));
    assert Spell(l) == l.sign + (c + tail);
    CutSign(l.sign, c + tail);
  }

  lemma NoMarkIn(l: Literal)
    requires WellFormed(l)
    ensures forall i | 0 <= i < |Coefficient(l)| :: !IsExponentMark(Coefficient(l)[i])
  {
    var c := Coefficient(l);
    assert forall i | 0 <= i < |c| :: c[i] == '.' || IsDigit(c[i]);
  }

  lemma CutExponent(l: Literal)
    requires WellFormed(l)
    ensures CoefficientOf(DropSign(Spell(l))) == Coefficient(l)
    ensures ExponentTextOf(DropSign(Spell(l))) == if l.mark == "" then "0" else l.exponentSign + l.exponent
  {
    CutSpelled(l);
    NoMarkIn(l);
    var tail := l.mark + l.exponentSign + l.exponent;
    hide CoefficientOf, ExponentTextOf, Coefficient, Spell, DropSign;
    if l.mark == "" {
      assert tail == "";
    } else {
      assert tail[1..] == l.exponentSign + l.exponent;
    }
    CutAtMark(Coefficient(l), tail);
  }

  lemma CutPoint(l: Literal)
    requires WellFormed(l)
    ensures IntegerOf(Coefficient(l)) == l.integer && FractionOf(Coefficient(l)) == l.fraction
  {
    var tail := (if l.point then "." else "") + l.fraction;
    assert Coefficient(l) == l.integer + tail;
    CutAtPoint(l.integer, tail);
    if l.point { assert tail[1..] == l.fraction; }
  }

  function LeadingSign(s: string): (r: string)
    ensures r in SIGNS && s == r + DropSign(s)
  {
    if s != "" && IsSign(s[0]) then [s[0]] else ""
  }

  lemma SplitAt(s: string, i: nat)
    requires i < |s|
    ensures s == s[..i] + [s[i]] + s[i + 1..]
  {
  }

  lemma MarkRejoins(u: string)
    ensures var i := IndexWhere(u, IsExponentMark);
      if i < |u| then u == CoefficientOf(u) + [u[i]] + ExponentTextOf(u) && IsExponentMark(u[i])
      else u == CoefficientOf(u)
  {
    hide IndexWhere;
    var i := IndexWhere(u, IsExponentMark);
    if i < |u| { SplitAt(u, i); }
  }

  lemma PointRejoins(c: string)
    ensures var i := IndexWhere(c, ch => ch == '.');
      if i < |c| then c == IntegerOf(c) + "." + FractionOf(c)
      else c == IntegerOf(c) && FractionOf(c) == ""
  {
    hide IndexWhere;
    var i := IndexWhere(c, ch => ch == '.');
    if i < |c| { SplitAt(c, i); }
  }

  /** A grammar tree for a recognised text. */
  ghost function ParseText(t: string): (l: Literal)
    requires IsLiteralText(t)
    ensures WellFormed(l) && Spell(l) == t
  {
    var u := DropSign(t);
    var c := CoefficientOf(u);
    var i := IndexWhere(u, IsExponentMark);
    var point := IndexWhere(c, ch => ch == '.') < |c|;
    var x := ExponentTextOf(u);
    hide IndexWhere, CoefficientOf, ExponentTextOf, IntegerOf, FractionOf, DropSign;
    MarkRejoins(u);
    PointRejoins(c);
    if i < |u| then Literal(LeadingSign(t), IntegerOf(c), point, FractionOf(c), [u[i]], LeadingSign(x), DropSign(x))
    else Literal(LeadingSign(t), IntegerOf(c), point, FractionOf(c), "", "", "")
  }

  lemma NoDigits()
    ensures NatOf("") == 0 && NatOf("0") == 0
  {
    assert "0"[..0] == "";
  }

  ghost function ExponentOf(l: Literal): int
    requires AllDigits(l.exponent)
  {
    var e: int := NatOf(l.exponent);
    if l.exponentSign == "-" then -e else e
  }

  lemma CutExponentSign(l: Literal)
    requires WellFormed(l)
    ensures var x := if l.mark == "" then "0" else l.exponentSign + l.exponent;
      AllDigits(DropSign(x)) && DropSign(x) != "" && SignedOf(x) == ExponentOf(l)
  {
    if l.mark != "" {
      CutSign(l.exponentSign, l.exponent);
    } else {
      NoDigits();
    }
  }

  lemma DigitsOf(l: Literal)
    requires WellFormed(l)
    ensures AllDigits(l.integer + l.fraction) && AllDigits(l.exponent)
  {
  }

  /** Every cut of a spelled literal. */
  lemma CutsOfSpelled(l: Literal)
    requires WellFormed(l)
    ensures var u := DropSign(Spell(l)); var c := CoefficientOf(u); var x := ExponentTextOf(u);
      && c == Coefficient(l) && IntegerOf(c) == l.integer && FractionOf(c) == l.fraction
      && AllDigits(DropSign(x)) && DropSign(x) != "" && SignedOf(x) == ExponentOf(l)
      && (Spell(l) != "" && Spell(l)[0] == '-' <==> l.sign == "-")
  {
    hide IndexWhere, CoefficientOf, ExponentTextOf, IntegerOf, FractionOf, NatOf, SignedOf, DropSign, AllDigits,
      WellFormed, Spell, Coefficient, ExponentOf;
    CutSpelled(l);
    CutExponent(l);
    CutPoint(l);
    DigitsOf(l);
    CutExponentSign(l);
  }

  lemma SpelledIsLiteral(l: Literal)
    requires WellFormed(l)
    ensures IsLiteralText(Spell(l))
  {
    hide IndexWhere, CoefficientOf, ExponentTextOf, IntegerOf, FractionOf, NatOf, SignedOf, DropSign, AllDigits,
      Spell, Coefficient, ExponentOf;
    CutsOfSpelled(l);
  }

  /** The recogniser accepts exactly the trimmed spellings of the grammar. */
  lemma LiteralsAreTheGrammar(value: string)
    ensures IsDecimalNumberLiteral(value) <==> exists l :: WellFormed(l) && Spell(l) == Trim(value)
  {
    hide Trim, IsLiteralText, WellFormed, Spell, ParseText;
    if IsDecimalNumberLiteral(value) {
      var l := ParseText(Trim(value));
    }
    forall l | WellFormed(l) && Spell(l) == Trim(value) ensures IsDecimalNumberLiteral(value) {
      SpelledIsLiteral(l);
    }
  }

  // ----- values -----

  ghost function Value(value: string): real
    requires IsDecimalNumberLiteral(value)
  {
    Meaning(ParseText(Trim(value)))
  }

  ghost function Denoted(n: Normal): real
    requires IsNormal(n)
  {
    var m := Magnitude(n.digits, n.power);
    if n.negative then -m else m
  }

  /** What the cuts of a recognised text are, in terms of its grammar. */
  lemma PartsOf(t: string)
    requires IsLiteralText(t)
    ensures var l := ParseText(t);
      && WellFormed(l)
      && AllDigits(l.integer + l.fraction) && AllDigits(l.exponent)
      && CoefficientOf(DropSign(t)) == Coefficient(l)
      && IntegerOf(Coefficient(l)) == l.integer && FractionOf(Coefficient(l)) == l.fraction
      && AllDigits(DropSign(ExponentTextOf(DropSign(t))))
      && SignedOf(ExponentTextOf(DropSign(t))) == ExponentOf(l)
      && (t != "" && t[0] == '-' <==> l.sign == "-")
  {
    hide IndexWhere, ParseText, CoefficientOf, ExponentTextOf, IntegerOf, FractionOf, NatOf, SignedOf, DropSign,
      AllDigits, WellFormed, Spell, Coefficient, IsLiteralText, ExponentOf;
    var l := ParseText(t);
    CutsOfSpelled(l);
    DigitsOf(l);
  }

  lemma RealCancel(x: real, y: real, p: real)
    requires p > 0.0 && x * p == y * p
    ensures x == y
  {
    assert (x - y) * p == 0.0;
  }

  /** Moving k zeros between the digits and the power. */
  lemma MagnitudeShift(n: nat, k: nat, p: int)
    ensures (n * Power(k)) as real * Pow10(p) == n as real * Pow10(p + k)
  {
    hide *;
    Pow10Nat(k);
    Pow10Add(p, k);
    var x, y, z := n as real, Power(k) as real, Pow10(p);
    assert (n * Power(k)) as real == x * y;
    assert (x * y) * z == x * (z * y);
  }

  lemma MagnitudeZero(digits: string, p: int)
    requires AllDigits(digits)
    ensures Magnitude(digits, p) == 0.0 <==> NatOf(digits) == 0
    ensures Magnitude(digits, p) >= 0.0
  {
    hide Pow10, NatOf;
    var n, z := NatOf(digits) as real, Pow10(p);
    if NatOf(digits) > 0 { assert n * z > 0.0; }
  }

  lemma MagnitudeEqual(n: nat, a: string, b: string, k: nat, p: int)
    requires AllDigits(a) && AllDigits(b) && NatOf(a) == n && n == NatOf(b) * Power(k)
    ensures Magnitude(a, p) == Magnitude(b, p + k)
  {
    hide NatOf, Power, Pow10;
    MagnitudeShift(NatOf(b), k, p);
  }

  /** The digits that remain after stripping both ends, and the zeros lost at the end. */
  lemma StripKeepsMagnitude(digits: string, p: int)
    requires AllDigits(digits)
    ensures var d := StripLeading(digits); var r := StripTrailing(d);
      Magnitude(r, p + (|d| - |r|)) == Magnitude(digits, p)
  {
    hide NatOf, Power, Pow10, Magnitude, StripLeading, StripTrailing, AllDigits;
    var d := StripLeading(digits);
    NatOfStripLeading(digits);
    NatOfStripTrailing(d);
    MagnitudeEqual(NatOf(digits), digits, StripTrailing(d), |d| - |StripTrailing(d)|, p);
  }

  /** The written exponent of a literal, zero when there is none. */
  ghost function InputExponent(value: string): int
    requires IsDecimalNumberLiteral(value)
  {
    ExponentOf(ParseText(Trim(value)))
  }

  /** Normalisation keeps the value and reads the written exponent. */
  lemma NormalizeKeepsValue(value: string)
    requires IsDecimalNumberLiteral(value)
    ensures var n := NormalizeDecimalLiteral(value).value;
      && n.exponent == InputExponent(value)
      && (n.zero <==> Value(value) == 0.0)
      && (!n.zero ==> Denoted(n) == Value(value))
      && (!n.zero ==> (n.negative <==> Value(value) < 0.0))
  {
    hide Pow10, NatOf, Magnitude, ParseText, IndexWhere, Trim, StripLeading, StripTrailing, SignedOf, CoefficientOf,
      IntegerOf, FractionOf, ExponentTextOf, DropSign, AllDigits, WellFormed, IsLiteralText, Coefficient, Spell;
    var t := Trim(value);
    var l := ParseText(t);
    PartsOf(t);
    var digits := l.integer + l.fraction;
    var p := ExponentOf(l) - |l.fraction|;
    NatOfStripLeading(digits);
    MagnitudeZero(digits, p);
    StripKeepsMagnitude(digits, p);
  }

  /** A text has one meaning: two grammar trees that spell it agree on every part that counts. */
  lemma SpellingIsUnambiguous(l: Literal, m: Literal)
    requires WellFormed(l) && WellFormed(m) && Spell(l) == Spell(m)
    ensures Meaning(l) == Meaning(m) && ExponentOf(l) == ExponentOf(m)
  {
    hide IndexWhere, CoefficientOf, ExponentTextOf, IntegerOf, FractionOf, NatOf, SignedOf, DropSign, AllDigits,
      WellFormed, Spell, Coefficient, ExponentOf, Magnitude;
    CutsOfSpelled(l);
    CutsOfSpelled(m);
    DigitsOf(l);
    DigitsOf(m);
  }

  lemma ValueOfSpelling(value: string, l: Literal)
    requires WellFormed(l) && Trim(value) == Spell(l)
    ensures IsDecimalNumberLiteral(value) && Value(value) == Meaning(l) && InputExponent(value) == ExponentOf(l)
  {
    hide WellFormed, Spell, IsLiteralText, Trim, ParseText, Meaning;
    SpelledIsLiteral(l);
    SpellingIsUnambiguous(l, ParseText(Trim(value)));
  }
}

/** Decimal digits, natural numbers and powers of ten: the arithmetic under numeric evidence. */
module Digits {

  predicate IsDigit(c: char) { '0' <= c <= '9' }

  predicate AllDigits(s: string) { forall i | 0 <= i < |s| :: IsDigit(s[i]) }

  function DigitValue(c: char): (d: nat)
    requires IsDigit(c)
    ensures d < 10
  {
    c as int - '0' as int
  }

  /** BigInt of a digit string; the empty string is 0. */
  function NatOf(s: string): nat
    requires AllDigits(s)
  {
    if s == "" then 0 else 10 * NatOf(s[..|s| - 1]) + DigitValue(s[|s| - 1])
  }

  function Zeros(n: nat): (s: string)
    ensures |s| == n && AllDigits(s)
    ensures forall i | 0 <= i < n :: s[i] == '0'
  {
    seq(n, _ => '0')
  }

  function Power(n: nat): (p: nat)
    ensures p > 0
  {
    if n == 0 then 1 else 10 * Power(n - 1)
  }

  lemma Scale(x: int, p: int)
    ensures 10 * (x * p) == x * (10 * p)
  {
  }

  lemma ScaleReal(x: real, y: real)
    ensures 10.0 * (x * y) == (10.0 * x) * y
  {
  }

  lemma {:induction false} PowerAdd(m: nat, n: nat)
    ensures Power(m + n) == Power(m) * Power(n)
  {
    if m > 0 {
      PowerAdd(m - 1, n);
      Scale(Power(n), Power(m - 1));
    }
  }

  lemma {:induction false} PowerMonotone(m: nat, n: nat)
    requires m <= n
    ensures Power(m) <= Power(n)
  {
    if m < n { PowerMonotone(m, n - 1); }
  }

  lemma {:induction false} NatOfConcat(a: string, b: string)
    requires AllDigits(a) && AllDigits(b)
    ensures AllDigits(a + b)
    ensures NatOf(a + b) == NatOf(a) * Power(|b|) + NatOf(b)
  {
    if b == "" {
      assert a + b == a;
    } else {
      var c := b[..|b| - 1];
      assert (a + b)[..|a + b| - 1] == a + c;
      NatOfConcat(a, c);
      Scale(NatOf(a), Power(|c|));
    }
  }

  lemma {:induction false} NatOfZeros(n: nat)
    ensures NatOf(Zeros(n)) == 0
  {
    if n > 0 {
      NatOfZeros(n - 1);
      assert Zeros(n)[..n - 1] == Zeros(n - 1);
    }
  }

  lemma {:induction false} NatOfBound(s: string)
    requires AllDigits(s)
    ensures NatOf(s) < Power(|s|)
  {
    if s != "" { NatOfBound(s[..|s| - 1]); }
  }

  /** A digit string that starts with a nonzero digit denotes at least the leading power of ten. */
  lemma {:induction false} NatOfLead(s: string)
    requires AllDigits(s) && s != "" && s[0] != '0'
    ensures NatOf(s) >= Power(|s| - 1)
  {
    NatOfConcat(s[..1], s[1..]);
    assert s == s[..1] + s[1..];
    assert s[..1][..0] == "";
    assert NatOf(s[..1]) == DigitValue(s[0]) >= 1;
    assert NatOf(s[..1]) * Power(|s| - 1) >= Power(|s| - 1);
  }

  /** Digit strings of one length are determined by the number they denote. */
  lemma {:induction false} NatOfInjective(a: string, b: string)
    requires AllDigits(a) && AllDigits(b) && |a| == |b| && NatOf(a) == NatOf(b)
    ensures a == b
  {
    if a != "" {
      assert a[|a| - 1] == b[|b| - 1] && NatOf(a[..|a| - 1]) == NatOf(b[..|b| - 1]);
      NatOfInjective(a[..|a| - 1], b[..|b| - 1]);
      assert a == a[..|a| - 1] + [a[|a| - 1]] && b == b[..|b| - 1] + [b[|b| - 1]];
    }
  }

  lemma ShorterIsSmaller(a: string, b: string)
    requires AllDigits(a) && AllDigits(b) && |a| < |b| && b[0] != '0'
    ensures NatOf(a) < NatOf(b)
  {
    NatOfBound(a);
    NatOfLead(b);
    PowerMonotone(|a|, |b| - 1);
  }

  /** Without leading zeros even the length is determined. */
  lemma NatOfInjectiveLead(a: string, b: string)
    requires AllDigits(a) && (a == "" || a[0] != '0')
    requires AllDigits(b) && (b == "" || b[0] != '0')
    requires NatOf(a) == NatOf(b)
    ensures a == b
  {
    if |a| < |b| {
      ShorterIsSmaller(a, b);
    } else if |b| < |a| {
      ShorterIsSmaller(b, a);
    } else {
      NatOfInjective(a, b);
    }
  }

  lemma {:induction false} NatOfPositive(s: string, i: nat)
    requires AllDigits(s) && i < |s| && s[i] != '0'
    ensures NatOf(s) > 0
  {
    if i < |s| - 1 { NatOfPositive(s[..|s| - 1], i); }
  }

  /** The decimal text of a natural number, String(value) of a nonnegative bigint. */
  function TextOf(n: nat): (s: string)
    ensures AllDigits(s) && s != "" && NatOf(s) == n
    ensures s[0] != '0' || s == "0"
  {
    if n < 10 then
      var s := [('0' as int + n) as char];
      assert s[..0] == "";
      s
    else
      var head := TextOf(n / 10);
      assert head[0] != '0';
      var s := head + [('0' as int + n % 10) as char];
      assert s[..|s| - 1] == head;
      s
  }

  /** Removes leading zeros, replace(/^0+/, ""). */
  function StripLeading(s: string): (r: string)
    requires AllDigits(s)
    ensures AllDigits(r) && |r| <= |s| && (r == "" || r[0] != '0')
  {
    if s != "" && s[0] == '0' then StripLeading(s[1..]) else s
  }

  /** Removes trailing zeros, replace(/0+$/, ""). */
  function StripTrailing(s: string): (r: string)
    requires AllDigits(s)
    ensures AllDigits(r) && |r| <= |s| && (r == "" || r[|r| - 1] != '0')
    ensures r == s[..|r|]
  {
    if s != "" && s[|s| - 1] == '0' then StripTrailing(s[..|s| - 1]) else s
  }

  lemma {:induction false} StrippedLeading(s: string)
    requires AllDigits(s)
    ensures s == Zeros(|s| - |StripLeading(s)|) + StripLeading(s)
  {
    if s != "" && s[0] == '0' {
      StrippedLeading(s[1..]);
      var k := |s| - |StripLeading(s)|;
      assert s == "0" + s[1..];
      assert Zeros(k) == "0" + Zeros(k - 1);
    }
  }

  lemma {:induction false} StrippedTrailing(s: string)
    requires AllDigits(s)
    ensures s == StripTrailing(s) + Zeros(|s| - |StripTrailing(s)|)
  {
    if s != "" && s[|s| - 1] == '0' {
      StrippedTrailing(s[..|s| - 1]);
      var k := |s| - |StripTrailing(s)|;
      assert s == s[..|s| - 1] + "0";
      assert Zeros(k) == Zeros(k - 1) + "0";
    }
  }

  lemma {:induction false} NatOfStripLeading(s: string)
    requires AllDigits(s)
    ensures NatOf(StripLeading(s)) == NatOf(s)
    ensures StripLeading(s) == "" <==> NatOf(s) == 0
  {
    var r := StripLeading(s);
    var z := Zeros(|s| - |r|);
    StrippedLeading(s);
    NatOfZeros(|s| - |r|);
    NatOfConcat(z, r);
    assert NatOf(z) * Power(|r|) == 0;
    if r != "" { NatOfPositive(r, 0); }
  }

  lemma {:induction false} NatOfStripTrailing(s: string)
    requires AllDigits(s)
    ensures NatOf(s) == NatOf(StripTrailing(s)) * Power(|s| - |StripTrailing(s)|)
  {
    var r := StripTrailing(s);
    StrippedTrailing(s);
    NatOfConcat(r, Zeros(|s| - |r|));
    NatOfZeros(|s| - |r|);
  }

  /** padStart(width, "0") */
  function PadStart(s: string, width: nat): string
    requires AllDigits(s)
  {
    if |s| >= width then s else Zeros(width - |s|) + s
  }

  /** Ten to any integer power. */
  function Pow10(k: int): (r: real)
    decreases if k < 0 then -k else k
    ensures r > 0.0
  {
    if k == 0 then 1.0 else if k > 0 then 10.0 * Pow10(k - 1) else Pow10(k + 1) / 10.0
  }

  lemma {:induction false} Pow10Step(k: int)
    ensures Pow10(k + 1) == 10.0 * Pow10(k)
  {
  }

  lemma Pow10Zero()
    ensures Pow10(0) == 1.0
  {
  }

  /** The product rule for j and for j + 1 are the same fact. */
  lemma Pow10Shift(j: int, k: int)
    ensures Pow10(j + k) == Pow10(j) * Pow10(k) <==> Pow10(j + 1 + k) == Pow10(j + 1) * Pow10(k)
  {
    hide Pow10;
    Pow10Step(j);
    Pow10Step(j + k);
    assert j + k + 1 == j + 1 + k;
    ScaleReal(Pow10(j), Pow10(k));
  }

  lemma {:induction false} Pow10Add(j: int, k: int)
    ensures Pow10(j + k) == Pow10(j) * Pow10(k)
    decreases if j < 0 then -j else j
  {
    hide Pow10;
    if j == 0 {
      Pow10Zero();
    } else if j > 0 {
      Pow10Add(j - 1, k);
      Pow10Shift(j - 1, k);
    } else {
      Pow10Add(j + 1, k);
      Pow10Shift(j, k);
    }
  }

  lemma {:induction false} Pow10Nat(n: nat)
    ensures Pow10(n) == Power(n) as real
  {
    if n > 0 { Pow10Nat(n - 1); }
  }

  lemma {:induction false} Pow10Monotone(j: int, k: int)
    requires j < k
    ensures Pow10(j) < Pow10(k)
    decreases k - j
  {
    Pow10Step(k - 1);
    if j < k - 1 { Pow10Monotone(j, k - 1); }
  }
}

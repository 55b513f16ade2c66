/** Strings as the JavaScript sources see them: white space, trimming, byte lengths and case. */
module Text {

  /** The optional value that stands for a null or missing JavaScript value. */
  datatype Option<+T> = None | Some(value: T)

  /** The characters removed by String.prototype.trim and matched by \s. */
  predicate IsSpace(c: char) {
    || '\U{0009}' <= c <= '\U{000D}'
    || c == ' ' || c == '\U{00A0}' || c == '\U{1680}'
    || '\U{2000}' <= c <= '\U{200A}'
    || c == '\U{2028}' || c == '\U{2029}' || c == '\U{202F}'
    || c == '\U{205F}' || c == '\U{3000}' || c == '\U{FEFF}'
  }

  function TrimStart(s: string): string {
    if s != "" && IsSpace(s[0]) then TrimStart(s[1..]) else s
  }

  function TrimEnd(s: string): string {
    if s != "" && IsSpace(s[|s| - 1]) then TrimEnd(s[..|s| - 1]) else s
  }

  function Trim(s: string): string {
    TrimEnd(TrimStart(s))
  }

  /** No white space at either end. */
  predicate IsTrimmed(s: string) {
    s == "" || (!IsSpace(s[0]) && !IsSpace(s[|s| - 1]))
  }

  lemma {:induction false} TrimStartTrims(s: string)
    ensures TrimStart(s) == "" || !IsSpace(TrimStart(s)[0])
  {
    if s != "" && IsSpace(s[0]) { TrimStartTrims(s[1..]); }
  }

  lemma {:induction false} TrimEndTrims(s: string)
    requires s == "" || !IsSpace(s[0])
    ensures IsTrimmed(TrimEnd(s))
  {
    if s != "" && IsSpace(s[|s| - 1]) { TrimEndTrims(s[..|s| - 1]); }
  }

  lemma TrimTrims(s: string)
    ensures IsTrimmed(Trim(s))
  {
    TrimStartTrims(s);
    TrimEndTrims(TrimStart(s));
  }

  lemma TrimKeepsTrimmed(s: string)
    requires IsTrimmed(s)
    ensures Trim(s) == s
  {
  }

  lemma TrimIdempotent(s: string)
    ensures Trim(Trim(s)) == Trim(s)
  {
    TrimTrims(s);
    TrimKeepsTrimmed(Trim(s));
  }

  function CharBytes(c: char): nat {
    if c < '\U{0080}' then 1 else if c < '\U{0800}' then 2 else if c < '\U{10000}' then 3 else 4
  }

  /** The UTF-8 length of a string, Buffer.byteLength in the sources. */
  function ByteLength(s: string): nat {
    if s == "" then 0 else ByteLength(s[..|s| - 1]) + CharBytes(s[|s| - 1])
  }

  lemma {:induction false} ByteLengthConcat(a: string, b: string)
    ensures ByteLength(a + b) == ByteLength(a) + ByteLength(b)
  {
    if b == "" {
      assert a + b == a;
    } else {
      assert (a + b)[..|a + b| - 1] == a + b[..|b| - 1];
      ByteLengthConcat(a, b[..|b| - 1]);
    }
  }

  /** A trimmed nonempty text of at most max bytes. */
  predicate IsBoundedText(s: string, max: nat) {
    s != "" && IsTrimmed(s) && ByteLength(s) <= max
  }

  function UpperChar(c: char): char {
    if 'a' <= c <= 'z' then ((c as int - 32) as char) else c
  }

  function LowerChar(c: char): char {
    if 'A' <= c <= 'Z' then ((c as int + 32) as char) else c
  }

  function ToUpper(s: string): (r: string)
    ensures |r| == |s|
  {
    seq(|s|, i requires 0 <= i < |s| => UpperChar(s[i]))
  }

  function ToLower(s: string): (r: string)
    ensures |r| == |s|
  {
    seq(|s|, i requires 0 <= i < |s| => LowerChar(s[i]))
  }

  lemma ToUpperIdempotent(s: string)
    ensures ToUpper(ToUpper(s)) == ToUpper(s)
  {
    forall i | 0 <= i < |s| ensures ToUpper(ToUpper(s))[i] == ToUpper(s)[i] {
    }
  }

  /** Replaces every run of white space by one blank. */
  function CollapseSpaces(s: string): string {
    if s == "" then ""
    else if IsSpace(s[0]) then
      (if |s| > 1 && IsSpace(s[1]) then CollapseSpaces(s[1..]) else " " + CollapseSpaces(s[1..]))
    else [s[0]] + CollapseSpaces(s[1..])
  }

  /** trim().replace(/\s+/g, " ") */
  function NormalizeText(s: string): string {
    CollapseSpaces(Trim(s))
  }

  lemma BlankNormalizes(text: string)
    ensures NormalizeText(text) == "" <==> Trim(text) == ""
  {
    CollapsedIsEmpty(Trim(text));
  }

  lemma {:induction false} CollapsedIsEmpty(text: string)
    ensures CollapseSpaces(text) == "" <==> text == ""
  {
    if |text| > 1 { CollapsedIsEmpty(text[1..]); }
  }

  predicate IsWhite(s: string) {
    forall i | 0 <= i < |s| :: IsSpace(s[i])
  }

  /** Trimming takes away white space at the two ends, and nothing else. */
  lemma TrimmedFrom(s: string) returns (left: string, right: string)
    ensures s == left + Trim(s) + right && IsWhite(left) && IsWhite(right) && IsTrimmed(Trim(s))
  {
    TrimTrims(s);
    StartGone(s);
    EndGone(TrimStart(s));
    left := s[..|s| - |TrimStart(s)|];
    right := TrimStart(s)[|Trim(s)|..];
  }

  lemma {:induction false} StartGone(s: string)
    ensures |TrimStart(s)| <= |s| && s[|s| - |TrimStart(s)|..] == TrimStart(s)
    ensures IsWhite(s[..|s| - |TrimStart(s)|])
  {
    if s != "" && IsSpace(s[0]) {
      StartGone(s[1..]);
      var n := |s| - |TrimStart(s)|;
      assert s[1..][..n - 1] == s[1..n] && s[1..][n - 1..] == s[n..];
      forall i | 0 <= i < n ensures IsSpace(s[i]) {
        if i > 0 { assert s[i] == s[1..n][i - 1]; }
      }
    }
  }

  lemma {:induction false} EndGone(s: string)
    ensures |TrimEnd(s)| <= |s| && s[..|TrimEnd(s)|] == TrimEnd(s) && IsWhite(s[|TrimEnd(s)|..])
  {
    if s != "" && IsSpace(s[|s| - 1]) {
      var front := s[..|s| - 1];
      EndGone(front);
      var n := |TrimEnd(s)|;
      assert front[..n] == s[..n] && front[n..] == s[n..|s| - 1];
      forall i | n <= i < |s| ensures IsSpace(s[i]) {
        if i < |s| - 1 { assert s[i] == front[n..][i - n]; }
      }
    }
  }

  /** Collapsing keeps words, and makes one blank of all white space between two of them. */
  lemma {:induction false} RunsBecomeBlanks(word: string, run: string, rest: string)
    requires (forall i | 0 <= i < |word| :: !IsSpace(word[i])) && run != "" && IsWhite(run)
    requires rest == "" || !IsSpace(rest[0])
    ensures CollapseSpaces(word) == word && CollapseSpaces(word + run + rest) == word + " " + CollapseSpaces(rest)
  {
    var s := word + run + rest;
    if word != "" {
      RunsBecomeBlanks(word[1..], run, rest);
      assert s[1..] == word[1..] + run + rest;
    } else if |run| > 1 {
      RunsBecomeBlanks(word, run[1..], rest);
      assert s[1..] == word + run[1..] + rest;
    } else {
      assert s[1..] == rest;
    }
  }

  /** Code point order, the strict total order that stands for localeCompare and for < on strings. */
  predicate Before(a: string, b: string) {
    b != "" && (a == "" || a[0] < b[0] || (a[0] == b[0] && Before(a[1..], b[1..])))
  }

  lemma {:induction false} BeforeTotal(a: string, b: string)
    ensures Before(a, b) || a == b || Before(b, a)
  {
    if a != "" && b != "" && a[0] == b[0] {
      BeforeTotal(a[1..], b[1..]);
      assert a == [a[0]] + a[1..] && b == [b[0]] + b[1..];
    }
  }

  lemma {:induction false} BeforeAsymmetric(a: string, b: string)
    requires Before(a, b)
    ensures !Before(b, a) && a != b
  {
    if a != "" && a[0] == b[0] {
      BeforeAsymmetric(a[1..], b[1..]);
    }
  }

  lemma {:induction false} BeforeTransitive(a: string, b: string, c: string)
    requires Before(a, b) && Before(b, c)
    ensures Before(a, c)
  {
    if a != "" && a[0] == b[0] && b[0] == c[0] {
      BeforeTransitive(a[1..], b[1..], c[1..]);
    }
  }

  function TextOrder(): (string, string) -> bool {
    (a: string, b: string) => Before(a, b)
  }

  /** localeCompare: its sign is what a comparator looks at. */
  function CompareTexts(a: string, b: string): int {
    if a == b then 0 else if Before(a, b) then -1 else 1
  }

  lemma TextsCompare(a: string, b: string)
    ensures CompareTexts(a, b) < 0 <==> Before(a, b)
    ensures CompareTexts(a, b) == 0 <==> a == b
    ensures CompareTexts(a, b) == -CompareTexts(b, a)
  {
    BeforeTotal(a, b);
    if Before(a, b) { BeforeAsymmetric(a, b); }
    if Before(b, a) { BeforeAsymmetric(b, a); }
  }

  lemma TextsChain(a: string, b: string, c: string)
    ensures CompareTexts(a, b) <= 0 && CompareTexts(b, c) <= 0 ==> CompareTexts(a, c) <= 0
    ensures CompareTexts(a, b) < 0 && CompareTexts(b, c) <= 0 ==> CompareTexts(a, c) < 0
    ensures CompareTexts(a, b) <= 0 && CompareTexts(b, c) < 0 ==> CompareTexts(a, c) < 0
  {
    TextsCompare(a, b);
    TextsCompare(b, c);
    TextsCompare(a, c);
    if Before(a, b) && Before(b, c) { BeforeTransitive(a, b, c); }
  }
}

/** What the pilot evidence log accepts: bounded texts, counts, and the facts of a portfolio scan. */
module PilotEvidence {
  import opened Text

  /** boundedText of the evidence log: trimmed, within the bytes, and free of control characters. */
  predicate IsEvidenceText(t: string, max: nat) {
    IsBoundedText(t, max) && forall i | 0 <= i < |t| :: ' ' <= t[i] && t[i] as int != 0x7f
  }

  predicate IsControl(c: char) {
    c < ' ' || c as int == 0x7f
  }

  /** An evidence text is trimmed, says something within its bytes, and holds no control character. */
  lemma EvidenceTextExactly(t: string, max: nat)
    ensures IsEvidenceText(t, max) <==>
            t != "" && Trim(t) == t && ByteLength(t) <= max && forall c | c in t :: !IsControl(c)
  {
    hide ByteLength;
    TrimTrims(t);
    if IsTrimmed(t) { TrimKeepsTrimmed(t); }
    assert forall i | 0 <= i < |t| :: t[i] in t;
  }

  const COUNT_MAX := 1_000_000

  /** count of the evidence log. */
  predicate IsCount(n: int) {
    0 <= n <= COUNT_MAX
  }

  /** The facts of a completed scan, as the evidence log takes them. */
  datatype ScanFacts = ScanFacts(
    evaluated: int, leaks: int, noLeaks: int, insufficient: int, staleSources: int, suppressed: int, excluded: int)

  /** validateScanFacts */
  predicate AreValidScanFacts(f: ScanFacts) {
    && IsCount(f.evaluated) && IsCount(f.leaks) && IsCount(f.noLeaks) && IsCount(f.insufficient)
    && IsCount(f.staleSources) && IsCount(f.suppressed) && IsCount(f.excluded)
    && f.leaks + f.noLeaks + f.insufficient + f.staleSources + f.suppressed == f.evaluated
  }

  /** Of valid facts no single outcome count can be another one. */
  lemma MiscountsAreRefused(f: ScanFacts, n: int)
    requires AreValidScanFacts(f)
    ensures n != f.evaluated ==> !AreValidScanFacts(f.(evaluated := n))
    ensures n != f.leaks ==> !AreValidScanFacts(f.(leaks := n))
    ensures n != f.noLeaks ==> !AreValidScanFacts(f.(noLeaks := n))
    ensures n != f.insufficient ==> !AreValidScanFacts(f.(insufficient := n))
    ensures n != f.staleSources ==> !AreValidScanFacts(f.(staleSources := n))
    ensures n != f.suppressed ==> !AreValidScanFacts(f.(suppressed := n))
    ensures 0 <= f.leaks <= f.evaluated <= 1_000_000
  {
  }
}

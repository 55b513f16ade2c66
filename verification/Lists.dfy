/** Array.prototype.find, findIndex and filter. */
module Lists {
  import opened Text

  /** findIndex: the first position that satisfies p. */
  function FirstIndex<T>(s: seq<T>, p: T -> bool): (r: Option<nat>)
    ensures r.Some? ==> r.value < |s| && p(s[r.value]) && forall j | 0 <= j < r.value :: !p(s[j])
    ensures r.None? ==> forall j | 0 <= j < |s| :: !p(s[j])
  {
    if s == [] then None
    else if p(s[0]) then Some(0)
    else
      var r := FirstIndex(s[1..], p);
      if r.None? then None else Some(r.value + 1)
  }

  lemma {:induction false} FirstIndexIs<T>(s: seq<T>, i: nat, p: T -> bool)
    requires i < |s| && p(s[i]) && forall j | 0 <= j < i :: !p(s[j])
    ensures FirstIndex(s, p) == Some(i)
  {
    if i > 0 { FirstIndexIs(s[1..], i - 1, p); }
  }

  function Filter<T>(s: seq<T>, p: T -> bool): seq<T> {
    if s == [] then []
    else Filter(s[..|s| - 1], p) + if p(s[|s| - 1]) then [s[|s| - 1]] else []
  }

  lemma FilterAppend<T>(s: seq<T>, x: T, p: T -> bool)
    ensures Filter(s + [x], p) == Filter(s, p) + if p(x) then [x] else []
  {
    assert (s + [x])[..|s|] == s;
  }

  lemma {:induction false} FilterNone<T>(s: seq<T>, p: T -> bool)
    requires forall i | 0 <= i < |s| :: !p(s[i])
    ensures Filter(s, p) == []
  {
    if s != [] { FilterNone(s[..|s| - 1], p); }
  }

  /** Replacing an element changes the filtered list only where p tells the two elements apart. */
  lemma {:induction false} FilterReplaceSame<T>(s: seq<T>, i: nat, x: T, p: T -> bool)
    requires i < |s| && !p(s[i]) && !p(x)
    ensures Filter(s[i := x], p) == Filter(s, p)
  {
    var n := |s| - 1;
    if i < n {
      FilterReplaceSame(s[..n], i, x, p);
      assert s[i := x][..n] == s[..n][i := x];
    } else {
      assert s[i := x][..n] == s[..n];
    }
  }

  /** An element that starts to satisfy p when none did becomes the only one. */
  lemma {:induction false} FilterReplaceNew<T>(s: seq<T>, i: nat, x: T, p: T -> bool)
    requires i < |s| && p(x)
    requires forall j | 0 <= j < |s| :: !p(s[j])
    ensures Filter(s[i := x], p) == [x]
  {
    var n := |s| - 1;
    if i < n {
      FilterReplaceNew(s[..n], i, x, p);
      assert s[i := x][..n] == s[..n][i := x];
    } else {
      assert s[i := x][..n] == s[..n];
      FilterNone(s[..n], p);
    }
  }

  /** The filtered list of a predicate that one element satisfies is that element. */
  lemma {:induction false} FilterOnly<T>(s: seq<T>, p: T -> bool, k: nat)
    requires k < |s| && p(s[k]) && forall j | 0 <= j < |s| && j != k :: !p(s[j])
    ensures Filter(s, p) == [s[k]]
  {
    var n := |s| - 1;
    if k == n { FilterNone(s[..n], p); } else { FilterOnly(s[..n], p, k); }
  }

  lemma {:induction false} FilterMembers<T>(s: seq<T>, p: T -> bool, x: T)
    ensures x in Filter(s, p) <==> x in s && p(x)
  {
    if s != [] {
      FilterMembers(s[..|s| - 1], p, x);
      assert s == s[..|s| - 1] + [s[|s| - 1]];
    }
  }

  /** find sees what filter sees first. */
  lemma {:induction false} FirstIsFirstOfFilter<T>(s: seq<T>, p: T -> bool)
    ensures FirstIndex(s, p).Some? <==> Filter(s, p) != []
    ensures FirstIndex(s, p).Some? ==> Filter(s, p)[0] == s[FirstIndex(s, p).value]
  {
    if s != [] {
      var n := |s| - 1;
      var front := s[..n];
      FirstIsFirstOfFilter(front, p);
      FilterAppend(front, s[n], p);
      assert s == front + [s[n]];
    }
  }

  /** Two elements kept by a filter keep their order. */
  lemma {:induction false} FilterKeepsOrder<T>(s: seq<T>, p: T -> bool, i: nat, j: nat) returns (a: nat, b: nat)
    requires i < j < |s| && p(s[i]) && p(s[j])
    ensures a < b < |Filter(s, p)| && Filter(s, p)[a] == s[i] && Filter(s, p)[b] == s[j]
  {
    var n := |s| - 1;
    if j < n {
      a, b := FilterKeepsOrder(s[..n], p, i, j);
    } else {
      a := FilterFinds(s[..n], p, i);
      b := |Filter(s[..n], p)|;
    }
  }

  lemma {:induction false} FilterFinds<T>(s: seq<T>, p: T -> bool, i: nat) returns (a: nat)
    requires i < |s| && p(s[i])
    ensures a < |Filter(s, p)| && Filter(s, p)[a] == s[i]
  {
    var n := |s| - 1;
    if i < n {
      a := FilterFinds(s[..n], p, i);
    } else {
      a := |Filter(s[..n], p)|;
    }
  }

  lemma {:induction false} FilterConcat<T>(a: seq<T>, b: seq<T>, p: T -> bool)
    ensures Filter(a + b, p) == Filter(a, p) + Filter(b, p)
  {
    if b == [] {
      assert a + b == a;
    } else {
      var n := |b| - 1;
      assert a + b == (a + b[..n]) + [b[n]];
      FilterAppend(a + b[..n], b[n], p);
      FilterConcat(a, b[..n], p);
    }
  }

  /** Where a filter keeps at most one element, every kept place is the first one. */
  lemma OnlyOneKept<T>(s: seq<T>, p: T -> bool, j: nat)
    requires |Filter(s, p)| <= 1 && j < |s| && p(s[j])
    ensures FirstIndex(s, p) == Some(j)
  {
    hide Filter, FirstIndex;
    var i := FirstIndex(s, p);
    if i.Some? && i.value < j {
      var a, b := FilterKeepsOrder(s, p, i.value, j);
    }
  }

  /** Replacing the last element that satisfies p by another one that does. */
  lemma {:induction false} FilterReplaceLast<T>(s: seq<T>, i: nat, x: T, p: T -> bool)
    requires i < |s| && p(s[i]) && p(x) && forall j | i < j < |s| :: !p(s[j])
    ensures Filter(s, p) == Filter(s[..i], p) + [s[i]]
    ensures Filter(s[i := x], p) == Filter(s[..i], p) + [x]
  {
    var n := |s| - 1;
    if i < n {
      FilterReplaceLast(s[..n], i, x, p);
      assert s[..n][..i] == s[..i] && s[i := x][..n] == s[..n][i := x];
    } else {
      assert s[i := x][..n] == s[..n];
    }
  }

  /** How many elements satisfy p. */
  function Count<T>(s: seq<T>, p: T -> bool): nat {
    |Filter(s, p)|
  }

  lemma CountAppend<T>(s: seq<T>, x: T, p: T -> bool)
    ensures Count(s + [x], p) == Count(s, p) + if p(x) then 1 else 0
  {
    FilterAppend(s, x, p);
  }

  lemma CountNothing<T>(s: seq<T>, p: T -> bool)
    ensures Count(s[..0], p) == 0
  {
  }

  lemma {:induction false} CountAtMost<T>(s: seq<T>, p: T -> bool)
    ensures Count(s, p) <= |s|
  {
    if s != [] { CountAtMost(s[..|s| - 1], p); }
  }

  lemma CountedMember<T>(s: seq<T>, p: T -> bool, x: T)
    requires x in s && p(x)
    ensures Count(s, p) > 0
  {
    FilterMembers(s, p, x);
  }

  lemma NoneCounted<T>(s: seq<T>, p: T -> bool)
    requires forall x | x in s :: !p(x)
    ensures Count(s, p) == 0
  {
    forall i | 0 <= i < |s| ensures !p(s[i]) {
      assert s[i] in s;
    }
    FilterNone(s, p);
  }
}

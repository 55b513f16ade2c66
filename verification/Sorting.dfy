/** Array.prototype.sort with a comparison that orders its elements strictly. */
module Sorting {

  /** less is a strict total order on the elements of s. */
  ghost predicate IsStrictOrderOn<T(!new)>(less: (T, T) -> bool, s: seq<T>) {
    && (forall x, y | x in s && y in s :: x == y || less(x, y) || less(y, x))
    && (forall x, y | x in s && y in s && less(x, y) :: !less(y, x))
    && (forall x, y, z | x in s && y in s && z in s && less(x, y) && less(y, z) :: less(x, z))
  }

  ghost predicate IsSorted<T>(less: (T, T) -> bool, s: seq<T>) {
    forall i, j | 0 <= i < j < |s| :: less(s[i], s[j])
  }

  predicate HasNoDuplicates<T(==)>(s: seq<T>) {
    forall i, j | 0 <= i < j < |s| :: s[i] != s[j]
  }

  /** Inserts x behind the elements that are not greater, which keeps the sort stable. */
  function Insert<T>(x: T, s: seq<T>, less: (T, T) -> bool): seq<T> {
    if s == [] then [x]
    else if less(x, s[|s| - 1]) then Insert(x, s[..|s| - 1], less) + [s[|s| - 1]]
    else s + [x]
  }

  function SortBy<T>(s: seq<T>, less: (T, T) -> bool): seq<T> {
    if s == [] then [] else Insert(s[|s| - 1], SortBy(s[..|s| - 1], less), less)
  }

  lemma LastApart<T>(s: seq<T>)
    requires s != []
    ensures multiset(s) == multiset(s[..|s| - 1]) + multiset{s[|s| - 1]}
  {
    assert s == s[..|s| - 1] + [s[|s| - 1]];
  }

  lemma {:induction false} InsertIsPermutation<T>(x: T, s: seq<T>, less: (T, T) -> bool)
    ensures multiset(Insert(x, s, less)) == multiset(s) + multiset{x}
  {
    if s != [] {
      LastApart(s);
      if less(x, s[|s| - 1]) { InsertIsPermutation(x, s[..|s| - 1], less); }
    }
  }

  lemma {:induction false} SortIsPermutation<T>(s: seq<T>, less: (T, T) -> bool)
    ensures multiset(SortBy(s, less)) == multiset(s)
  {
    hide Insert;
    if s != [] {
      SortIsPermutation(s[..|s| - 1], less);
      InsertIsPermutation(s[|s| - 1], SortBy(s[..|s| - 1], less), less);
      LastApart(s);
    }
  }

  lemma SameMembers<T>(s: seq<T>, t: seq<T>)
    requires multiset(s) == multiset(t)
    ensures forall x :: x in s <==> x in t
    ensures |s| == |t|
  {
    forall x ensures x in s <==> x in t {
      assert x in s <==> x in multiset(s);
      assert x in t <==> x in multiset(t);
    }
    assert |multiset(s)| == |s| && |multiset(t)| == |t|;
  }

  lemma {:induction false} InsertMembers<T>(x: T, s: seq<T>, less: (T, T) -> bool, y: T)
    requires y in Insert(x, s, less)
    ensures y in s || y == x
  {
    if s != [] && less(x, s[|s| - 1]) {
      if y != s[|s| - 1] { InsertMembers(x, s[..|s| - 1], less, y); }
    }
  }

  lemma AppendKeepsSorted<T>(s: seq<T>, x: T, less: (T, T) -> bool)
    requires IsSorted(less, s) && forall y | y in s :: less(y, x)
    ensures IsSorted(less, s + [x])
  {
  }

  lemma FrontIsSorted<T>(s: seq<T>, less: (T, T) -> bool)
    requires IsSorted(less, s) && s != []
    ensures IsSorted(less, s[..|s| - 1])
  {
  }

  lemma LastIsGreatest<T>(s: seq<T>, less: (T, T) -> bool, y: T)
    requires IsSorted(less, s) && s != [] && y in s && y != s[|s| - 1]
    ensures less(y, s[|s| - 1])
  {
  }

  lemma InFront<T>(s: seq<T>, less: (T, T) -> bool, y: T)
    requires IsSorted(less, s) && s != [] && y in s[..|s| - 1]
    ensures less(y, s[|s| - 1])
  {
  }

  lemma OrderOnPart<T(!new)>(less: (T, T) -> bool, s: seq<T>, part: seq<T>)
    requires IsStrictOrderOn(less, s) && forall y | y in part :: y in s
    ensures IsStrictOrderOn(less, part)
  {
  }

  lemma OrderDecides<T(!new)>(less: (T, T) -> bool, s: seq<T>, x: T, y: T)
    requires IsStrictOrderOn(less, s) && x in s && y in s && x != y && !less(x, y)
    ensures less(y, x)
  {
  }

  lemma OrderChains<T(!new)>(less: (T, T) -> bool, s: seq<T>, x: T, y: T, z: T)
    requires IsStrictOrderOn(less, s) && x in s && y in s && z in s && less(x, y) && less(y, z)
    ensures less(x, z)
  {
  }

  lemma {:induction false} InsertKeepsSorted<T(!new)>(x: T, s: seq<T>, less: (T, T) -> bool)
    requires IsSorted(less, s) && x !in s && IsStrictOrderOn(less, s + [x])
    ensures IsSorted(less, Insert(x, s, less))
  {
    hide IsSorted, IsStrictOrderOn;
    if s == [] {
      AppendKeepsSorted(s, x, less);
      assert s + [x] == [x];
    } else {
      var front, last := s[..|s| - 1], s[|s| - 1];
      FrontIsSorted(s, less);
      assert last in s + [x] && x in s + [x];
      if less(x, last) {
        OrderOnPart(less, s + [x], front + [x]);
        InsertKeepsSorted(x, front, less);
        var r := Insert(x, front, less);
        forall y | y in r ensures less(y, last) {
          InsertMembers(x, front, less, y);
          if y != x { InFront(s, less, y); }
        }
        AppendKeepsSorted(r, last, less);
      } else {
        OrderDecides(less, s + [x], x, last);
        forall y | y in s ensures less(y, x) {
          if y != last {
            LastIsGreatest(s, less, y);
            OrderChains(less, s + [x], y, last, x);
          }
        }
        AppendKeepsSorted(s, x, less);
      }
    }
  }

  lemma FrontHasNoDuplicates<T>(s: seq<T>)
    requires HasNoDuplicates(s) && s != []
    ensures HasNoDuplicates(s[..|s| - 1]) && s[|s| - 1] !in s[..|s| - 1]
  {
  }

  lemma {:induction false} SortIsSorted<T(!new)>(s: seq<T>, less: (T, T) -> bool)
    requires HasNoDuplicates(s) && IsStrictOrderOn(less, s)
    ensures IsSorted(less, SortBy(s, less))
  {
    hide IsStrictOrderOn, HasNoDuplicates, Insert;
    if s == [] {
      assert SortBy(s, less) == [];
    } else {
      var front, last := s[..|s| - 1], s[|s| - 1];
      FrontHasNoDuplicates(s);
      OrderOnPart(less, s, front);
      SortIsSorted(front, less);
      var sorted := SortBy(front, less);
      SortIsPermutation(front, less);
      SameMembers(sorted, front);
      OrderOnPart(less, s, sorted + [last]);
      InsertKeepsSorted(last, sorted, less);
    }
  }

  /** The head of a sorted arrangement is its least element. */
  lemma SameHead<T(!new)>(s: seq<T>, t: seq<T>, less: (T, T) -> bool)
    requires multiset(s) == multiset(t) && IsSorted(less, s) && IsSorted(less, t) && IsStrictOrderOn(less, s)
    requires s != []
    ensures t != [] && s[0] == t[0]
  {
    SameMembers(s, t);
    assert s[0] in t && t[0] in s;
  }

  lemma SameTail<T>(s: seq<T>, t: seq<T>)
    requires multiset(s) == multiset(t) && s != [] && t != [] && s[0] == t[0]
    ensures multiset(s[1..]) == multiset(t[1..])
  {
    assert s == [s[0]] + s[1..] && t == [t[0]] + t[1..];
    assert multiset(s[1..]) == multiset(s) - multiset{s[0]};
    assert multiset(t[1..]) == multiset(t) - multiset{t[0]};
  }

  lemma TailIsOrdered<T(!new)>(s: seq<T>, less: (T, T) -> bool)
    requires IsSorted(less, s) && IsStrictOrderOn(less, s) && s != []
    ensures IsSorted(less, s[1..]) && IsStrictOrderOn(less, s[1..])
  {
    assert forall x | x in s[1..] :: x in s;
  }

  /** A set of elements has one sorted arrangement. */
  lemma {:induction false} SortedIsUnique<T(!new)>(s: seq<T>, t: seq<T>, less: (T, T) -> bool)
    requires multiset(s) == multiset(t) && IsSorted(less, s) && IsSorted(less, t) && IsStrictOrderOn(less, s)
    ensures s == t
  {
    SameMembers(s, t);
    OrderTravels(s, t, less);
    hide IsSorted, IsStrictOrderOn;
    if s != [] {
      SameHead(s, t, less);
      SameTail(s, t);
      TailIsOrdered(s, less);
      TailIsOrdered(t, less);
      SortedIsUnique(s[1..], t[1..], less);
      assert s == [s[0]] + s[1..] && t == [t[0]] + t[1..];
    }
  }

  lemma OrderTravels<T(!new)>(s: seq<T>, t: seq<T>, less: (T, T) -> bool)
    requires multiset(s) == multiset(t) && IsStrictOrderOn(less, s)
    ensures IsStrictOrderOn(less, t)
  {
    SameMembers(s, t);
  }

  /** Sorting forgets the order of its input. */
  lemma SortIgnoresOrder<T(!new)>(s: seq<T>, t: seq<T>, less: (T, T) -> bool)
    requires multiset(s) == multiset(t) && HasNoDuplicates(s) && HasNoDuplicates(t) && IsStrictOrderOn(less, s)
    ensures SortBy(s, less) == SortBy(t, less)
  {
    hide IsSorted, IsStrictOrderOn, HasNoDuplicates, SortBy;
    OrderTravels(s, t, less);
    SortIsSorted(s, less);
    SortIsSorted(t, less);
    SortIsPermutation(s, less);
    SortIsPermutation(t, less);
    OrderTravels(s, SortBy(s, less), less);
    SortedIsUnique(SortBy(s, less), SortBy(t, less), less);
  }

  // ------------------------------------------------------------------ keys

  /** No two elements share a key. */
  predicate HasDistinctKeys<T, K(==)>(s: seq<T>, key: T -> K) {
    forall i, j | 0 <= i < j < |s| :: key(s[i]) != key(s[j])
  }

  lemma {:induction false} TwiceIsTwoPlaces<T>(s: seq<T>, x: T) returns (a: nat, b: nat)
    requires multiset(s)[x] >= 2
    ensures a < b < |s| && s[a] == x && s[b] == x
  {
    var front, last := s[..|s| - 1], s[|s| - 1];
    assert s == front + [last];
    if last == x {
      assert x in multiset(front);
      assert x in front;
      a :| 0 <= a < |front| && front[a] == x;
      b := |s| - 1;
    } else {
      a, b := TwiceIsTwoPlaces(front, x);
    }
  }

  lemma TwoPlacesIsTwice<T>(s: seq<T>, a: nat, b: nat)
    requires a < b < |s| && s[a] == s[b]
    ensures multiset(s)[s[a]] >= 2
  {
    assert s == s[..b] + [s[b]] + s[b + 1..];
    assert s[a] in s[..b];
  }

  /** Whether keys are distinct does not depend on the order of the elements. */
  lemma DistinctKeysIgnoreOrder<T, K>(s: seq<T>, t: seq<T>, key: T -> K)
    requires multiset(s) == multiset(t) && HasDistinctKeys(s, key)
    ensures HasDistinctKeys(t, key)
  {
    SameMembers(s, t);
    forall i, j | 0 <= i < j < |t| ensures key(t[i]) != key(t[j]) {
      if t[i] == t[j] {
        TwoPlacesIsTwice(t, i, j);
        var a, b := TwiceIsTwoPlaces(s, t[i]);
      } else {
        var a :| 0 <= a < |s| && s[a] == t[i];
        var b :| 0 <= b < |s| && s[b] == t[j];
      }
    }
  }

  /** The elements of a sequence mapped one by one. */
  function MapBy<T, U>(s: seq<T>, f: T -> U): (r: seq<U>)
    ensures |r| == |s| && forall i | 0 <= i < |s| :: r[i] == f(s[i])
  {
    if s == [] then [] else MapBy(s[..|s| - 1], f) + [f(s[|s| - 1])]
  }

  lemma ThreeParts<T>(t: seq<T>, i: nat)
    requires i < |t|
    ensures t == t[..i] + ([t[i]] + t[i + 1..])
  {
  }

  lemma BagOfParts<T>(a: seq<T>, x: T, b: seq<T>)
    ensures multiset(a + ([x] + b)) == multiset(a + b) + multiset{x}
  {
    assert multiset([x] + b) == multiset{x} + multiset(b);
  }

  lemma MapWithout<T, U>(t: seq<T>, i: nat, f: T -> U)
    requires i < |t|
    ensures multiset(MapBy(t, f)) == multiset(MapBy(t[..i] + t[i + 1..], f)) + multiset{f(t[i])}
  {
    hide MapBy;
    var a, x, b := t[..i], t[i], t[i + 1..];
    ThreeParts(t, i);
    MapConcat(a, [x] + b, f);
    MapConcat([x], b, f);
    MapConcat(a, b, f);
    MapOne(x, f);
    BagOfParts(MapBy(a, f), f(x), MapBy(b, f));
  }

  lemma MapOne<T, U>(x: T, f: T -> U)
    ensures MapBy([x], f) == [f(x)]
  {
  }

  lemma Without<T>(t: seq<T>, i: nat)
    requires i < |t|
    ensures multiset(t[..i] + t[i + 1..]) == multiset(t) - multiset{t[i]}
  {
    ThreeParts(t, i);
    BagOfParts(t[..i], t[i], t[i + 1..]);
  }

  lemma {:induction false} MapIgnoresOrder<T, U>(s: seq<T>, t: seq<T>, f: T -> U)
    requires multiset(s) == multiset(t)
    ensures multiset(MapBy(s, f)) == multiset(MapBy(t, f))
    decreases |s|
  {
    SameMembers(s, t);
    if s != [] {
      var n := |s| - 1;
      assert s[n] in t;
      var i :| 0 <= i < |t| && t[i] == s[n];
      Without(s, n);
      Without(t, i);
      MapIgnoresOrder(s[..n] + s[n + 1..], t[..i] + t[i + 1..], f);
      MapWithout(s, n, f);
      MapWithout(t, i, f);
    }
  }

  lemma MapConcat<T, U>(a: seq<T>, b: seq<T>, f: T -> U)
    ensures MapBy(a + b, f) == MapBy(a, f) + MapBy(b, f)
  {
  }
}

/** Column selections of an import, and the mapping that a reviewed commit is planned with. */
module ImportSelections {
  import opened Text
  import opened Lists
  import opened Sorting
  import opened ImportRows

  /** A target field with the source column chosen for it; None leaves it unmapped. */
  datatype Selection = Selection(target: string, column: Option<string>, kind: FieldType)

  function ForTarget(target: string): Selection -> bool {
    (s: Selection) => s.target == target
  }

  function TargetOf(): Field -> string {
    (f: Field) => f.target
  }

  predicate IsKnown(s: Selection, definitions: seq<Field>, headers: seq<string>) {
    && (exists i | 0 <= i < |definitions| :: definitions[i].target == s.target)
    && (s.column.Some? ==> s.column.value in headers)
  }

  /** Two selections that may stand in one list. */
  predicate AreApart(a: Selection, b: Selection) {
    a.target != b.target && (a.column.Some? ==> a.column != b.column)
  }

  /** Known targets and columns, no target and no column chosen twice. */
  predicate AreAccepted(input: seq<Selection>, definitions: seq<Field>, headers: seq<string>) {
    && (forall i | 0 <= i < |input| :: IsKnown(input[i], definitions, headers))
    && forall i, j | 0 <= i < j < |input| :: AreApart(input[i], input[j])
  }

  /** The map of selections and the set of used columns after the first n selections. */
  ghost predicate Holds(selections: map<string, Selection>, used: set<string>, input: seq<Selection>, n: nat)
    requires n <= |input|
  {
    && (forall i | 0 <= i < n :: input[i].target in selections && selections[input[i].target] == input[i])
    && (forall t | t in selections :: exists i | 0 <= i < n :: input[i].target == t)
    && (forall i | 0 <= i < n && input[i].column.Some? :: input[i].column.value in used)
    && (forall c | c in used :: exists i | 0 <= i < n :: input[i].column == Some(c))
  }

  lemma HoldsMore(selections: map<string, Selection>, used: set<string>, input: seq<Selection>, n: nat)
    requires n < |input| && Holds(selections, used, input, n)
    requires input[n].target !in selections && (input[n].column.Some? ==> input[n].column.value !in used)
    ensures var s := input[n];
            Holds(selections[s.target := s], if s.column.Some? then used + {s.column.value} else used, input, n + 1)
  {
    var s := input[n];
    var more := selections[s.target := s];
    forall t | t in more ensures exists i | 0 <= i < n + 1 :: input[i].target == t {
      if t == s.target { assert input[n].target == t; }
    }
    var columns := if s.column.Some? then used + {s.column.value} else used;
    forall c | c in columns ensures exists i | 0 <= i < n + 1 :: input[i].column == Some(c) {
      if c !in used { assert input[n].column == Some(c); }
    }
  }

  lemma NewIsApart(selections: map<string, Selection>, used: set<string>, input: seq<Selection>, n: nat)
    requires n < |input| && Holds(selections, used, input, n)
    requires input[n].target !in selections && (input[n].column.Some? ==> input[n].column.value !in used)
    ensures forall i | 0 <= i < n :: AreApart(input[i], input[n])
  {
  }

  lemma RepeatIsRefused(selections: map<string, Selection>, used: set<string>, input: seq<Selection>, n: nat,
                        definitions: seq<Field>, headers: seq<string>)
    requires n < |input| && Holds(selections, used, input, n)
    requires input[n].target in selections || (input[n].column.Some? && input[n].column.value in used)
    ensures !AreAccepted(input, definitions, headers)
  {
    if input[n].target in selections {
      var i :| 0 <= i < n && input[i].target == input[n].target;
      assert !AreApart(input[i], input[n]);
    } else {
      var i :| 0 <= i < n && input[i].column == Some(input[n].column.value);
      assert !AreApart(input[i], input[n]);
    }
  }

  lemma NothingHolds(input: seq<Selection>)
    ensures Holds(map[], {}, input, 0)
  {
  }

  lemma AllHold(selections: map<string, Selection>, used: set<string>, input: seq<Selection>)
    requires Holds(selections, used, input, |input|)
    ensures forall s | s in input :: s.target in selections && selections[s.target] == s
    ensures forall t | t in selections :: selections[t] in input
  {
  }

  /** validateSelections: the loop with its map of selections and its set of used columns. */
  method ValidateSelections(input: seq<Selection>, definitions: seq<Field>, headers: seq<string>)
    returns (r: Option<map<string, Selection>>)
    ensures r.Some? <==> AreAccepted(input, definitions, headers)
    ensures r.Some? ==>
              (forall s | s in input :: s.target in r.value && r.value[s.target] == s)
              && forall t | t in r.value :: r.value[t] in input
  {
    hide IsKnown, AreApart, Holds;
    var selections: map<string, Selection> := map[];
    var used: set<string> := {};
    var n := 0;
    NothingHolds(input);
    while n < |input|
      invariant 0 <= n <= |input|
      invariant Holds(selections, used, input, n)
      invariant forall i | 0 <= i < n :: IsKnown(input[i], definitions, headers)
      invariant forall i, j | 0 <= i < j < n :: AreApart(input[i], input[j])
    {
      var s := input[n];
      if !IsKnown(s, definitions, headers) {
        return None;
      }
      if s.target in selections || (s.column.Some? && s.column.value in used) {
        RepeatIsRefused(selections, used, input, n, definitions, headers);
        return None;
      }
      HoldsMore(selections, used, input, n);
      NewIsApart(selections, used, input, n);
      if s.column.Some? {
        used := used + {s.column.value};
      }
      selections := selections[s.target := s];
      n := n + 1;
    }
    AllHold(selections, used, input);
    return Some(selections);
  }

  // ------------------------------------------------------------------ the reviewed mapping

  /** What the request says about a field; a field it does not mention is unmapped. */
  function SelectionFor(d: Field, input: seq<Selection>): (s: Selection)
    ensures s.target == d.target
  {
    var i := FirstIndex(input, ForTarget(d.target));
    if i.Some? then input[i.value] else Selection(d.target, None, d.kind)
  }

  function ReviewedSelections(input: seq<Selection>, definitions: seq<Field>): (r: seq<Selection>)
    ensures |r| == |definitions| && forall k | 0 <= k < |r| :: r[k] == SelectionFor(definitions[k], input)
  {
    seq(|definitions|, k requires 0 <= k < |definitions| => SelectionFor(definitions[k], input))
  }

  function IsHeader(c: string): string -> bool {
    (h: string) => h == c
  }

  /** mapField for a selected column: its index among the headers. */
  function MappedField(d: Field, s: Selection, headers: seq<string>): Field {
    d.(column := if s.column.None? then None else FirstIndex(headers, IsHeader(s.column.value)))
  }

  function MappedFields(input: seq<Selection>, definitions: seq<Field>, headers: seq<string>): (r: seq<Field>)
    ensures |r| == |definitions|
    ensures forall k | 0 <= k < |r| :: r[k] == MappedField(definitions[k], SelectionFor(definitions[k], input), headers)
  {
    seq(|definitions|, k requires 0 <= k < |definitions| =>
      MappedField(definitions[k], SelectionFor(definitions[k], input), headers))
  }

  lemma SuppliedSelection(d: Field, input: seq<Selection>)
    ensures SelectionFor(d, input).column.Some? ==> SelectionFor(d, input) in input
  {
  }

  lemma MembersAreApart(input: seq<Selection>, a: Selection, b: Selection)
    requires forall i, j | 0 <= i < j < |input| :: AreApart(input[i], input[j])
    requires a in input && b in input && a != b
    ensures AreApart(a, b)
  {
    var i :| 0 <= i < |input| && input[i] == a;
    var j :| 0 <= j < |input| && input[j] == b;
    if j < i { assert AreApart(input[j], input[i]); }
  }

  lemma ReviewedAreApart(input: seq<Selection>, definitions: seq<Field>, headers: seq<string>, j: nat, k: nat)
    requires AreAccepted(input, definitions, headers) && HasDistinctKeys(definitions, TargetOf())
             && j < k < |definitions|
    ensures AreApart(SelectionFor(definitions[j], input), SelectionFor(definitions[k], input))
  {
    hide FirstIndex, IsKnown;
    var a, b := SelectionFor(definitions[j], input), SelectionFor(definitions[k], input);
    assert TargetOf()(definitions[j]) != TargetOf()(definitions[k]);
    SuppliedSelection(definitions[j], input);
    SuppliedSelection(definitions[k], input);
    if a.column.Some? && b.column.Some? { MembersAreApart(input, a, b); }
  }

  /** The validation inside the analysis never refuses the completed selections of a reviewed request. */
  lemma ReviewedAreAccepted(input: seq<Selection>, definitions: seq<Field>, headers: seq<string>)
    requires AreAccepted(input, definitions, headers) && HasDistinctKeys(definitions, TargetOf())
    ensures AreAccepted(ReviewedSelections(input, definitions), definitions, headers)
  {
    hide FirstIndex, HasDistinctKeys;
    var r := ReviewedSelections(input, definitions);
    forall k | 0 <= k < |r| ensures IsKnown(r[k], definitions, headers) {
      SuppliedSelection(definitions[k], input);
      assert definitions[k].target == r[k].target;
    }
    forall j, k | 0 <= j < k < |r| ensures AreApart(r[j], r[k]) {
      ReviewedAreApart(input, definitions, headers, j, k);
    }
  }

  /**
   * The mapping that was reviewed is the mapping that is planned with: every field is mapped to the column
   * selected for it, no two fields share a column, and so the automatic unmapping of shared columns takes
   * nothing away.
   */
  lemma ReviewedMappingStands(input: seq<Selection>, definitions: seq<Field>, headers: seq<string>, k: nat)
    requires AreAccepted(input, definitions, headers) && HasDistinctKeys(definitions, TargetOf()) && k < |definitions|
    ensures var fields := MappedFields(input, definitions, headers); var f := fields[k];
            && Unshared(f, fields) == f && f.target == definitions[k].target && f.kind == definitions[k].kind
            && (forall s | s in input && s.target == f.target :: HasColumn(f, s.column, headers))
            && ((forall s | s in input :: s.target != f.target) ==> HasColumn(f, None, headers))
  {
    hide Count, HasDistinctKeys, AreApart;
    var fields := MappedFields(input, definitions, headers);
    var s := SelectionFor(definitions[k], input);
    SuppliedSelection(definitions[k], input);
    OnlySelection(definitions[k], input, definitions, headers);
    if s.column.Some? {
      SelectedColumnIsFound(headers, s.column.value);
      forall j | 0 <= j < |fields| && j != k ensures fields[j].column != fields[k].column {
        ColumnsDiffer(input, definitions, headers, j, k);
      }
      OnlyOwner(fields, k);
    }
  }

  /** The field is mapped to the column of that name, or to none. */
  predicate HasColumn(f: Field, column: Option<string>, headers: seq<string>) {
    if column.None? then f.column.None?
    else f.column.Some? && f.column.value < |headers| && headers[f.column.value] == column.value
  }

  /** A field is mentioned once at most, and then that is what the request says of it. */
  lemma OnlySelection(d: Field, input: seq<Selection>, definitions: seq<Field>, headers: seq<string>)
    requires AreAccepted(input, definitions, headers)
    ensures forall s | s in input && s.target == d.target :: SelectionFor(d, input) == s
    ensures (forall s | s in input :: s.target != d.target) ==> SelectionFor(d, input).column.None?
  {
    hide IsKnown;
    var p := ForTarget(d.target);
    forall s | s in input && s.target == d.target ensures SelectionFor(d, input) == s {
      assert p(s);
      var found := FirstIndex(input, p);
      if found.Some? && input[found.value] != s { MembersAreApart(input, input[found.value], s); }
    }
  }

  lemma SelectedColumnIsFound(headers: seq<string>, c: string)
    requires c in headers
    ensures var i := FirstIndex(headers, IsHeader(c)); i.Some? && i.value < |headers| && headers[i.value] == c
  {
    var k :| 0 <= k < |headers| && headers[k] == c;
    assert IsHeader(c)(headers[k]);
  }

  lemma ColumnsDiffer(input: seq<Selection>, definitions: seq<Field>, headers: seq<string>, j: nat, k: nat)
    requires AreAccepted(input, definitions, headers) && HasDistinctKeys(definitions, TargetOf())
    requires j < |definitions| && k < |definitions| && j != k
    requires SelectionFor(definitions[k], input).column.Some?
    ensures MappedField(definitions[j], SelectionFor(definitions[j], input), headers).column
            != MappedField(definitions[k], SelectionFor(definitions[k], input), headers).column
  {
    hide FirstIndex, HasDistinctKeys;
    if j < k {
      ReviewedAreApart(input, definitions, headers, j, k);
    } else {
      ReviewedAreApart(input, definitions, headers, k, j);
    }
    var a, b := SelectionFor(definitions[j], input), SelectionFor(definitions[k], input);
    SuppliedSelection(definitions[j], input);
    SuppliedSelection(definitions[k], input);
    SelectedColumnIsFound(headers, b.column.value);
    if a.column.Some? { SelectedColumnIsFound(headers, a.column.value); }
  }

  /** A column with a single field mapped to it has one owner. */
  lemma OnlyOwner(fields: seq<Field>, k: nat)
    requires k < |fields| && fields[k].column.Some?
    requires forall j | 0 <= j < |fields| && j != k :: fields[j].column != fields[k].column
    ensures Owners(fields, fields[k].column.value) == 1
  {
    var p := MappedTo(fields[k].column.value);
    assert fields[..k] + [fields[k]] + fields[k + 1..] == fields;
    OneOfThree(fields[..k], fields[k], fields[k + 1..], p);
  }

  lemma {:induction false} OneOfThree<T>(a: seq<T>, x: T, b: seq<T>, p: T -> bool)
    requires p(x) && (forall i | 0 <= i < |a| :: !p(a[i])) && forall i | 0 <= i < |b| :: !p(b[i])
    ensures Filter(a + [x] + b, p) == [x]
    decreases |b|
  {
    if b == [] {
      FilterNone(a, p);
      FilterAppend(a, x, p);
      assert a + [x] + b == a + [x];
    } else {
      var n := |b| - 1;
      OneOfThree(a, x, b[..n], p);
      FilterAppend(a + [x] + b[..n], b[n], p);
      assert a + [x] + b == (a + [x] + b[..n]) + [b[n]];
    }
  }
}

/** Merging ingested prospects into the stored list by their dedupe keys. */
module ProspectMerge {
  import opened Text
  import opened Sorting
  import opened NumericEvidence
  import DV = DecimalValue
  import DE = DecimalExact
  import LC = LeakCases

  /** A prospect: its id and dedupe key, which may be empty, and its other fields. */
  datatype Prospect = Prospect(id: string, dedupeKey: string, fields: map<string, LC.Json>)

  /** String(value) of a text, a number or a truth value. */
  function Printed(v: LC.Json): string {
    match v
    case JText(text) => text
    case JNumber(literal) => literal
    case JBool(b) => if b then "true" else "false"
    case _ => ""
  }

  /** What || takes for a value. */
  predicate IsTruthy(v: LC.Json) {
    match v
    case JText(text) => text != ""
    case JNumber(literal) => !IsExactZeroLiteral(literal)
    case JBool(b) => b
    case JNull => false
    case _ => true
  }

  /** cleanString of a field, blank when it is missing. */
  function CleanField(p: Prospect, name: string): string {
    if name in p.fields then NormalizeText(Printed(p.fields[name])) else ""
  }

  /** The field that holds the name: businessName unless it is missing, empty or zero. */
  function NameField(p: Prospect): string {
    if "businessName" in p.fields && IsTruthy(p.fields["businessName"]) then "businessName" else "name"
  }

  /** Keeps the digits and plus signs of a phone number. */
  function PhoneDigits(s: string): string {
    if s == "" then ""
    else (if '0' <= s[0] <= '9' || s[0] == '+' then [s[0]] else []) + PhoneDigits(s[1..])
  }

  /** buildDedupeKey; url stands for the parsing of web addresses. */
  function BuildDedupeKey(p: Prospect, url: string -> string): (key: string)
    ensures key != ""
  {
    var website := if CleanField(p, "website") == "" then "" else url(CleanField(p, "website"));
    var email := ToLower(CleanField(p, "email"));
    var phone := PhoneDigits(CleanField(p, "phone"));
    var name := CleanField(p, NameField(p));
    if website != "" then "website:" + website
    else if email != "" then "email:" + email
    else if phone != "" then "phone:" + phone
    else "identity:" + ToLower(name) + "|" + ToLower(CleanField(p, "address"))
  }

  function KeyOf(p: Prospect, url: string -> string): (key: string)
    ensures key != ""
  {
    if p.dedupeKey != "" then p.dedupeKey else BuildDedupeKey(p, url)
  }

  // ------------------------------------------------------------------ whom a key names

  /** How a prospect is told from others: by web site, else mail, else phone, else name and address. */
  datatype Identity = Web(site: string) | Mail(email: string) | Phone(digits: string) | Named(text: string)

  /** What a field says: its text, number or truth value with single blanks, and nothing when there is none. */
  function Says(p: Prospect, name: string): string {
    if name !in p.fields then ""
    else
      match p.fields[name]
      case JText(text) => NormalizeText(text)
      case JNumber(literal) => NormalizeText(literal)
      case JBool(true) => "true"
      case JBool(false) => "false"
      case _ => ""
  }

  lemma FieldSays(p: Prospect, name: string)
    ensures CleanField(p, name) == Says(p, name)
  {
    hide CollapseSpaces;
    TrimKeepsTrimmed("true");
    TrimKeepsTrimmed("false");
    TrimKeepsTrimmed("");
    WordStays("true");
    WordStays("false");
    WordStays("");
  }

  lemma WordStays(word: string)
    requires forall i | 0 <= i < |word| :: !IsSpace(word[i])
    ensures CollapseSpaces(word) == word
  {
    RunsBecomeBlanks(word, " ", "");
  }

  function IdentityOf(p: Prospect, url: string -> string): Identity {
    if Says(p, "website") != "" && url(Says(p, "website")) != "" then Web(url(Says(p, "website")))
    else if Says(p, "email") != "" then Mail(ToLower(Says(p, "email")))
    else if PhoneDigits(Says(p, "phone")) != "" then Phone(PhoneDigits(Says(p, "phone")))
    else
      Named(ToLower(Says(p, NameField(p))) + "|" + ToLower(Says(p, "address")))
  }

  /** The name is read from businessName unless that is missing, null, empty, zero or false. */
  lemma NameFieldExactly(p: Prospect)
    ensures NameField(p) in {"businessName", "name"}
    ensures NameField(p) == "businessName" <==>
            "businessName" in p.fields
            && match p.fields["businessName"]
               case JNull => false
               case JText(text) => |text| > 0
               case JBool(b) => b
               case JNumber(literal) => !(IsDecimalNumberLiteral(literal) && DV.Value(literal) == 0.0)
               case _ => true
  {
    hide DV.Value, IsDecimalNumberLiteral, IsExactZeroLiteral;
    if "businessName" in p.fields && p.fields["businessName"].JNumber? {
      DE.ZeroAndSignAreExact(p.fields["businessName"].text);
    }
  }

  /** The digits and plus signs of a text, in their order, and nothing else. */
  lemma {:induction false} PhoneDigitsAreKept(a: string, b: string)
    ensures PhoneDigits(a + b) == PhoneDigits(a) + PhoneDigits(b)
    ensures |a| == 1 ==> PhoneDigits(a) == if a[0] == '+' || '0' <= a[0] <= '9' then a else ""
  {
    if a == "" {
      assert a + b == b;
    } else {
      PhoneDigitsAreKept(a[1..], b);
      assert (a + b)[1..] == a[1..] + b;
    }
  }

  function Tag(i: Identity): string {
    match i
    case Web(site) => "website:" + site
    case Mail(email) => "email:" + email
    case Phone(digits) => "phone:" + digits
    case Named(text) => "identity:" + text
  }

  lemma TagsDiffer(i: Identity, j: Identity)
    ensures Tag(i) == Tag(j) <==> i == j
  {
    assert Tag(i)[0] == (match i case Web(_) => 'w' case Mail(_) => 'e' case Phone(_) => 'p' case Named(_) => 'i');
    assert Tag(j)[0] == (match j case Web(_) => 'w' case Mail(_) => 'e' case Phone(_) => 'p' case Named(_) => 'i');
    match i {
      case Web(s) => if j.Web? { assert Tag(i)[8..] == s && Tag(j)[8..] == j.site; }
      case Mail(s) => if j.Mail? { assert Tag(i)[6..] == s && Tag(j)[6..] == j.email; }
      case Phone(s) => if j.Phone? { assert Tag(i)[6..] == s && Tag(j)[6..] == j.digits; }
      case Named(s) => if j.Named? { assert Tag(i)[9..] == s && Tag(j)[9..] == j.text; }
    }
  }

  /** Two prospects get one key exactly when they are told apart by the same kind of field and agree on it. */
  lemma KeysAgreeExactlyWhen(p: Prospect, q: Prospect, url: string -> string)
    ensures BuildDedupeKey(p, url) == BuildDedupeKey(q, url) <==> IdentityOf(p, url) == IdentityOf(q, url)
  {
    hide CleanField, PhoneDigits, Tag, NameField, Says;
    KeyIsTag(p, url);
    KeyIsTag(q, url);
    TagsDiffer(IdentityOf(p, url), IdentityOf(q, url));
  }

  lemma KeyIsTag(p: Prospect, url: string -> string)
    ensures BuildDedupeKey(p, url) == Tag(IdentityOf(p, url))
  {
    hide CleanField, PhoneDigits, NameField, Says;
    FieldSays(p, "website");
    FieldSays(p, "email");
    FieldSays(p, "phone");
    FieldSays(p, NameField(p));
    FieldSays(p, "address");
  }

  /** The incoming fields over the stored ones; the stored id stays. */
  function Overlay(stored: Prospect, p: Prospect, key: string): Prospect {
    Prospect(stored.id, key, stored.fields + p.fields)
  }

  /** The last position that holds the key, which is what a map filled in order remembers. */
  function SlotOf(list: seq<Prospect>, key: string, url: string -> string): (r: Option<nat>)
    ensures r.Some? ==> r.value < |list| && KeyOf(list[r.value], url) == key
    ensures r.None? ==> forall i | 0 <= i < |list| :: KeyOf(list[i], url) != key
  {
    if list == [] then None
    else if KeyOf(list[|list| - 1], url) == key then Some(|list| - 1)
    else SlotOf(list[..|list| - 1], key, url)
  }

  function MergeOne(list: seq<Prospect>, p: Prospect, url: string -> string): seq<Prospect> {
    var key := KeyOf(p, url);
    var slot := SlotOf(list, key, url);
    if slot.Some? then list[slot.value := Overlay(list[slot.value], p, key)] else list + [p]
  }

  function Merged(list: seq<Prospect>, incoming: seq<Prospect>, url: string -> string): seq<Prospect> {
    if incoming == [] then list
    else MergeOne(Merged(list, incoming[..|incoming| - 1], url), incoming[|incoming| - 1], url)
  }

  datatype Stats = Stats(added: nat, updated: nat, duplicates: nat, total: nat)

  /** The index names the last slot of every key of the list, and nothing else. */
  ghost predicate Indexes(index: map<string, nat>, list: seq<Prospect>, url: string -> string) {
    forall key: string :: SlotOf(list, key, url) == if key in index then Some(index[key]) else None
  }

  lemma IndexGrows(index: map<string, nat>, list: seq<Prospect>, p: Prospect, url: string -> string)
    requires Indexes(index, list, url)
    ensures Indexes(index[KeyOf(p, url) := |list|], list + [p], url)
  {
    hide KeyOf;
    var grown := index[KeyOf(p, url) := |list|];
    forall key: string ensures SlotOf(list + [p], key, url) == if key in grown then Some(grown[key]) else None {
      assert (list + [p])[..|list|] == list;
    }
  }

  /** Overwriting a slot by a prospect of the same key moves no slot. */
  lemma {:induction false} SlotsStay(list: seq<Prospect>, i: nat, p: Prospect, key: string, url: string -> string)
    requires i < |list| && KeyOf(p, url) == KeyOf(list[i], url)
    ensures SlotOf(list[i := p], key, url) == SlotOf(list, key, url)
  {
    hide KeyOf;
    var n := |list| - 1;
    if i < n {
      SlotsStay(list[..n], i, p, key, url);
      assert list[i := p][..n] == list[..n][i := p];
    } else {
      assert list[i := p][..n] == list[..n];
    }
  }

  /** mergeProspects: the index built in a first loop and kept up to date in the second. */
  method MergeProspects(existing: seq<Prospect>, incoming: seq<Prospect>, url: string -> string)
    returns (merged: seq<Prospect>, stats: Stats)
    ensures merged == Merged(existing, incoming, url)
    ensures stats.added + stats.updated == |incoming| && stats.duplicates == stats.updated
    ensures stats.total == |merged| == |existing| + stats.added
  {
    hide KeyOf, SlotOf;
    merged := existing;
    var index: map<string, nat> := map[];
    var i := 0;
    EmptyIndex(url);
    while i < |merged|
      invariant 0 <= i <= |merged| && merged == existing
      invariant Indexes(index, merged[..i], url)
    {
      IndexGrows(index, merged[..i], merged[i], url);
      assert merged[..i + 1] == merged[..i] + [merged[i]];
      index := index[KeyOf(merged[i], url) := i];
      i := i + 1;
    }
    assert merged[..i] == merged;
    var added, updated, duplicates := 0, 0, 0;
    var n := 0;
    while n < |incoming|
      invariant 0 <= n <= |incoming|
      invariant merged == Merged(existing, incoming[..n], url)
      invariant Indexes(index, merged, url)
      invariant 0 <= added && 0 <= updated == duplicates && added + updated == n && |merged| == |existing| + added
    {
      assert incoming[..n + 1][..n] == incoming[..n];
      var p := incoming[n];
      var key := KeyOf(p, url);
      assert SlotOf(merged, key, url) == if key in index then Some(index[key]) else None;
      if key in index {
        var slot := index[key];
        SlotInRange(merged, key, url);
        ghost var before := merged;
        var overlaid := Overlay(merged[slot], p, key);
        KeyOfOverlay(merged[slot], p, key, url);
        forall k: string ensures SlotOf(merged[slot := overlaid], k, url) == SlotOf(merged, k, url) {
          SlotsStay(merged, slot, overlaid, k, url);
        }
        merged := merged[slot := overlaid];
        updated, duplicates := updated + 1, duplicates + 1;
      } else {
        IndexGrows(index, merged, p, url);
        index := index[key := |merged|];
        merged := merged + [p];
        added := added + 1;
      }
      n := n + 1;
    }
    assert incoming[..n] == incoming;
    stats := Stats(added, updated, duplicates, |merged|);
  }

  lemma EmptyIndex(url: string -> string)
    ensures Indexes(map[], [], url)
  {
  }

  lemma SlotInRange(list: seq<Prospect>, key: string, url: string -> string)
    ensures var s := SlotOf(list, key, url); s.Some? ==> s.value < |list| && KeyOf(list[s.value], url) == key
  {
  }

  lemma KeyOfOverlay(stored: Prospect, p: Prospect, key: string, url: string -> string)
    requires key != ""
    ensures KeyOf(Overlay(stored, p, key), url) == key
  {
  }

  // ------------------------------------------------------------------ what a merge keeps

  function KeyBy(url: string -> string): Prospect -> string {
    (p: Prospect) => KeyOf(p, url)
  }

  /** What a merged list owes the stored one: the same ids and keys at the same positions. */
  predicate KeepsPositions(list: seq<Prospect>, merged: seq<Prospect>, url: string -> string) {
    && |list| <= |merged|
    && forall i | 0 <= i < |list| :: merged[i].id == list[i].id && KeyOf(merged[i], url) == KeyOf(list[i], url)
  }

  lemma OneKeeps(list: seq<Prospect>, p: Prospect, url: string -> string)
    ensures KeepsPositions(list, MergeOne(list, p, url), url)
    ensures HasDistinctKeys(list, KeyBy(url)) ==> HasDistinctKeys(MergeOne(list, p, url), KeyBy(url))
    ensures exists i | 0 <= i < |MergeOne(list, p, url)| :: KeyOf(MergeOne(list, p, url)[i], url) == KeyOf(p, url)
  {
    hide KeyOf, BuildDedupeKey;
    var key := KeyOf(p, url);
    var slot := SlotOf(list, key, url);
    var after := MergeOne(list, p, url);
    if slot.Some? {
      KeyOfOverlay(list[slot.value], p, key, url);
      assert KeyOf(after[slot.value], url) == key;
    } else {
      assert KeyOf(after[|list|], url) == key;
    }
  }

  /** Every position keeps its id and key, keys stay distinct, and every incoming key has its slot. */
  lemma {:induction false} MergeKeeps(list: seq<Prospect>, incoming: seq<Prospect>, url: string -> string)
    requires HasDistinctKeys(list, KeyBy(url))
    ensures var m := Merged(list, incoming, url);
            && KeepsPositions(list, m, url) && HasDistinctKeys(m, KeyBy(url))
            && forall p | p in incoming :: exists i | 0 <= i < |m| :: KeyOf(m[i], url) == KeyOf(p, url)
  {
    hide KeyOf, MergeOne, HasDistinctKeys;
    if incoming != [] {
      var front, last := incoming[..|incoming| - 1], incoming[|incoming| - 1];
      MergeKeeps(list, front, url);
      var before := Merged(list, front, url);
      OneKeeps(before, last, url);
      var m := MergeOne(before, last, url);
      forall p | p in incoming ensures exists i | 0 <= i < |m| :: KeyOf(m[i], url) == KeyOf(p, url) {
        if p in front {
          var i :| 0 <= i < |before| && KeyOf(before[i], url) == KeyOf(p, url);
          assert KeyOf(m[i], url) == KeyOf(p, url);
        } else {
          assert p == last;
        }
      }
    }
  }

  // ------------------------------------------------------------------ merging again

  /** The last value that the incoming prospects of a key have for a field. */
  function LastValue(incoming: seq<Prospect>, key: string, field: string, url: string -> string): Option<LC.Json> {
    if incoming == [] then None
    else
      var last := incoming[|incoming| - 1];
      if KeyOf(last, url) == key && field in last.fields then Some(last.fields[field])
      else LastValue(incoming[..|incoming| - 1], key, field, url)
  }

  /** Whatever an incoming prospect of its key said last about a field, the prospect says too. */
  ghost predicate Reflects(p: Prospect, incoming: seq<Prospect>, url: string -> string) {
    forall field: string ::
      var v := LastValue(incoming, KeyOf(p, url), field, url);
      v.Some? ==> field in p.fields && p.fields[field] == v.value
  }

  /** Normalised prospects carry the key they are merged under. */
  predicate IsNormalized(incoming: seq<Prospect>) {
    forall p | p in incoming :: p.dedupeKey != ""
  }

  lemma LastStep(incoming: seq<Prospect>, last: Prospect, key: string, field: string, url: string -> string)
    ensures LastValue(incoming + [last], key, field, url) ==
            if KeyOf(last, url) == key && field in last.fields then Some(last.fields[field])
            else LastValue(incoming, key, field, url)
  {
    hide KeyOf;
    assert (incoming + [last])[..|incoming|] == incoming;
  }

  lemma {:induction false} NoLastValue(incoming: seq<Prospect>, key: string, field: string, url: string -> string)
    requires forall p | p in incoming :: KeyOf(p, url) != key
    ensures LastValue(incoming, key, field, url).None?
  {
    hide KeyOf;
    if incoming != [] {
      assert incoming[|incoming| - 1] in incoming;
      NoLastValue(incoming[..|incoming| - 1], key, field, url);
    }
  }

  /** An incoming prospect laid over a slot that reflects the earlier ones. */
  lemma OverlayReflects(stored: Prospect, incoming: seq<Prospect>, p: Prospect, url: string -> string)
    requires Reflects(stored, incoming, url) && KeyOf(stored, url) == KeyOf(p, url)
    ensures Reflects(Overlay(stored, p, KeyOf(p, url)), incoming + [p], url)
  {
    hide KeyOf;
    var key := KeyOf(p, url);
    var r := Overlay(stored, p, key);
    KeyOfOverlay(stored, p, key, url);
    forall field: string
      ensures var v := LastValue(incoming + [p], key, field, url);
              v.Some? ==> field in r.fields && r.fields[field] == v.value
    {
      LastStep(incoming, p, key, field, url);
      assert LastValue(incoming, KeyOf(stored, url), field, url).Some? ==> field in stored.fields;
    }
  }

  lemma OtherReflects(stored: Prospect, incoming: seq<Prospect>, p: Prospect, url: string -> string)
    requires Reflects(stored, incoming, url) && KeyOf(stored, url) != KeyOf(p, url)
    ensures Reflects(stored, incoming + [p], url)
  {
    hide KeyOf;
    forall field: string
      ensures LastValue(incoming + [p], KeyOf(stored, url), field, url)
              == LastValue(incoming, KeyOf(stored, url), field, url)
    {
      LastStep(incoming, p, KeyOf(stored, url), field, url);
    }
  }

  /** After a merge every slot reflects the incoming list. */
  lemma {:induction false} MergeReflects(list: seq<Prospect>, incoming: seq<Prospect>, url: string -> string, i: nat)
    requires HasDistinctKeys(list, KeyBy(url)) && i < |Merged(list, incoming, url)|
    ensures Reflects(Merged(list, incoming, url)[i], incoming, url)
  {
    hide KeyOf, HasDistinctKeys, Reflects;
    if incoming == [] {
      NothingToReflect(list[i], url);
    } else {
      var front, last := incoming[..|incoming| - 1], incoming[|incoming| - 1];
      assert incoming == front + [last];
      var before := Merged(list, front, url);
      var slot := SlotOf(before, KeyOf(last, url), url);
      MergeKeeps(list, front, url);
      if i < |before| {
        MergeReflects(list, front, url, i);
        if slot == Some(i) {
          OverlayReflects(before[i], front, last, url);
        } else {
          if slot.Some? { DistinctAt(before, KeyBy(url), slot.value, i); }
          OtherReflects(before[i], front, last, url);
        }
      } else {
        FirstReflects(front, last, url);
      }
    }
  }

  /** Of a stored prospect a merge changes the fields that incoming prospects of its key speak of, and no others. */
  lemma {:induction false} SilentFieldsStay(list: seq<Prospect>, incoming: seq<Prospect>, url: string -> string,
                                            i: nat, field: string)
    requires HasDistinctKeys(list, KeyBy(url)) && i < |list|
    requires LastValue(incoming, KeyOf(list[i], url), field, url).None?
    ensures var m := Merged(list, incoming, url);
            && i < |m| && (field in m[i].fields <==> field in list[i].fields)
            && (field in list[i].fields ==> m[i].fields[field] == list[i].fields[field])
  {
    hide KeyOf, SlotOf, HasDistinctKeys;
    MergeKeeps(list, incoming, url);
    if incoming != [] {
      var front, last := incoming[..|incoming| - 1], incoming[|incoming| - 1];
      SilentFieldsStay(list, front, url, i, field);
      MergeKeeps(list, front, url);
    }
  }

  lemma DistinctAt<T, K>(s: seq<T>, key: T -> K, i: nat, j: nat)
    requires HasDistinctKeys(s, key) && i < |s| && j < |s| && i != j
    ensures key(s[i]) != key(s[j])
  {
  }

  lemma NothingToReflect(p: Prospect, url: string -> string)
    ensures Reflects(p, [], url)
  {
  }

  /** The first prospect of its key reflects what came before it, which is nothing. */
  lemma FirstReflects(front: seq<Prospect>, p: Prospect, url: string -> string)
    requires forall q | q in front :: KeyOf(q, url) != KeyOf(p, url)
    ensures Reflects(p, front + [p], url)
  {
    hide KeyOf;
    forall field: string
      ensures var v := LastValue(front + [p], KeyOf(p, url), field, url);
              v.Some? ==> field in p.fields && p.fields[field] == v.value
    {
      LastStep(front, p, KeyOf(p, url), field, url);
      NoLastValue(front, KeyOf(p, url), field, url);
    }
  }

  /** A slot that an incoming prospect was merged into carries its key. */
  ghost predicate IsKeyed(p: Prospect, incoming: seq<Prospect>, url: string -> string) {
    (exists q | q in incoming :: KeyOf(q, url) == KeyOf(p, url)) ==> p.dedupeKey != ""
  }

  lemma {:induction false} MergeIsKeyed(list: seq<Prospect>, incoming: seq<Prospect>, url: string -> string, i: nat)
    requires HasDistinctKeys(list, KeyBy(url)) && i < |Merged(list, incoming, url)| && IsNormalized(incoming)
    ensures IsKeyed(Merged(list, incoming, url)[i], incoming, url)
  {
    hide KeyOf, HasDistinctKeys;
    if incoming != [] {
      var front, last := incoming[..|incoming| - 1], incoming[|incoming| - 1];
      assert incoming == front + [last] && last in incoming && forall q | q in front :: q in incoming;
      var before := Merged(list, front, url);
      var slot := SlotOf(before, KeyOf(last, url), url);
      MergeKeeps(list, front, url);
      if i < |before| {
        MergeIsKeyed(list, front, url, i);
        if slot.Some? {
          KeyOfOverlay(before[slot.value], last, KeyOf(last, url), url);
          if slot.value != i { DistinctAt(before, KeyBy(url), slot.value, i); }
        }
      }
    }
  }

  /** r is m with the first incoming prospects of its key laid over it once more. */
  ghost predicate IsReplayed(r: Prospect, m: Prospect, incoming: seq<Prospect>, url: string -> string) {
    && r.id == m.id && r.dedupeKey == m.dedupeKey
    && forall field: string ::
         && (field in r.fields <==> field in m.fields)
         && (field in m.fields ==>
               var v := LastValue(incoming, KeyOf(m, url), field, url);
               r.fields[field] == if v.Some? then v.value else m.fields[field])
  }

  lemma ReplayStep(r: Prospect, m: Prospect, incoming: seq<Prospect>, p: Prospect, url: string -> string)
    requires IsReplayed(r, m, incoming, url) && KeyOf(p, url) == KeyOf(m, url) && m.dedupeKey != ""
    requires forall field | field in p.fields :: field in m.fields
    ensures IsReplayed(Overlay(r, p, KeyOf(p, url)), m, incoming + [p], url)
  {
    hide BuildDedupeKey;
    var o := Overlay(r, p, KeyOf(p, url));
    forall field: string
      ensures field in o.fields <==> field in m.fields
      ensures field in m.fields ==>
                var v := LastValue(incoming + [p], KeyOf(m, url), field, url);
                o.fields[field] == if v.Some? then v.value else m.fields[field]
    {
      LastStep(incoming, p, KeyOf(m, url), field, url);
    }
  }

  lemma ReplayOther(r: Prospect, m: Prospect, incoming: seq<Prospect>, p: Prospect, url: string -> string)
    requires IsReplayed(r, m, incoming, url) && KeyOf(p, url) != KeyOf(m, url)
    ensures IsReplayed(r, m, incoming + [p], url)
  {
    hide KeyOf;
    forall field: string
      ensures LastValue(incoming + [p], KeyOf(m, url), field, url) == LastValue(incoming, KeyOf(m, url), field, url)
    {
      LastStep(incoming, p, KeyOf(m, url), field, url);
    }
  }

  lemma {:induction false} SpokenFieldsAreReflected(incoming: seq<Prospect>, n: nat, key: string, field: string,
                                                    url: string -> string)
    requires n < |incoming| && KeyOf(incoming[n], url) == key && field in incoming[n].fields
    ensures LastValue(incoming, key, field, url).Some?
  {
    hide KeyOf;
    if n < |incoming| - 1 { SpokenFieldsAreReflected(incoming[..|incoming| - 1], n, key, field, url); }
  }

  /** A list every slot of which has reflected the incoming prospects already. */
  ghost predicate IsSettled(m: seq<Prospect>, incoming: seq<Prospect>, url: string -> string) {
    && HasDistinctKeys(m, KeyBy(url))
    && (forall i | 0 <= i < |m| :: Reflects(m[i], incoming, url) && IsKeyed(m[i], incoming, url))
    && forall p | p in incoming :: exists i | 0 <= i < |m| :: KeyOf(m[i], url) == KeyOf(p, url)
  }

  lemma {:induction false} ReplayPrefix(m: seq<Prospect>, incoming: seq<Prospect>, n: nat, url: string -> string)
    requires IsSettled(m, incoming, url) && n <= |incoming|
    ensures var r := Merged(m, incoming[..n], url);
            |r| == |m| && forall i | 0 <= i < |r| :: IsReplayed(r[i], m[i], incoming[..n], url)
  {
    hide KeyOf, HasDistinctKeys, IsReplayed, Reflects;
    if n == 0 {
      forall i | 0 <= i < |m| ensures IsReplayed(m[i], m[i], [], url) {
        NothingReplayed(m[i], url);
      }
    } else {
      ReplayPrefix(m, incoming, n - 1, url);
      var p := incoming[n - 1];
      assert incoming[..n][..n - 1] == incoming[..n - 1] && incoming[..n] == incoming[..n - 1] + [p];
      var r := Merged(m, incoming[..n - 1], url);
      assert p in incoming;
      var k :| 0 <= k < |m| && KeyOf(m[k], url) == KeyOf(p, url);
      SameKeys(r, m, incoming[..n - 1], url);
      var slot := SlotOf(r, KeyOf(p, url), url);
      forall i | 0 <= i < |r| ensures IsReplayed(MergeOne(r, p, url)[i], m[i], incoming[..n], url) {
        if i == slot.value {
          PromptReplay(r[i], m[i], incoming, n - 1, url);
        } else {
          DistinctAt(m, KeyBy(url), slot.value, i);
          ReplayOther(r[i], m[i], incoming[..n - 1], p, url);
        }
      }
    }
  }

  lemma PromptReplay(r: Prospect, m: Prospect, incoming: seq<Prospect>, n: nat, url: string -> string)
    requires n < |incoming| && IsReplayed(r, m, incoming[..n], url) && KeyOf(incoming[n], url) == KeyOf(m, url)
    requires Reflects(m, incoming, url) && IsKeyed(m, incoming, url)
    ensures IsReplayed(Overlay(r, incoming[n], KeyOf(incoming[n], url)), m, incoming[..n] + [incoming[n]], url)
  {
    hide KeyOf, IsReplayed;
    assert incoming[n] in incoming;
    forall field | field in incoming[n].fields ensures field in m.fields {
      SpokenFieldsAreReflected(incoming, n, KeyOf(m, url), field, url);
    }
    ReplayStep(r, m, incoming[..n], incoming[n], url);
  }

  lemma NothingReplayed(p: Prospect, url: string -> string)
    ensures IsReplayed(p, p, [], url)
  {
  }

  /** Laying prospects over a slot moves no key. */
  lemma SameKeys(r: seq<Prospect>, m: seq<Prospect>, incoming: seq<Prospect>, url: string -> string)
    requires |r| == |m| && forall i | 0 <= i < |r| :: IsReplayed(r[i], m[i], incoming, url)
    requires HasDistinctKeys(m, KeyBy(url))
    requires r == Merged(m, incoming, url)
    ensures forall i | 0 <= i < |r| :: KeyOf(r[i], url) == KeyOf(m[i], url)
  {
    hide KeyOf, IsReplayed;
    MergeKeeps(m, incoming, url);
  }

  lemma FullyReplayed(r: Prospect, m: Prospect, incoming: seq<Prospect>, url: string -> string)
    requires IsReplayed(r, m, incoming, url) && Reflects(m, incoming, url)
    ensures r == m
  {
    hide KeyOf;
    forall field | field in m.fields ensures field in r.fields && r.fields[field] == m.fields[field] {
      assert LastValue(incoming, KeyOf(m, url), field, url).Some? ==>
        m.fields[field] == LastValue(incoming, KeyOf(m, url), field, url).value;
    }
    assert r.fields == m.fields;
  }

  /** Merging the same normalised prospects again changes no record and adds none. */
  lemma MergeIsIdempotent(existing: seq<Prospect>, incoming: seq<Prospect>, url: string -> string)
    requires HasDistinctKeys(existing, KeyBy(url)) && IsNormalized(incoming)
    ensures Merged(Merged(existing, incoming, url), incoming, url) == Merged(existing, incoming, url)
  {
    hide KeyOf, HasDistinctKeys, IsReplayed, Reflects, IsKeyed, IsNormalized, MergeOne;
    var m := Merged(existing, incoming, url);
    MergeKeeps(existing, incoming, url);
    forall i | 0 <= i < |m| ensures Reflects(m[i], incoming, url) && IsKeyed(m[i], incoming, url) {
      MergeReflects(existing, incoming, url, i);
      MergeIsKeyed(existing, incoming, url, i);
    }
    ReplayPrefix(m, incoming, |incoming|, url);
    assert incoming[..|incoming|] == incoming;
    var r := Merged(m, incoming, url);
    forall i | 0 <= i < |m| ensures r[i] == m[i] {
      FullyReplayed(r[i], m[i], incoming, url);
    }
  }
}

/**
 * The field-by-field diff a reviewer sees (src/mcp/proposeChanges.ts:67-202):
 * localized texts per language, ids and classifications by identity, everything
 * else by the comparison key.
 */
module DiffFields {
  import opened Wrappers
  import opened StableJson

  /** How a field is compared; which field is which is a constant table. */
  datatype Kind = Localized | ChannelIds | CodeList | ServiceHours | Other

  /** The collation, the table of kinds, and what service hours are reduced to before they are compared. */
  datatype Rules = Rules(le: Order, kindOf: Text -> Kind, canonicalHours: Json -> Json)

  /** One changed field, or one changed language of a localized field. */
  datatype Entry = Entry(field: Text, language: Option<Text>, before: Json, after: Json)

  const URI: Text := [0x75, 0x72, 0x69]
  const CODE: Text := [0x63, 0x6F, 0x64, 0x65]
  const NAMES: Text := [0x6E, 0x61, 0x6D, 0x65, 0x73]

  // ----- The default sort of strings: by code unit -----

  predicate Lex(a: Text, b: Text)
    decreases |a|
  {
    a == [] || (b != [] && (a[0] < b[0] || (a[0] == b[0] && Lex(a[1..], b[1..]))))
  }

  lemma {:induction false} LexTotal(a: Text, b: Text)
    ensures Lex(a, b) || Lex(b, a)
    ensures Lex(a, b) && Lex(b, a) ==> a == b
    decreases |a|
  {
    if a != [] && b != [] {
      LexTotal(a[1..], b[1..]);
      assert a == [a[0]] + a[1..] && b == [b[0]] + b[1..];
    }
  }

  lemma {:induction false} LexTransitive(a: Text, b: Text, c: Text)
    requires Lex(a, b) && Lex(b, c)
    ensures Lex(a, c)
    decreases |a|
  {
    if a != [] && a[0] == b[0] && b[0] == c[0] {
      LexTransitive(a[1..], b[1..], c[1..]);
    }
  }

  /** There are collations that tie no two keys, the code unit order for one. */
  lemma LexIsTotalOrder()
    ensures TotalPreorder(Lex) && Antisymmetric(Lex)
  {
    forall a, b
      ensures (Lex(a, b) || Lex(b, a)) && (Lex(a, b) && Lex(b, a) ==> a == b)
    {
      LexTotal(a, b);
    }
    forall a, b, c | Lex(a, b) && Lex(b, c)
      ensures Lex(a, c)
    {
      LexTransitive(a, b, c);
    }
  }

  function InsertText(t: Text, sorted: seq<Text>): (r: seq<Text>)
    ensures multiset(r) == multiset([t]) + multiset(sorted)
  {
    if sorted == [] then [t]
    else if Lex(t, sorted[0]) then
      [t] + sorted
    else
      assert sorted == [sorted[0]] + sorted[1..];
      [sorted[0]] + InsertText(t, sorted[1..])
  }

  function SortTexts(texts: seq<Text>): (r: seq<Text>)
    ensures multiset(r) == multiset(texts)
  {
    if texts == [] then []
    else
      assert texts == [texts[0]] + texts[1..];
      InsertText(texts[0], SortTexts(texts[1..]))
  }

  ghost predicate SortedTexts(texts: seq<Text>) {
    forall i, j :: 0 <= i < j < |texts| ==> Lex(texts[i], texts[j])
  }

  lemma {:induction false} InsertTextSorted(t: Text, sorted: seq<Text>)
    requires SortedTexts(sorted)
    ensures SortedTexts(InsertText(t, sorted))
  {
    LexIsTotalOrder();
    if sorted != [] && !Lex(t, sorted[0]) {
      InsertTextSorted(t, sorted[1..]);
      var rest := InsertText(t, sorted[1..]);
      forall j | 0 <= j < |rest|
        ensures Lex(sorted[0], rest[j])
      {
        assert rest[j] in multiset(rest);
        assert rest[j] == t || rest[j] in sorted[1..];
      }
    }
  }

  lemma {:induction false} SortTextsSorted(texts: seq<Text>)
    ensures SortedTexts(SortTexts(texts))
  {
    if texts != [] {
      SortTextsSorted(texts[1..]);
      InsertTextSorted(texts[0], SortTexts(texts[1..]));
    }
  }

  lemma FirstTextIsLeast(texts: seq<Text>, t: Text)
    requires SortedTexts(texts) && t in multiset(texts)
    ensures texts != [] && (texts[0] == t || Lex(texts[0], t))
  {
    hide Lex;
    assert t in texts;
    var i :| 0 <= i < |texts| && texts[i] == t;
  }

  lemma {:induction false} SortedTextsUnique(a: seq<Text>, b: seq<Text>)
    requires SortedTexts(a) && SortedTexts(b) && multiset(a) == multiset(b)
    ensures a == b
  {
    hide Lex;
    if a == [] || b == [] {
      assert |a| == |multiset(a)| == |multiset(b)| == |b|;
    } else {
      assert a[0] in multiset(a) && b[0] in multiset(b);
      FirstTextIsLeast(a, b[0]);
      FirstTextIsLeast(b, a[0]);
      LexTotal(a[0], b[0]);
      WithoutFirst(a);
      WithoutFirst(b);
      SortedTextsUnique(a[1..], b[1..]);
      assert a == [a[0]] + a[1..] && b == [b[0]] + b[1..];
    }
  }

  // ----- Lists compared by what they name -----

  function Strings(texts: seq<Text>): (r: seq<Json>)
    ensures |r| == |texts| && forall i :: 0 <= i < |texts| ==> r[i] == Str(texts[i])
  {
    seq(|texts|, i requires 0 <= i < |texts| => Str(texts[i]))
  }

  /** JSON.stringify of the sorted texts. */
  function ListKey(texts: seq<Text>): Text {
    Plain(Arr(Strings(SortTexts(texts))))
  }

  /** The key sees the order of nothing, but how often each text is listed. */
  lemma ListKeyIsExact(a: seq<Text>, b: seq<Text>)
    ensures ListKey(a) == ListKey(b) <==> multiset(a) == multiset(b)
  {
    var s, t := SortTexts(a), SortTexts(b);
    SortTextsSorted(a);
    SortTextsSorted(b);
    if ListKey(a) == ListKey(b) {
      assert Plain(Arr(Strings(s))) + [] == Plain(Arr(Strings(t))) + [];
      PlainUnique(Arr(Strings(s)), Arr(Strings(t)), [], []);
      assert forall i :: 0 <= i < |s| ==> Strings(s)[i] == Str(s[i]) && Strings(t)[i] == Str(t[i]);
      assert s == t;
    }
    if multiset(a) == multiset(b) {
      SortedTextsUnique(s, t);
    }
  }

  /**
   * Read as sets, lists are compared as intended only without repetitions: a list is told apart
   * from exactly the other sets, whatever duplicate-free list they come as, when it has no duplicates.
   */
  lemma SetComparisonExactly(a: seq<Text>)
    ensures (forall b :: NoDuplicates(b) ==> (ListKey(a) == ListKey(b) <==> SetOf(a) == SetOf(b))) <==> NoDuplicates(a)
  {
    hide ListKey, Dedup;
    if NoDuplicates(a) {
      forall b | NoDuplicates(b)
        ensures ListKey(a) == ListKey(b) <==> SetOf(a) == SetOf(b)
      {
        ListKeyIsExact(a, b);
        SameElementsSameSet(a, b);
        if SetOf(a) == SetOf(b) { SameSetSameElements(a, b); }
      }
    } else {
      var b := Dedup(a);
      assert SetOf(b) == SetOf(a) && NoDuplicates(b);
      ListKeyIsExact(a, b);
      if multiset(a) == multiset(b) { NoDuplicatesByCount(a, b); }
    }
  }

  ghost predicate NoDuplicates(texts: seq<Text>) {
    forall i, j :: 0 <= i < j < |texts| ==> texts[i] != texts[j]
  }

  function SetOf(texts: seq<Text>): set<Text> {
    set t | t in texts
  }

  lemma SameElementsSameSet(a: seq<Text>, b: seq<Text>)
    ensures multiset(a) == multiset(b) ==> SetOf(a) == SetOf(b)
  {
    if multiset(a) == multiset(b) {
      forall t
        ensures t in a <==> t in b
      {
        assert t in a <==> t in multiset(a);
        assert t in b <==> t in multiset(b);
      }
    }
  }

  lemma {:induction false} CountedOnce(a: seq<Text>, t: Text)
    requires NoDuplicates(a)
    ensures multiset(a)[t] == if t in a then 1 else 0
  {
    if a != [] {
      CountedOnce(a[1..], t);
      assert a == [a[0]] + a[1..];
    }
  }

  lemma SameSetSameElements(a: seq<Text>, b: seq<Text>)
    requires NoDuplicates(a) && NoDuplicates(b) && SetOf(a) == SetOf(b)
    ensures multiset(a) == multiset(b)
  {
    forall t
      ensures multiset(a)[t] == multiset(b)[t]
    {
      CountedOnce(a, t);
      CountedOnce(b, t);
      assert t in a <==> t in SetOf(a);
      assert t in b <==> t in SetOf(b);
    }
  }

  lemma NoDuplicatesByCount(a: seq<Text>, b: seq<Text>)
    requires NoDuplicates(b) && multiset(a) == multiset(b)
    ensures NoDuplicates(a)
  {
    forall i, j | 0 <= i < j < |a|
      ensures a[i] != a[j]
    {
      CountedOnce(b, a[i]);
      assert a == a[..i] + [a[i]] + a[i + 1..];
      assert multiset(a) == multiset(a[..i]) + multiset{a[i]} + multiset(a[i + 1..]);
      assert a[i + 1..][j - i - 1] == a[j];
      assert a[j] in multiset(a[i + 1..]);
    }
  }

  function Lookup(members: seq<Member>, key: Text): Json {
    if members == [] then Undefined
    else if members[0].key == key then members[0].value
    else Lookup(members[1..], key)
  }

  /** A classification entry's uri, else its code, else ''. */
  function Identity(entry: Json): Text {
    if !entry.Obj? then []
    else
      var uri, code := Lookup(entry.members, URI), Lookup(entry.members, CODE);
      if uri.Str? then uri.s else if code.Str? then code.s else []
  }

  function Identities(items: seq<Json>): seq<Text> {
    seq(|items|, i requires 0 <= i < |items| => Identity(items[i]))
  }

  function Ids(items: seq<Json>): seq<Text> {
    seq(|items|, i requires 0 <= i < |items| => if items[i].Str? then items[i].s else [])
  }

  /** A list field that is missing counts as empty. */
  predicate ListLike(v: Json) {
    v.Arr? || v.Undefined? || v.Null?
  }

  function ItemsOf(v: Json): seq<Json> {
    if v.Arr? then v.items else []
  }

  function TextsOf(v: Json): seq<Member> {
    if v.Obj? then v.members else []
  }

  function OrNull(v: Json): Json {
    if v.Undefined? then Null else v
  }

  /** The text a field is compared by, for the fields that are compared as a whole. */
  function FieldKey(rules: Rules, kind: Kind, v: Json): Text {
    match kind
    case ChannelIds => ListKey(Ids(ItemsOf(v)))
    case CodeList => if ListLike(v) then ListKey(Identities(ItemsOf(v))) else Plain(v)
    case ServiceHours => Stable(rules.le, OrNull(rules.canonicalHours(v)))
    case _ => Stable(rules.le, OrNull(v))
  }

  // ----- Names for entries proposed by uri or code only -----

  function SetMember(members: seq<Member>, key: Text, value: Json): (r: seq<Member>)
    ensures forall k :: Lookup(r, k) == if k == key then value else Lookup(members, k)
  {
    if members == [] then [Member(key, value)]
    else if members[0].key == key then [Member(key, value)] + members[1..]
    else [members[0]] + SetMember(members[1..], key, value)
  }

  predicate SameEntry(entry: seq<Member>, candidate: seq<Member>) {
    || (Lookup(entry, URI) != Undefined && Lookup(candidate, URI) == Lookup(entry, URI))
    || (Lookup(entry, CODE) != Undefined && Lookup(candidate, CODE) == Lookup(entry, CODE))
  }

  function NamesOf(known: seq<Json>, entry: seq<Member>): Option<Json> {
    if known == [] then None
    else if known[0].Obj? && SameEntry(entry, known[0].members) then Some(Lookup(known[0].members, NAMES))
    else NamesOf(known[1..], entry)
  }

  function Named(known: seq<Json>, entry: Json): (r: Json)
    ensures Identity(r) == Identity(entry)
  {
    if !entry.Obj? || TextsOf(Lookup(entry.members, NAMES)) != [] then entry
    else
      match NamesOf(known, entry.members)
      case None => entry
      case Some(names) => Obj(SetMember(entry.members, NAMES, names))
  }

  /** The proposed entries as the reviewer sees them. */
  function WithKnownNames(before: Json, after: Json): (r: Json)
    ensures Identities(ItemsOf(r)) == Identities(ItemsOf(after))
  {
    if before.Arr? && after.Arr? then
      Arr(seq(|after.items|, i requires 0 <= i < |after.items| => Named(before.items, after.items[i])))
    else after
  }

  // ----- The diff -----

  /** What a reported field is shown to become. */
  function Shown(kind: Kind, before: Json, after: Json): Json {
    if kind == CodeList then WithKnownNames(before, after) else after
  }

  function Keys(members: seq<Member>): (keys: seq<Text>)
    ensures |keys| == |members| && forall i :: 0 <= i < |members| ==> keys[i] == members[i].key
  {
    seq(|members|, i requires 0 <= i < |members| => members[i].key)
  }

  function LanguageEntries(field: Text, before: seq<Member>, after: seq<Member>, languages: seq<Text>): seq<Entry>
    decreases |languages|
  {
    if languages == [] then []
    else
      var l := languages[|languages| - 1];
      var x, y := Lookup(before, l), Lookup(after, l);
      LanguageEntries(field, before, after, languages[..|languages| - 1])
      + if x != y then [Entry(field, Some(l), x, y)] else []
  }

  function FieldEntries(rules: Rules, field: Text, before: Json, after: Json): seq<Entry> {
    if rules.kindOf(field) == Localized then
      var x, y := TextsOf(before), TextsOf(after);
      LanguageEntries(field, x, y, Dedup(Keys(x) + Keys(y)))
    else if FieldKey(rules, rules.kindOf(field), before) != FieldKey(rules, rules.kindOf(field), after) then
      [Entry(field, None, before, Shown(rules.kindOf(field), before, after))]
    else []
  }

  /** The diff of an entity's members against the changed ones. */
  function Diff(rules: Rules, current: seq<Member>, changes: seq<Member>): seq<Entry>
    decreases |changes|
  {
    if changes == [] then []
    else
      var last := changes[|changes| - 1];
      Diff(rules, current, changes[..|changes| - 1])
      + FieldEntries(rules, last.key, Lookup(current, last.key), last.value)
  }

  method DiffLocalizedField(field: Text, before: seq<Member>, after: seq<Member>) returns (entries: seq<Entry>)
    ensures entries == LanguageEntries(field, before, after, Dedup(Keys(before) + Keys(after)))
  {
    var languages := Dedup(Keys(before) + Keys(after));
    entries := [];
    for i := 0 to |languages|
      invariant entries == LanguageEntries(field, before, after, languages[..i])
    {
      assert languages[..i + 1][..i] == languages[..i];
      var beforeValue, afterValue := Lookup(before, languages[i]), Lookup(after, languages[i]);
      if beforeValue != afterValue {
        entries := entries + [Entry(field, Some(languages[i]), beforeValue, afterValue)];
      }
    }
    assert languages[..|languages|] == languages;
  }

  method ComputeDiff(rules: Rules, current: seq<Member>, changes: seq<Member>) returns (entries: seq<Entry>)
    ensures entries == Diff(rules, current, changes)
  {
    entries := [];
    for i := 0 to |changes|
      invariant entries == Diff(rules, current, changes[..i])
    {
      assert changes[..i + 1][..i] == changes[..i];
      var field := changes[i].key;
      var before, after := Lookup(current, field), changes[i].value;
      var kind := rules.kindOf(field);
      if kind == Localized {
        var more := DiffLocalizedField(field, TextsOf(before), TextsOf(after));
        entries := entries + more;
      } else if FieldKey(rules, kind, before) != FieldKey(rules, kind, after) {
        entries := entries + [Entry(field, None, before, Shown(kind, before, after))];
      }
    }
    assert changes[..|changes|] == changes;
  }

  // ----- What the diff says -----

  ghost predicate SomeTextDiffers(before: seq<Member>, after: seq<Member>) {
    exists l :: Lookup(before, l) != Lookup(after, l)
  }

  /** The field is really different, in the sense that fits its kind. */
  ghost predicate Differs(rules: Rules, kind: Kind, before: Json, after: Json) {
    match kind
    case Localized => SomeTextDiffers(TextsOf(before), TextsOf(after))
    case ChannelIds => multiset(ItemsOf(before)) != multiset(ItemsOf(after))
    case CodeList =>
      if ListLike(before) && ListLike(after) then multiset(Identities(ItemsOf(before))) != multiset(Identities(ItemsOf(after)))
      else before != after
    case ServiceHours => !Equal(OrNull(rules.canonicalHours(before)), OrNull(rules.canonicalHours(after)))
    case Other => !Equal(OrNull(before), OrNull(after))
  }

  predicate TextOrNone(v: Json) {
    v.Str? || v.Undefined? || v.Null?
  }

  /** A classification entry names itself by texts. */
  predicate IsEntry(entry: Json) {
    entry.Obj? && TextOrNone(Lookup(entry.members, URI)) && TextOrNone(Lookup(entry.members, CODE))
  }

  /**
   * Channel ids are texts and classifications entries; what is compared by its key is JSON,
   * without two keys in one object that the collation ties.
   */
  ghost predicate Comparable(rules: Rules, kind: Kind, v: Json) {
    match kind
    case Localized => true
    case ChannelIds => ListLike(v) && forall i :: 0 <= i < |ItemsOf(v)| ==> ItemsOf(v)[i].Str?
    case CodeList => if ListLike(v) then forall i :: 0 <= i < |ItemsOf(v)| ==> IsEntry(ItemsOf(v)[i]) else Proper(v)
    case ServiceHours => WellFormed(OrNull(rules.canonicalHours(v))) && Untied(rules.le, OrNull(rules.canonicalHours(v)))
    case Other => WellFormed(OrNull(v)) && Untied(rules.le, OrNull(v))
  }

  lemma {:induction false} LookupMissing(members: seq<Member>, key: Text)
    requires key !in Keys(members)
    ensures Lookup(members, key) == Undefined
  {
    if members != [] {
      assert Keys(members)[0] == members[0].key;
      forall k | k in Keys(members[1..])
        ensures k in Keys(members)
      {
        var i :| 0 <= i < |members| - 1 && Keys(members[1..])[i] == k;
        assert Keys(members)[i + 1] == k;
      }
      LookupMissing(members[1..], key);
    }
  }

  lemma {:induction false} LanguageEntriesExact(field: Text, x: seq<Member>, y: seq<Member>, languages: seq<Text>, e: Entry)
    ensures e in LanguageEntries(field, x, y, languages) <==>
            && e.field == field && e.language.Some? && e.language.value in languages
            && e.before == Lookup(x, e.language.value) && e.after == Lookup(y, e.language.value)
            && e.before != e.after
    decreases |languages|
  {
    if languages != [] {
      var n := |languages| - 1;
      LanguageEntriesExact(field, x, y, languages[..n], e);
      assert languages == languages[..n] + [languages[n]];
    }
  }

  /** A localized field's entries are exactly its languages whose texts differ, with both texts. */
  lemma LocalizedEntriesExact(field: Text, x: seq<Member>, y: seq<Member>, e: Entry)
    ensures e in LanguageEntries(field, x, y, Dedup(Keys(x) + Keys(y))) <==>
            && e.field == field && e.language.Some?
            && e.before == Lookup(x, e.language.value) && e.after == Lookup(y, e.language.value)
            && e.before != e.after
  {
    LanguageEntriesExact(field, x, y, Dedup(Keys(x) + Keys(y)), e);
    if e.language.Some? && e.language.value !in Keys(x) + Keys(y) {
      LookupMissing(x, e.language.value);
      LookupMissing(y, e.language.value);
    }
  }

  lemma LocalizedReportedExactly(field: Text, x: seq<Member>, y: seq<Member>)
    ensures LanguageEntries(field, x, y, Dedup(Keys(x) + Keys(y))) != []
            <==> SomeTextDiffers(x, y)
  {
    hide LanguageEntries, Dedup;
    var entries := LanguageEntries(field, x, y, Dedup(Keys(x) + Keys(y)));
    if l :| Lookup(x, l) != Lookup(y, l) {
      LocalizedEntriesExact(field, x, y, Entry(field, Some(l), Lookup(x, l), Lookup(y, l)));
    }
    if entries != [] {
      LocalizedEntriesExact(field, x, y, entries[0]);
    }
  }

  lemma PlainIsExact(v: Json, w: Json)
    requires Proper(v) && Proper(w)
    ensures Plain(v) == Plain(w) <==> v == w
  {
    hide *;
    assert Ends([]) by { NothingEnds(); }
    if Plain(v) == Plain(w) {
      assert Plain(v) + [] == Plain(w) + [];
      PlainUnique(v, w, [], []);
    }
  }

  lemma KeyOfNoList(texts: seq<Text>, v: Json)
    requires Proper(v) && !v.Arr?
    ensures ListKey(texts) != Plain(v)
  {
    assert Proper(Arr(Strings(SortTexts(texts))));
    hide Plain, Proper, Strings, SortTexts;
    PlainIsExact(Arr(Strings(SortTexts(texts))), v);
  }

  lemma {:induction false} IdCounted(items: seq<Json>, id: Text)
    requires forall i :: 0 <= i < |items| ==> items[i].Str?
    ensures multiset(Ids(items))[id] == multiset(items)[Str(id)]
  {
    if items != [] {
      IdCounted(items[1..], id);
      assert items == [items[0]] + items[1..];
      assert Ids(items) == [items[0].s] + Ids(items[1..]);
    }
  }

  /** Lists of texts have the same texts exactly when they have the same elements. */
  lemma SameIds(a: seq<Json>, b: seq<Json>)
    requires forall i :: 0 <= i < |a| ==> a[i].Str?
    requires forall i :: 0 <= i < |b| ==> b[i].Str?
    ensures multiset(Ids(a)) == multiset(Ids(b)) <==> multiset(a) == multiset(b)
  {
    hide Ids;
    forall id: Text
      ensures multiset(Ids(a))[id] == multiset(a)[Str(id)] && multiset(Ids(b))[id] == multiset(b)[Str(id)]
    {
      IdCounted(a, id);
      IdCounted(b, id);
    }
    if multiset(Ids(a)) == multiset(Ids(b)) {
      forall v: Json
        ensures multiset(a)[v] == multiset(b)[v]
      {
        if v.Str? {
          assert multiset(Ids(a))[v.s] == multiset(a)[Str(v.s)];
        } else {
          assert v !in a && v !in b;
        }
      }
    }
    if multiset(a) == multiset(b) {
      forall id: Text
        ensures multiset(Ids(a))[id] == multiset(Ids(b))[id]
      {
        assert multiset(Ids(a))[id] == multiset(a)[Str(id)];
      }
    }
  }

  lemma KeyReportedExactly(rules: Rules, kind: Kind, before: Json, after: Json)
    requires TotalPreorder(rules.le) && kind != Localized
    requires Comparable(rules, kind, before) && Comparable(rules, kind, after)
    ensures FieldKey(rules, kind, before) != FieldKey(rules, kind, after) <==> Differs(rules, kind, before, after)
  {
    hide TotalPreorder, WellFormed, Untied, Proper, Equal, Stable, ListKey, Ids, Identities, Plain;
    match kind
    case Localized =>
    case ChannelIds =>
      ListKeyIsExact(Ids(ItemsOf(before)), Ids(ItemsOf(after)));
      SameIds(ItemsOf(before), ItemsOf(after));
    case CodeList =>
      if ListLike(before) && ListLike(after) {
        ListKeyIsExact(Identities(ItemsOf(before)), Identities(ItemsOf(after)));
      } else if ListLike(before) {
        KeyOfNoList(Identities(ItemsOf(before)), after);
      } else if ListLike(after) {
        KeyOfNoList(Identities(ItemsOf(after)), before);
      } else {
        PlainIsExact(before, after);
      }
    case ServiceHours =>
      KeyIsExact(rules.le, OrNull(rules.canonicalHours(before)), OrNull(rules.canonicalHours(after)));
    case Other => KeyIsExact(rules.le, OrNull(before), OrNull(after));
  }

  /** A touched field is reported exactly when it really differs. */
  lemma FieldReportedExactly(rules: Rules, field: Text, before: Json, after: Json)
    requires TotalPreorder(rules.le)
    requires Comparable(rules, rules.kindOf(field), before) && Comparable(rules, rules.kindOf(field), after)
    ensures FieldEntries(rules, field, before, after) != [] <==> Differs(rules, rules.kindOf(field), before, after)
  {
    hide TotalPreorder, Comparable, FieldKey, Dedup, LanguageEntries, SomeTextDiffers;
    var kind := rules.kindOf(field);
    if kind == Localized {
      LocalizedReportedExactly(field, TextsOf(before), TextsOf(after));
    } else {
      KeyReportedExactly(rules, kind, before, after);
    }
  }

  /** A missing field counts as null, and where lists or texts are compared as an empty one. */
  lemma MissingIsEmpty(rules: Rules, field: Text)
    requires rules.kindOf(field) == ServiceHours ==> OrNull(rules.canonicalHours(Undefined)) == OrNull(rules.canonicalHours(Null))
    ensures FieldEntries(rules, field, Undefined, Null) == [] && FieldEntries(rules, field, Null, Undefined) == []
    ensures rules.kindOf(field) in {ChannelIds, CodeList} ==>
              FieldEntries(rules, field, Undefined, Arr([])) == [] && FieldEntries(rules, field, Arr([]), Undefined) == []
    ensures rules.kindOf(field) == Localized ==>
              FieldEntries(rules, field, Undefined, Obj([])) == [] && FieldEntries(rules, field, Obj([]), Undefined) == []
  {
    hide Stable, ListKey, Plain;
    assert Keys([]) + Keys([]) == [];
  }

  /** A reported classification list shows the change's own entries: names may be added, identities stay. */
  lemma ClassificationsShownAsProposed(rules: Rules, field: Text, before: Json, after: Json, e: Entry)
    requires rules.kindOf(field) == CodeList && e in FieldEntries(rules, field, before, after)
    ensures e.before == before && Identities(ItemsOf(e.after)) == Identities(ItemsOf(after))
  {
    hide FieldKey, WithKnownNames, Identities;
  }

  lemma EntriesNameTheField(rules: Rules, field: Text, before: Json, after: Json)
    ensures forall e :: e in FieldEntries(rules, field, before, after) ==> e.field == field
  {
    hide FieldKey, Dedup, LanguageEntries;
    var x, y := TextsOf(before), TextsOf(after);
    forall e | e in LanguageEntries(field, x, y, Dedup(Keys(x) + Keys(y)))
      ensures e.field == field
    {
      LocalizedEntriesExact(field, x, y, e);
    }
  }

  lemma {:induction false} DiffCollects(rules: Rules, current: seq<Member>, changes: seq<Member>, e: Entry)
    ensures e in Diff(rules, current, changes) <==>
            exists i :: 0 <= i < |changes|
              && e in FieldEntries(rules, changes[i].key, Lookup(current, changes[i].key), changes[i].value)
    decreases |changes|
  {
    hide FieldEntries, Lookup;
    if changes != [] {
      var n := |changes| - 1;
      DiffCollects(rules, current, changes[..n], e);
      assert forall i :: 0 <= i < n ==> changes[..n][i] == changes[i];
    }
  }

  /** The diff names a field exactly when the change set touches it and it really differs. */
  lemma DiffIsExact(rules: Rules, current: seq<Member>, changes: seq<Member>, field: Text)
    requires TotalPreorder(rules.le) && DistinctKeys(changes)
    requires forall i :: 0 <= i < |changes| ==>
               && Comparable(rules, rules.kindOf(changes[i].key), Lookup(current, changes[i].key))
               && Comparable(rules, rules.kindOf(changes[i].key), changes[i].value)
    ensures (exists e :: e in Diff(rules, current, changes) && e.field == field) <==>
            exists i :: 0 <= i < |changes| && changes[i].key == field
                        && Differs(rules, rules.kindOf(field), Lookup(current, field), changes[i].value)
  {
    hide TotalPreorder, Comparable, Differs, FieldEntries, Diff, Lookup;
    if e :| e in Diff(rules, current, changes) && e.field == field {
      DiffCollects(rules, current, changes, e);
      var i :| 0 <= i < |changes|
               && e in FieldEntries(rules, changes[i].key, Lookup(current, changes[i].key), changes[i].value);
      EntriesNameTheField(rules, changes[i].key, Lookup(current, changes[i].key), changes[i].value);
      FieldReportedExactly(rules, changes[i].key, Lookup(current, changes[i].key), changes[i].value);
    }
    if i :| 0 <= i < |changes| && changes[i].key == field
            && Differs(rules, rules.kindOf(field), Lookup(current, field), changes[i].value) {
      var entries := FieldEntries(rules, field, Lookup(current, field), changes[i].value);
      FieldReportedExactly(rules, field, Lookup(current, field), changes[i].value);
      EntriesNameTheField(rules, field, Lookup(current, field), changes[i].value);
      DiffCollects(rules, current, changes, entries[0]);
    }
  }

  // ----- What the reviewer is shown of a field -----

  function OfField(entries: seq<Entry>, field: Text): seq<Entry>
    decreases |entries|
  {
    if entries == [] then []
    else
      var n := |entries| - 1;
      OfField(entries[..n], field) + if entries[n].field == field then [entries[n]] else []
  }

  /** The entries name the same thing: by uri or by code. */
  predicate SameThing(entry: Json, other: Json) {
    && entry.Obj? && other.Obj?
    && exists key :: key in [URI, CODE] && Lookup(entry.members, key) != Undefined
                     && Lookup(other.members, key) == Lookup(entry.members, key)
  }

  /** The k-th of the current entries is the first that names the same thing. */
  predicate FirstSame(known: seq<Json>, entry: Json, k: int) {
    0 <= k < |known| && SameThing(entry, known[k]) && forall j :: 0 <= j < k ==> !SameThing(entry, known[j])
  }

  /** A proposed entry as it is, but for names it lacks: those are the ones of the first current entry that names the same thing. */
  ghost predicate ShowsEntry(known: seq<Json>, entry: Json, shown: Json) {
    if entry.Obj? && TextsOf(Lookup(entry.members, NAMES)) == [] && exists k :: FirstSame(known, entry, k) then
      && shown.Obj?
      && (forall key :: key != NAMES ==> Lookup(shown.members, key) == Lookup(entry.members, key))
      && forall k :: FirstSame(known, entry, k) ==> Lookup(shown.members, NAMES) == Lookup(known[k].members, NAMES)
    else shown == entry
  }

  /** What a changed field is shown to become: the change's own value, classifications entry by entry. */
  ghost predicate ShowsChange(kind: Kind, before: Json, after: Json, shown: Json) {
    if kind == CodeList && before.Arr? && after.Arr? then
      && shown.Arr? && |shown.items| == |after.items|
      && forall j :: 0 <= j < |after.items| ==> ShowsEntry(before.items, after.items[j], shown.items[j])
    else shown == after
  }

  lemma SameThingExactly(entry: Json, other: Json)
    requires entry.Obj?
    ensures SameThing(entry, other) <==> other.Obj? && SameEntry(entry.members, other.members)
  {
    if other.Obj? && SameEntry(entry.members, other.members) {
      var key := if Lookup(entry.members, URI) != Undefined && Lookup(other.members, URI) == Lookup(entry.members, URI) then URI else CODE;
      assert key in [URI, CODE] && Lookup(entry.members, key) != Undefined;
    }
  }

  lemma {:induction false} NamesOfFirst(known: seq<Json>, entry: Json)
    requires entry.Obj?
    ensures NamesOf(known, entry.members).Some? <==> exists k :: FirstSame(known, entry, k)
    ensures forall k :: FirstSame(known, entry, k) ==> NamesOf(known, entry.members) == Some(Lookup(known[k].members, NAMES))
  {
    hide SameThing, SameEntry, Lookup;
    if known != [] {
      var rest := known[1..];
      SameThingExactly(entry, known[0]);
      NamesOfFirst(rest, entry);
      if SameThing(entry, known[0]) {
        assert FirstSame(known, entry, 0);
      } else {
        forall k | FirstSame(rest, entry, k)
          ensures FirstSame(known, entry, k + 1)
        {
          assert forall j :: 0 < j <= k ==> known[j] == rest[j - 1];
        }
        forall k | FirstSame(known, entry, k)
          ensures k > 0 && FirstSame(rest, entry, k - 1) && known[k] == rest[k - 1]
        {
        }
      }
    }
  }

  lemma EntryShown(known: seq<Json>, entry: Json)
    ensures ShowsEntry(known, entry, Named(known, entry))
  {
    hide NamesOf, FirstSame, Lookup, SetMember, Identity;
    if entry.Obj? { NamesOfFirst(known, entry); }
  }

  lemma ChangeShown(kind: Kind, before: Json, after: Json)
    ensures ShowsChange(kind, before, after, Shown(kind, before, after))
  {
    hide ShowsEntry, Named, Identities;
    if before.Arr? && after.Arr? {
      forall j | 0 <= j < |after.items|
        ensures ShowsEntry(before.items, after.items[j], Named(before.items, after.items[j]))
      {
        EntryShown(before.items, after.items[j]);
      }
    }
  }

  lemma {:induction false} OfFieldAppended(a: seq<Entry>, b: seq<Entry>, field: Text)
    ensures OfField(a + b, field) == OfField(a, field) + OfField(b, field)
    decreases |b|
  {
    if b == [] {
      assert a + b == a;
    } else {
      var n := |b| - 1;
      assert (a + b)[..|a| + n] == a + b[..n] && (a + b)[|a| + n] == b[n];
      OfFieldAppended(a, b[..n], field);
    }
  }

  lemma {:induction false} OfFieldAll(entries: seq<Entry>, of: Text, field: Text)
    requires forall e :: e in entries ==> e.field == of
    ensures OfField(entries, field) == if of == field then entries else []
    decreases |entries|
  {
    if entries != [] {
      var n := |entries| - 1;
      OfFieldAll(entries[..n], of, field);
      assert entries == entries[..n] + [entries[n]];
    }
  }

  /** The last change adds its own field's entries. */
  lemma LastChange(rules: Rules, current: seq<Member>, changes: seq<Member>, field: Text)
    requires changes != []
    ensures var n := |changes| - 1;
            OfField(Diff(rules, current, changes), field)
            == OfField(Diff(rules, current, changes[..n]), field)
               + if changes[n].key == field then FieldEntries(rules, field, Lookup(current, field), changes[n].value) else []
  {
    hide FieldEntries, Lookup, OfField;
    var n := |changes| - 1;
    var last := changes[n];
    var entries := FieldEntries(rules, last.key, Lookup(current, last.key), last.value);
    OfFieldAppended(Diff(rules, current, changes[..n]), entries, field);
    EntriesNameTheField(rules, last.key, Lookup(current, last.key), last.value);
    OfFieldAll(entries, last.key, field);
  }

  /** Of each touched field the diff holds that field's entries, and of an untouched one nothing. */
  lemma {:induction false} DiffByField(rules: Rules, current: seq<Member>, changes: seq<Member>, field: Text)
    requires DistinctKeys(changes)
    ensures forall i :: 0 <= i < |changes| && changes[i].key == field ==>
              OfField(Diff(rules, current, changes), field) == FieldEntries(rules, field, Lookup(current, field), changes[i].value)
    ensures (forall i :: 0 <= i < |changes| ==> changes[i].key != field) ==> OfField(Diff(rules, current, changes), field) == []
    decreases |changes|
  {
    hide FieldEntries, Lookup, Diff, OfField;
    if changes == [] {
      NothingDiffers(rules, current, field);
    } else {
      DiffByField(rules, current, changes[..|changes| - 1], field);
      LastChange(rules, current, changes, field);
    }
  }

  lemma NothingDiffers(rules: Rules, current: seq<Member>, field: Text)
    ensures OfField(Diff(rules, current, []), field) == []
  {
  }

  /**
   * A touched field that is no localized text has exactly one entry when it really differs, from its
   * current value to the change's own, and none otherwise.
   */
  lemma ShownExactly(rules: Rules, current: seq<Member>, changes: seq<Member>, i: nat)
    requires TotalPreorder(rules.le) && DistinctKeys(changes) && i < |changes| && rules.kindOf(changes[i].key) != Localized
    requires Comparable(rules, rules.kindOf(changes[i].key), Lookup(current, changes[i].key))
    requires Comparable(rules, rules.kindOf(changes[i].key), changes[i].value)
    ensures var field, before, after := changes[i].key, Lookup(current, changes[i].key), changes[i].value;
            var shown := OfField(Diff(rules, current, changes), field);
            if Differs(rules, rules.kindOf(field), before, after) then
              && |shown| == 1 && shown[0].language.None? && shown[0].before == before
              && ShowsChange(rules.kindOf(field), before, after, shown[0].after)
            else shown == []
  {
    hide TotalPreorder, Comparable, Differs, FieldKey, Lookup, Shown, ShowsChange, Diff, OfField;
    var field, before, after := changes[i].key, Lookup(current, changes[i].key), changes[i].value;
    DiffByField(rules, current, changes, field);
    FieldReportedExactly(rules, field, before, after);
    ChangeShown(rules.kindOf(field), before, after);
  }

  lemma {:induction false} EachLanguageOnce(field: Text, x: seq<Member>, y: seq<Member>, languages: seq<Text>)
    requires NoDuplicates(languages)
    ensures var entries := LanguageEntries(field, x, y, languages);
            forall j, k :: 0 <= j < k < |entries| ==> entries[j].language != entries[k].language
    decreases |languages|
  {
    hide Lookup;
    if languages != [] {
      var n := |languages| - 1;
      var rest := LanguageEntries(field, x, y, languages[..n]);
      EachLanguageOnce(field, x, y, languages[..n]);
      forall j | 0 <= j < |rest|
        ensures rest[j].language != Some(languages[n])
      {
        LanguageEntriesExact(field, x, y, languages[..n], rest[j]);
      }
    }
  }

  /** A touched localized text has one entry for each language in which it differs, with both texts, and no other. */
  lemma TextsShownExactly(rules: Rules, current: seq<Member>, changes: seq<Member>, i: nat, e: Entry)
    requires DistinctKeys(changes) && i < |changes| && rules.kindOf(changes[i].key) == Localized
    ensures var field, x, y := changes[i].key, TextsOf(Lookup(current, changes[i].key)), TextsOf(changes[i].value);
            var shown := OfField(Diff(rules, current, changes), field);
            && (e in shown <==>
                  e.field == field && e.language.Some? && e.before != e.after
                  && e.before == Lookup(x, e.language.value) && e.after == Lookup(y, e.language.value))
            && forall j, k :: 0 <= j < k < |shown| ==> shown[j].language != shown[k].language
  {
    hide Lookup, Diff, OfField, LanguageEntries, Dedup;
    var x, y := TextsOf(Lookup(current, changes[i].key)), TextsOf(changes[i].value);
    DiffByField(rules, current, changes, changes[i].key);
    LocalizedEntriesExact(changes[i].key, x, y, e);
    EachLanguageOnce(changes[i].key, x, y, Dedup(Keys(x) + Keys(y)));
  }

  /**
   * Classifications are meant to be compared as sets, but the sorted lists are compared:
   * an entry listed twice against once is reported as a change.
   */
  lemma DuplicateIsReported(rules: Rules, field: Text, entry: Json)
    requires rules.kindOf(field) == CodeList
    ensures FieldEntries(rules, field, Arr([entry]), Arr([entry, entry])) != []
    ensures (set t | t in Identities([entry])) == (set t | t in Identities([entry, entry]))
  {
    var one, two := Identities([entry]), Identities([entry, entry]);
    assert one == [Identity(entry)] && two == [Identity(entry), Identity(entry)];
    hide Identity, ListKey;
    ListKeyIsExact(one, two);
    assert |multiset(one)| == 1 && |multiset(two)| == 2;
  }
}

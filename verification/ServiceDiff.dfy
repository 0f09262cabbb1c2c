/**
 * A service change in the diff after its PUT (src/mcp/proposeChanges.ts:67-77, 117-132,
 * src/mcp/proposalQueue.ts:201-210): what is read back of the service against what the change
 * asked for, compared the way the diff compares it. An empty text is no missing one there.
 */
module ServiceDiff {
  import opened Wrappers
  import opened StableJson
  import opened JsonTexts
  import DiffFields
  import L = LanguageText
  import opened ServicePut

  // ----- The text that is read -----

  function Languages(items: seq<WireText>): (r: seq<string>)
    ensures |r| == |items| && forall i :: 0 <= i < |r| ==> r[i] == items[i].language
  {
    seq(|items|, i requires 0 <= i < |items| => items[i].language)
  }

  function Read(items: seq<WireText>, preferred: string, language: string): L.Item {
    var value := ReadIn(items, preferred, language);
    L.Item(language, if value.Some? then value.value else "")
  }

  /** toLocalizedText: every language of the entries, in the order they first come up. */
  function ReadText(items: seq<WireText>, preferred: string): (r: L.Text)
    ensures |r| == |Dedup(Languages(items))|
    ensures forall i :: 0 <= i < |r| ==> r[i] == Read(items, preferred, Dedup(Languages(items))[i])
  {
    var languages := Dedup(Languages(items));
    seq(|languages|, i requires 0 <= i < |languages| => Read(items, preferred, languages[i]))
  }

  lemma ReadTextFinds(items: seq<WireText>, preferred: string, language: string)
    ensures L.IsText(ReadText(items, preferred))
    ensures L.Find(ReadText(items, preferred), language) == ReadIn(items, preferred, language)
  {
    hide Dedup, First, L.Find;
    var languages, text := Dedup(Languages(items)), ReadText(items, preferred);
    FirstListed(items, language, None);
    FirstListed(items, language, Some(preferred));
    if language in languages {
      var i :| 0 <= i < |languages| && languages[i] == language;
      L.FoundAt(text, i);
      var k :| 0 <= k < |Languages(items)| && Languages(items)[k] == language;
      assert items[k].language == language;
    } else {
      L.FoundIn(text, language);
      assert forall k :: 0 <= k < |items| ==> Languages(items)[k] in languages;
      assert forall k :: 0 <= k < |items| ==> items[k].language != language;
    }
  }

  // ----- Texts in the diff -----

  lemma LocalizedAhead(text: L.Text)
    requires text != []
    ensures LocalizedValue(text).members != [] && LocalizedValue(text).members[1..] == LocalizedValue(text[1..]).members
    ensures LocalizedValue(text).members[0] == Member(Units(text[0].language), TextValue(text[0].value))
  {
    hide Units, TextValue;
  }

  lemma {:induction false} LookupFinds(text: L.Text, language: string)
    ensures DiffFields.Lookup(LocalizedValue(text).members, Units(language)) == Optional(L.Find(text, language))
  {
    hide Units;
    if text != [] {
      LookupFinds(text[1..], language);
      LocalizedAhead(text);
      hide LocalizedValue;
      if Units(text[0].language) == Units(language) { UnitsInjective(text[0].language, language); }
    }
  }

  lemma {:induction false} LookupIsLanguage(text: L.Text, key: Text)
    ensures DiffFields.Lookup(LocalizedValue(text).members, key) != Json.Undefined ==> exists language :: key == Units(language)
  {
    hide Units, TextValue;
    if text != [] {
      LookupIsLanguage(text[1..], key);
      LocalizedAhead(text);
      hide LocalizedValue;
      if Units(text[0].language) != key {
        assert DiffFields.Lookup(LocalizedValue(text).members, key) == DiffFields.Lookup(LocalizedValue(text[1..]).members, key);
      }
    }
  }

  lemma FoundAlike(a: Option<string>, b: Option<string>)
    ensures Optional(a) == Optional(b) <==> a == b
  {
    if a.Some? && b.Some? { TextInjective(a.value, b.value); }
  }

  /** A change of a text as the diff is given it: undefined counts as empty. */
  function ChangeValue(change: Change<L.Text>): Json {
    match change case Present(text) => LocalizedValue(text) case _ => Json.Undefined
  }

  lemma ChangeTexts(change: Change<L.Text>)
    ensures DiffFields.TextsOf(ChangeValue(change)) == LocalizedValue(TextOf(change)).members
  {
    assert LocalizedValue([]).members == [];
  }

  /** The diff of a text reports nothing exactly when every language is found alike: missing, empty or with the same text. */
  lemma SameTextsExactly(rules: DiffFields.Rules, field: Text, a: L.Text, b: L.Text, after: Json)
    requires rules.kindOf(field) == DiffFields.Localized && DiffFields.TextsOf(after) == LocalizedValue(b).members
    ensures DiffFields.FieldEntries(rules, field, LocalizedValue(a), after) == []
            <==> forall language :: L.Find(a, language) == L.Find(b, language)
  {
    hide DiffFields.Lookup, DiffFields.LanguageEntries, Dedup, L.Find, LocalizedValue, Optional, Units;
    var x, y := LocalizedValue(a).members, LocalizedValue(b).members;
    DiffFields.LocalizedReportedExactly(field, x, y);
    if forall language :: L.Find(a, language) == L.Find(b, language) {
      forall key
        ensures DiffFields.Lookup(x, key) == DiffFields.Lookup(y, key)
      {
        LookupIsLanguage(a, key);
        LookupIsLanguage(b, key);
        if language :| key == Units(language) {
          LookupFinds(a, language);
          LookupFinds(b, language);
        }
      }
    } else {
      var language :| L.Find(a, language) != L.Find(b, language);
      LookupFinds(a, language);
      LookupFinds(b, language);
      FoundAlike(L.Find(a, language), L.Find(b, language));
      assert DiffFields.Lookup(x, Units(language)) != DiffFields.Lookup(y, Units(language));
    }
  }

  /** What is read of entries against a change of the text. */
  lemma ReadAgainstChange(rules: DiffFields.Rules, field: Text, items: seq<WireText>, preferred: string, change: Change<L.Text>)
    requires rules.kindOf(field) == DiffFields.Localized
    ensures DiffFields.FieldEntries(rules, field, LocalizedValue(ReadText(items, preferred)), ChangeValue(change)) == []
            <==> forall language :: ReadIn(items, preferred, language) == L.Find(TextOf(change), language)
  {
    hide DiffFields.FieldEntries, L.Find, ReadIn, ReadText, LocalizedValue, ChangeValue;
    ChangeTexts(change);
    SameTextsExactly(rules, field, ReadText(items, preferred), TextOf(change), ChangeValue(change));
    forall language
      ensures L.Find(ReadText(items, preferred), language) == ReadIn(items, preferred, language)
    {
      ReadTextFinds(items, preferred, language);
    }
  }

  lemma ReadAgainstRead(rules: DiffFields.Rules, field: Text, before: seq<WireText>, after: seq<WireText>, preferred: string)
    requires rules.kindOf(field) == DiffFields.Localized
    ensures DiffFields.FieldEntries(rules, field, LocalizedValue(ReadText(before, preferred)), LocalizedValue(ReadText(after, preferred))) == []
            <==> forall language :: ReadIn(after, preferred, language) == ReadIn(before, preferred, language)
  {
    hide DiffFields.FieldEntries, L.Find, ReadIn, ReadText, LocalizedValue;
    var x, y := ReadText(before, preferred), ReadText(after, preferred);
    SameTextsExactly(rules, field, x, y, LocalizedValue(y));
    if forall language :: ReadIn(after, preferred, language) == ReadIn(before, preferred, language) {
      forall language
        ensures L.Find(x, language) == L.Find(y, language)
      {
        ReadTextFinds(before, preferred, language);
        ReadTextFinds(after, preferred, language);
      }
    } else {
      var language :| ReadIn(after, preferred, language) != ReadIn(before, preferred, language);
      ReadTextFinds(before, preferred, language);
      ReadTextFinds(after, preferred, language);
      assert L.Find(x, language) != L.Find(y, language);
    }
  }

  // ----- What the diff reports of the texts after the PUT -----

  /** After the PUT the diff of the names reports nothing exactly when none is empty and no other kind of name stands alone. */
  lemma NamesReported(rules: DiffFields.Rules, field: Text, changes: Changes, stored: Service, inherited: set<string>)
    requires rules.kindOf(field) == DiffFields.Localized
    requires !changes.names.Absent? && L.IsText(TextOf(changes.names)) && BodyOf(changes, stored, inherited).Some?
    ensures var after := Put(stored, BodyOf(changes, stored, inherited).value).names;
            DiffFields.FieldEntries(rules, field, LocalizedValue(ReadText(after, "Name")), ChangeValue(changes.names)) == []
            <==> L.AllFilled(TextOf(changes.names)) && forall language :: !StrayName(stored, TextOf(changes.names), language)
  {
    hide *;
    NamesReadBack(changes, stored, inherited);
    ReadAgainstChange(rules, field, Put(stored, BodyOf(changes, stored, inherited).value).names, "Name", changes.names);
  }

  /** The same for summaries: none is empty, and no other description stands alone. */
  lemma SummariesReported(rules: DiffFields.Rules, field: Text, changes: Changes, stored: Service, inherited: set<string>)
    requires rules.kindOf(field) == DiffFields.Localized
    requires !changes.summaries.Absent? && L.IsText(TextOf(changes.summaries)) && BodyOf(changes, stored, inherited).Some?
    ensures var after := Put(stored, BodyOf(changes, stored, inherited).value).descriptions;
            var others := TouchedOr(changes.descriptions, stored.descriptions, "Description");
            DiffFields.FieldEntries(rules, field, LocalizedValue(ReadText(after, "Summary")), ChangeValue(changes.summaries)) == []
            <==> L.AllFilled(TextOf(changes.summaries)) && forall language :: !StrayDescription(stored, others, TextOf(changes.summaries), language)
  {
    hide *;
    SummariesReadBack(changes, stored, inherited);
    ReadAgainstChange(rules, field, Put(stored, BodyOf(changes, stored, inherited).value).descriptions, "Summary", changes.summaries);
  }

  /** And for descriptions. */
  lemma DescriptionsReported(rules: DiffFields.Rules, field: Text, changes: Changes, stored: Service, inherited: set<string>)
    requires rules.kindOf(field) == DiffFields.Localized
    requires !changes.descriptions.Absent? && L.IsText(TextOf(changes.descriptions)) && BodyOf(changes, stored, inherited).Some?
    ensures var after := Put(stored, BodyOf(changes, stored, inherited).value).descriptions;
            var others := TouchedOr(changes.summaries, stored.descriptions, "Summary");
            DiffFields.FieldEntries(rules, field, LocalizedValue(ReadText(after, "Description")), ChangeValue(changes.descriptions)) == []
            <==> L.AllFilled(TextOf(changes.descriptions)) && forall language :: !StrayDescription(stored, others, TextOf(changes.descriptions), language)
  {
    hide *;
    DescriptionsReadBack(changes, stored, inherited);
    ReadAgainstChange(rules, field, Put(stored, BodyOf(changes, stored, inherited).value).descriptions, "Description", changes.descriptions);
  }

  /** When only descriptions are touched, the summaries that are read do not change, as the diff compares them, exactly when every language reads on. */
  lemma UntouchedSummariesReported(rules: DiffFields.Rules, field: Text, changes: Changes, stored: Service, inherited: set<string>)
    requires rules.kindOf(field) == DiffFields.Localized
    requires changes.summaries.Absent? && !changes.descriptions.Absent? && L.IsText(TextOf(changes.descriptions))
    requires BodyOf(changes, stored, inherited).Some?
    ensures var after := Put(stored, BodyOf(changes, stored, inherited).value).descriptions;
            DiffFields.FieldEntries(rules, field, LocalizedValue(ReadText(stored.descriptions, "Summary")), LocalizedValue(ReadText(after, "Summary"))) == []
            <==> forall language :: ReadsOn(stored.descriptions, "Summary", "Description", TextOf(changes.descriptions), language)
  {
    hide *;
    var after := Put(stored, BodyOf(changes, stored, inherited).value).descriptions;
    forall language
      ensures ReadIn(after, "Summary", language) == ReadIn(stored.descriptions, "Summary", language)
              <==> ReadsOn(stored.descriptions, "Summary", "Description", TextOf(changes.descriptions), language)
    {
      UntouchedSummaries(changes, stored, inherited, language);
    }
    ReadAgainstRead(rules, field, stored.descriptions, after, "Summary");
  }

  /** The same for the descriptions that are read when only summaries are touched. */
  lemma UntouchedDescriptionsReported(rules: DiffFields.Rules, field: Text, changes: Changes, stored: Service, inherited: set<string>)
    requires rules.kindOf(field) == DiffFields.Localized
    requires !changes.summaries.Absent? && changes.descriptions.Absent? && L.IsText(TextOf(changes.summaries))
    requires BodyOf(changes, stored, inherited).Some?
    ensures var after := Put(stored, BodyOf(changes, stored, inherited).value).descriptions;
            DiffFields.FieldEntries(rules, field, LocalizedValue(ReadText(stored.descriptions, "Description")), LocalizedValue(ReadText(after, "Description"))) == []
            <==> forall language :: ReadsOn(stored.descriptions, "Description", "Summary", TextOf(changes.summaries), language)
  {
    hide *;
    var after := Put(stored, BodyOf(changes, stored, inherited).value).descriptions;
    forall language
      ensures ReadIn(after, "Description", language) == ReadIn(stored.descriptions, "Description", language)
              <==> ReadsOn(stored.descriptions, "Description", "Summary", TextOf(changes.summaries), language)
    {
      UntouchedDescriptions(changes, stored, inherited, language);
    }
    ReadAgainstRead(rules, field, stored.descriptions, after, "Description");
  }

  /** A change that leaves a language's name empty: the name is not written, and the diff goes on reporting it. */
  lemma EmptyNameIsReported(rules: DiffFields.Rules, field: Text, stored: Service, inherited: set<string>)
    requires rules.kindOf(field) == DiffFields.Localized && stored.names == []
    ensures var names := [L.Item("fi", "A"), L.Item("sv", "")];
            var changes := Changes(Absent, Absent, Present(names), Absent, Absent, map[], Absent, Absent);
            && BodyOf(changes, stored, inherited).Some?
            && Put(stored, BodyOf(changes, stored, inherited).value).names == [WireText("fi", "A", "Name")]
            && DiffFields.FieldEntries(rules, field, LocalizedValue(ReadText([WireText("fi", "A", "Name")], "Name")), ChangeValue(changes.names)) != []
  {
    hide ListsBody, ClearedLists, DescriptionsBody, DiffFields.FieldEntries, LocalizedValue, ChangeValue, ReadText, StrayName;
    var names := [L.Item("fi", "A"), L.Item("sv", "")];
    var changes := Changes(Absent, Absent, Present(names), Absent, Absent, map[], Absent, Absent);
    assert names[1..] == [L.Item("sv", "")] && names[1..][1..] == [];
    assert L.TextToItems(names[1..]) == [];
    assert L.TextToItems(names) == [L.Item("fi", "A")];
    assert WireList(names, "Name") == [WireText("fi", "A", "Name")];
    assert Kept(stored.names, {"Name"}) == [];
    assert names[1].value == "";
    NamesReported(rules, field, changes, stored, inherited);
  }

  // ----- Classifications in the diff -----

  /** A classification entry as the diff reads it. */
  function EntryValue(entry: CodeListEntry): Json {
    Obj([Member(Units("uri"), Optional(entry.uri)), Member(Units("code"), Optional(entry.code))])
  }

  function ListValue(entries: seq<CodeListEntry>): (r: Json)
    ensures r.Arr? && |r.items| == |entries| && forall i :: 0 <= i < |entries| ==> r.items[i] == EntryValue(entries[i])
  {
    Arr(seq(|entries|, i requires 0 <= i < |entries| => EntryValue(entries[i])))
  }

  /** What an entry is compared by: its URI, or else its code. */
  function IdentityOf(entry: CodeListEntry): string {
    if entry.uri.Some? then entry.uri.value else if entry.code.Some? then entry.code.value else ""
  }

  function IdentityUnits(entries: seq<CodeListEntry>): (r: seq<Text>)
    ensures |r| == |entries| && forall i :: 0 <= i < |r| ==> r[i] == Units(IdentityOf(entries[i]))
  {
    seq(|entries|, i requires 0 <= i < |entries| => Units(IdentityOf(entries[i])))
  }

  /** The keys the diff looks an entry's members up by. */
  lemma KeysByName()
    ensures Units("uri") == DiffFields.URI && Units("code") == DiffFields.CODE && Units("names") == DiffFields.NAMES && Units("") == []
  {
    assert "uri"[1..] == "ri" && "ri"[1..] == "i" && "i"[1..] == "";
    assert "code"[1..] == "ode" && "ode"[1..] == "de" && "de"[1..] == "e" && "e"[1..] == "";
    assert "names"[1..] == "ames" && "ames"[1..] == "mes" && "mes"[1..] == "es" && "es"[1..] == "s" && "s"[1..] == "";
  }

  lemma IdentityRead(entry: CodeListEntry)
    ensures DiffFields.Identity(EntryValue(entry)) == Units(IdentityOf(entry))
  {
    hide Units;
    KeysByName();
    var members := EntryValue(entry).members;
    assert DiffFields.URI != DiffFields.CODE;
    assert members[1..] == [Member(DiffFields.CODE, Optional(entry.code))];
    assert DiffFields.Lookup(members, DiffFields.URI) == Optional(entry.uri);
    assert DiffFields.Lookup(members[1..], DiffFields.CODE) == Optional(entry.code);
    assert DiffFields.Lookup(members, DiffFields.CODE) == Optional(entry.code);
  }

  lemma SameListsExactly(rules: DiffFields.Rules, field: Text, a: seq<CodeListEntry>, b: seq<CodeListEntry>)
    requires rules.kindOf(field) == DiffFields.CodeList
    ensures DiffFields.FieldEntries(rules, field, ListValue(a), ListValue(b)) == []
            <==> multiset(IdentityUnits(a)) == multiset(IdentityUnits(b))
  {
    hide DiffFields.ListKey, DiffFields.Identity, Units, IdentityOf, EntryValue, DiffFields.WithKnownNames;
    forall i | 0 <= i < |a|
      ensures DiffFields.Identity(ListValue(a).items[i]) == IdentityUnits(a)[i]
    {
      IdentityRead(a[i]);
    }
    forall i | 0 <= i < |b|
      ensures DiffFields.Identity(ListValue(b).items[i]) == IdentityUnits(b)[i]
    {
      IdentityRead(b[i]);
    }
    assert DiffFields.Identities(ListValue(a).items) == IdentityUnits(a);
    assert DiffFields.Identities(ListValue(b).items) == IdentityUnits(b);
    DiffFields.ListKeyIsExact(IdentityUnits(a), IdentityUnits(b));
  }

  /** What the reviewer is shown of each entry. */
  function ShownAs(entries: seq<CodeListEntry>): (r: seq<Option<string>>)
    ensures |r| == |entries| && forall i :: 0 <= i < |r| ==> r[i] == Some(IdentityOf(entries[i]))
  {
    seq(|entries|, i requires 0 <= i < |entries| => Some(IdentityOf(entries[i])))
  }

  function AllUnits(texts: seq<Option<string>>): (r: seq<Text>)
    requires forall i :: 0 <= i < |texts| ==> texts[i].Some?
    ensures |r| == |texts| && forall i :: 0 <= i < |r| ==> r[i] == Units(texts[i].value)
  {
    seq(|texts|, i requires 0 <= i < |texts| => Units(texts[i].value))
  }

  lemma AllUnitsAhead(texts: seq<Option<string>>)
    requires texts != [] && forall i :: 0 <= i < |texts| ==> texts[i].Some?
    ensures AllUnits(texts) == [Units(texts[0].value)] + AllUnits(texts[1..])
  {
    hide Units;
    forall i | 0 <= i < |texts| - 1
      ensures AllUnits(texts)[i + 1] == AllUnits(texts[1..])[i]
    {
      assert texts[1..][i] == texts[i + 1];
    }
  }

  lemma CountAhead<T>(first: T, rest: seq<T>, x: T)
    ensures multiset([first] + rest)[x] == multiset(rest)[x] + if first == x then 1 else 0
  {
  }

  lemma {:induction false} UnitsCounted(texts: seq<Option<string>>, text: string)
    requires forall i :: 0 <= i < |texts| ==> texts[i].Some?
    ensures multiset(AllUnits(texts))[Units(text)] == multiset(texts)[Some(text)]
  {
    hide Units, AllUnits;
    if texts != [] {
      UnitsCounted(texts[1..], text);
      AllUnitsAhead(texts);
      assert texts == [texts[0]] + texts[1..];
      CountAhead(texts[0], texts[1..], Some(text));
      CountAhead(Units(texts[0].value), AllUnits(texts[1..]), Units(text));
      if Units(texts[0].value) == Units(text) { UnitsInjective(texts[0].value, text); }
    } else {
      assert |AllUnits(texts)| == 0;
    }
  }

  lemma SameUnits(a: seq<Option<string>>, b: seq<Option<string>>)
    requires forall i :: 0 <= i < |a| ==> a[i].Some?
    requires forall i :: 0 <= i < |b| ==> b[i].Some?
    requires multiset(AllUnits(a)) == multiset(AllUnits(b))
    ensures multiset(a) == multiset(b)
  {
    hide Units, AllUnits;
    forall text
      ensures multiset(a)[text] == multiset(b)[text]
    {
      if text.Some? {
        UnitsCounted(a, text.value);
        UnitsCounted(b, text.value);
      } else {
        assert text !in a && text !in b;
      }
    }
  }

  lemma SameTexts(a: seq<Option<string>>, b: seq<Option<string>>, key: Text)
    requires forall i :: 0 <= i < |a| ==> a[i].Some?
    requires forall i :: 0 <= i < |b| ==> b[i].Some?
    requires multiset(a) == multiset(b) && key in AllUnits(a)
    ensures multiset(AllUnits(a))[key] == multiset(AllUnits(b))[key]
  {
    hide Units, AllUnits;
    var i :| 0 <= i < |a| && AllUnits(a)[i] == key;
    UnitsCounted(a, a[i].value);
    UnitsCounted(b, a[i].value);
  }

  /** Units tell texts apart, however often each is listed. */
  lemma SameUnitsExactly(a: seq<Option<string>>, b: seq<Option<string>>)
    requires forall i :: 0 <= i < |a| ==> a[i].Some?
    requires forall i :: 0 <= i < |b| ==> b[i].Some?
    ensures multiset(AllUnits(a)) == multiset(AllUnits(b)) <==> multiset(a) == multiset(b)
  {
    hide Units, AllUnits;
    if multiset(AllUnits(a)) == multiset(AllUnits(b)) { SameUnits(a, b); }
    if multiset(a) == multiset(b) {
      forall key
        ensures multiset(AllUnits(a))[key] == multiset(AllUnits(b))[key]
      {
        if key in AllUnits(a) {
          SameTexts(a, b, key);
        } else if key in AllUnits(b) {
          SameTexts(b, a, key);
        }
      }
    }
  }

  lemma KnownUnits(uris: seq<Option<string>>)
    requires AllKnown(uris)
    ensures IdentityUnits(Entries(Known(uris))) == AllUnits(uris)
  {
    hide Units;
    KnownUris(uris);
    var entries := Entries(Known(uris));
    assert |entries| == |OwnUris(entries)| == |uris|;
    forall i | 0 <= i < |uris|
      ensures IdentityOf(entries[i]) == uris[i].value
    {
      assert OwnUris(entries)[i] == uris[i];
    }
  }

  lemma ShownUnits(entries: seq<CodeListEntry>)
    ensures IdentityUnits(entries) == AllUnits(ShownAs(entries))
  {
  }

  /**
   * Without inherited entries, the diff of a touched list after the PUT reports nothing exactly
   * when its entries are written as the reviewer is shown them, in some order. For all lists but
   * the industrial classes that is when every entry has a URI.
   */
  lemma ListsReported(rules: DiffFields.Rules, name: Text, changes: Changes, stored: Service, field: ClassField)
    requires rules.kindOf(name) == DiffFields.CodeList
    requires BodyOf(changes, stored, {}).Some? && field in changes.lists && changes.lists[field].Some?
    ensures var after, entries := Put(stored, BodyOf(changes, stored, {}).value).lists(field), changes.lists[field].value;
            var reported := DiffFields.FieldEntries(rules, name, ListValue(after), ListValue(entries)) != [];
            && (!reported <==> multiset(UrisOf(field, entries)) == multiset(ShownAs(entries)))
            && (field != IndustrialClasses ==> (!reported <==> forall entry :: entry in entries ==> Truthy(entry.uri).Some?))
  {
    hide *;
    var entries := changes.lists[field].value;
    ListRead(changes, stored, field);
    SameListsExactly(rules, name, Entries(Known(UrisOf(field, entries))), entries);
    UrisNotEmpty(field, entries);
    WrittenAgainstShown(field, entries);
    if field != IndustrialClasses { ShownWhenKnown(field, entries); }
  }

  lemma ListRead(changes: Changes, stored: Service, field: ClassField)
    requires BodyOf(changes, stored, {}).Some? && field in changes.lists && changes.lists[field].Some?
    ensures Put(stored, BodyOf(changes, stored, {}).value).lists(field) == Entries(Known(UrisOf(field, changes.lists[field].value)))
  {
    hide ListAfter, BodyOf, UriOf, Known;
    ListAfterPut(changes, stored, field);
  }

  lemma WrittenAgainstShown(field: ClassField, entries: seq<CodeListEntry>)
    requires forall i :: 0 <= i < |entries| ==> UrisOf(field, entries)[i] != Some("")
    ensures multiset(IdentityUnits(Entries(Known(UrisOf(field, entries))))) == multiset(IdentityUnits(entries))
            <==> multiset(UrisOf(field, entries)) == multiset(ShownAs(entries))
  {
    hide UriOf, IdentityOf, IdentityUnits, AllUnits, Known;
    var uris, shown := UrisOf(field, entries), ShownAs(entries);
    if AllKnown(uris) {
      KnownUnits(uris);
      ShownUnits(entries);
      SameUnitsExactly(uris, shown);
    } else {
      FewerWhenUnknown(uris);
      var written := IdentityUnits(Entries(Known(uris)));
      assert |multiset(written)| == |Known(uris)| && |multiset(IdentityUnits(entries))| == |entries|;
      var i :| 0 <= i < |uris| && uris[i].None?;
      assert uris[i] in multiset(uris) && None !in multiset(shown);
    }
  }

  lemma {:induction false} FewerWhenUnknown(uris: seq<Option<string>>)
    requires !AllKnown(uris)
    ensures |Known(uris)| < |uris|
  {
    hide AllKnown;
    if uris == [] {
      NothingUnknown(uris);
    } else {
      AllKnownAhead(uris);
      FewerKnown(uris[1..]);
      if !AllKnown(uris[1..]) { FewerWhenUnknown(uris[1..]); }
    }
  }

  lemma ShownWhenKnown(field: ClassField, entries: seq<CodeListEntry>)
    requires field != IndustrialClasses
    ensures multiset(UrisOf(field, entries)) == multiset(ShownAs(entries))
            <==> forall entry :: entry in entries ==> Truthy(entry.uri).Some?
  {
    var uris, shown := UrisOf(field, entries), ShownAs(entries);
    if forall entry :: entry in entries ==> Truthy(entry.uri).Some? {
      assert uris == shown;
    } else {
      var i :| 0 <= i < |entries| && Truthy(entries[i].uri).None?;
      assert uris[i] in multiset(uris) && None !in multiset(shown);
    }
  }
}

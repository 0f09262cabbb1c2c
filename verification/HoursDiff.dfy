/**
 * Service hours in the diff (src/mcp/proposeChanges.ts:198-202, src/ptv/serviceHours.ts:42-60):
 * the canonical form as the JSON value that is compared, and what a diff reports of hours
 * that were written to PTV and read back. An absent member is written as an undefined one,
 * which the comparison does not see.
 */
module HoursDiff {
  import opened Wrappers
  import opened StableJson
  import opened JsonTexts
  import DiffFields
  import LanguageText
  import opened Hours = ServiceHours

  // ----- Records: objects with a fixed list of keys -----

  ghost predicate DistinctNames(keys: seq<string>) {
    forall i, j :: 0 <= i < j < |keys| ==> keys[i] != keys[j]
  }

  function Record(keys: seq<string>, values: seq<Json>): (r: Json)
    requires |keys| == |values|
    ensures r.Obj? && |r.members| == |keys|
    ensures forall i :: 0 <= i < |keys| ==> r.members[i] == Member(Units(keys[i]), values[i])
  {
    Obj(seq(|keys|, i requires 0 <= i < |keys| => Member(Units(keys[i]), values[i])))
  }

  lemma RecordKeys(keys: seq<string>, values: seq<Json>)
    requires |keys| == |values| && DistinctNames(keys)
    ensures DistinctKeys(Record(keys, values).members)
    ensures (forall i :: 0 <= i < |values| ==> values[i].Undefined? || WellFormed(values[i])) ==> WellFormed(Record(keys, values))
  {
    forall i, j | 0 <= i < j < |keys|
      ensures Units(keys[i]) != Units(keys[j])
    {
      if Units(keys[i]) == Units(keys[j]) { UnitsInjective(keys[i], keys[j]); }
    }
  }

  ghost predicate SameValue(v: Json, w: Json) {
    v.Undefined? == w.Undefined? && (!v.Undefined? ==> Equal(v, w))
  }

  /** Records of the same keys are equal only value by value. */
  lemma RecordsEqual(keys: seq<string>, a: seq<Json>, b: seq<Json>)
    requires |keys| == |a| == |b| && DistinctNames(keys)
    requires Equal(Record(keys, a), Record(keys, b))
    ensures forall i :: 0 <= i < |keys| ==> SameValue(a[i], b[i])
  {
    hide Equal, HasEqual, HasKey, Record, Units;
    var v, w := Record(keys, a), Record(keys, b);
    RecordKeys(keys, a);
    RecordKeys(keys, b);
    EqualObjects(v, w);
    forall i | 0 <= i < |keys|
      ensures SameValue(a[i], b[i])
    {
      if Present(v.members[i]) {
        var j := EqualAt(v.members[i], w.members);
        assert w.members[i].key == w.members[j].key;
      } else if Present(w.members[i]) {
        KeyIsNoOther(v.members, i);
      }
    }
  }

  lemma KeyIsNoOther(members: seq<Member>, i: nat)
    requires DistinctKeys(members) && i < |members| && !Present(members[i])
    ensures !HasKey(members, members[i].key)
  {
  }

  // ----- Hours as JSON -----

  function Flag(b: bool): Json {
    if b then Bool(true) else Undefined
  }

  function OptionalFlag(b: Option<bool>): Json {
    if b.Some? then Bool(b.value) else Undefined
  }

  function OptionalTitle(title: Option<LanguageText.Text>): Json {
    if title.Some? then LocalizedValue(title.value) else Undefined
  }

  const TIME_KEYS: seq<string> := ["dayFrom", "dayTo", "from", "to"]
  const HOUR_KEYS: seq<string> :=
    ["type", "validFrom", "validTo", "isClosed", "isAlwaysOpen", "isReservation", "additionalInformation", "openingTimes"]
  const STORED_KEYS: seq<string> := HOUR_KEYS + ["validForNow"]

  function TimeValues(time: OpeningTime): (r: seq<Json>)
    ensures |r| == 4
  {
    [TextValue(DayName(time.dayFrom)), Optional(DayToWire(time.dayTo)), TextValue(time.from), TextValue(time.to)]
  }

  function TimeValue(time: OpeningTime): Json {
    Record(TIME_KEYS, TimeValues(time))
  }

  function TimesValue(times: seq<OpeningTime>): (r: Json)
    ensures r.Arr?
  {
    Arr(seq(|times|, i requires 0 <= i < |times| => TimeValue(times[i])))
  }

  function CanonicalValues(c: CanonicalHour): (r: seq<Json>)
    ensures |r| == 8
  {
    [TextValue(TypeName(c.hourType)), Optional(c.validFrom), Optional(c.validTo), Flag(c.isClosed), Flag(c.isAlwaysOpen),
     Flag(c.isReservation), OptionalTitle(c.additionalInformation), TimesValue(c.openingTimes)]
  }

  function CanonicalValue(c: CanonicalHour): Json {
    Record(HOUR_KEYS, CanonicalValues(c))
  }

  function CanonicalList(hours: seq<CanonicalHour>): Json {
    Arr(seq(|hours|, i requires 0 <= i < |hours| => CanonicalValue(hours[i])))
  }

  /** Hours as the entity holds them. */
  function StoredValues(h: ServiceHour): (r: seq<Json>)
    ensures |r| == 9
  {
    [TextValue(TypeName(h.hourType)), Optional(h.validFrom), Optional(h.validTo), OptionalFlag(h.isClosed),
     OptionalFlag(h.isAlwaysOpen), OptionalFlag(h.isReservation), OptionalTitle(h.additionalInformation),
     if h.openingTimes.Some? then TimesValue(h.openingTimes.value) else Undefined, OptionalFlag(h.validForNow)]
  }

  function StoredValue(h: ServiceHour): Json {
    Record(STORED_KEYS, StoredValues(h))
  }

  function StoredList(hours: seq<ServiceHour>): Json {
    Arr(seq(|hours|, i requires 0 <= i < |hours| => StoredValue(hours[i])))
  }

  // ----- The stored value determines the hours -----

  lemma DayNames(a: Weekday, b: Weekday)
    ensures DayName(a) == DayName(b) ==> a == b
  {
    hide DayName;
    DayReadBack(Some(a));
    DayReadBack(Some(b));
  }

  lemma TypeNames(a: HourType, b: HourType)
    ensures TypeName(a) == TypeName(b) ==> a == b
  {
    hide TypeName, ReadType;
    TypeReadBack(a);
    TypeReadBack(b);
  }

  lemma OptionalInjective(a: Option<string>, b: Option<string>)
    ensures Optional(a) == Optional(b) ==> a == b
  {
    if a.Some? && b.Some? && Optional(a) == Optional(b) { UnitsInjective(a.value, b.value); }
  }

  lemma OptionalDays(a: Option<Weekday>, b: Option<Weekday>)
    ensures Optional(DayToWire(a)) == Optional(DayToWire(b)) ==> a == b
  {
    hide Optional, DayName, ReadDay;
    OptionalInjective(DayToWire(a), DayToWire(b));
    DayReadBack(a);
    DayReadBack(b);
  }

  lemma TimeInjective(a: OpeningTime, b: OpeningTime)
    requires TimeValues(a) == TimeValues(b)
    ensures a == b
  {
    hide TextValue, Optional, DayName, DayToWire;
    assert TimeValues(a)[0] == TimeValues(b)[0] && TimeValues(a)[1] == TimeValues(b)[1];
    assert TimeValues(a)[2] == TimeValues(b)[2] && TimeValues(a)[3] == TimeValues(b)[3];
    TextInjective(DayName(a.dayFrom), DayName(b.dayFrom));
    DayNames(a.dayFrom, b.dayFrom);
    OptionalDays(a.dayTo, b.dayTo);
    TextInjective(a.from, b.from);
    TextInjective(a.to, b.to);
  }

  lemma RecordsSame(keys: seq<string>, a: seq<Json>, b: seq<Json>)
    requires |keys| == |a| == |b|
    ensures Record(keys, a) == Record(keys, b) ==> a == b
  {
    hide Record;
    if Record(keys, a) == Record(keys, b) {
      forall i | 0 <= i < |a|
        ensures a[i] == b[i]
      {
        assert Record(keys, a).members[i] == Record(keys, b).members[i];
      }
    }
  }

  lemma TimesInjective(a: seq<OpeningTime>, b: seq<OpeningTime>)
    requires TimesValue(a) == TimesValue(b)
    ensures a == b
  {
    hide TimeValues, Record;
    assert |a| == |TimesValue(a).items| == |b|;
    forall i | 0 <= i < |a|
      ensures a[i] == b[i]
    {
      assert TimesValue(a).items[i] == TimesValue(b).items[i];
      RecordsSame(TIME_KEYS, TimeValues(a[i]), TimeValues(b[i]));
      TimeInjective(a[i], b[i]);
    }
  }

  lemma StoredInjective(a: ServiceHour, b: ServiceHour)
    requires StoredValue(a) == StoredValue(b)
    ensures a == b
  {
    hide TextValue, Optional, TypeName, LocalizedValue, TimesValue, Record, OptionalFlag;
    var x, y := StoredValues(a), StoredValues(b);
    RecordsSame(STORED_KEYS, x, y);
    assert x[0] == y[0] && x[1] == y[1] && x[2] == y[2] && x[3] == y[3] && x[4] == y[4];
    assert x[5] == y[5] && x[6] == y[6] && x[7] == y[7] && x[8] == y[8];
    TextInjective(TypeName(a.hourType), TypeName(b.hourType));
    TypeNames(a.hourType, b.hourType);
    OptionalInjective(a.validFrom, b.validFrom);
    OptionalInjective(a.validTo, b.validTo);
    FlagInjective(a.isClosed, b.isClosed);
    FlagInjective(a.isAlwaysOpen, b.isAlwaysOpen);
    FlagInjective(a.isReservation, b.isReservation);
    FlagInjective(a.validForNow, b.validForNow);
    if a.additionalInformation.Some? && b.additionalInformation.Some? {
      LocalizedInjective(a.additionalInformation.value, b.additionalInformation.value);
    }
    if a.openingTimes.Some? && b.openingTimes.Some? {
      TimesInjective(a.openingTimes.value, b.openingTimes.value);
    }
  }

  lemma FlagInjective(a: Option<bool>, b: Option<bool>)
    ensures OptionalFlag(a) == OptionalFlag(b) ==> a == b
  {
  }

  lemma StoredListInjective(a: seq<ServiceHour>, b: seq<ServiceHour>)
    requires StoredList(a) == StoredList(b)
    ensures a == b
  {
    hide StoredValue;
    assert |a| == |StoredList(a).items| == |b|;
    forall i | 0 <= i < |a|
      ensures a[i] == b[i]
    {
      assert StoredList(a).items[i] == StoredList(b).items[i];
      StoredInjective(a[i], b[i]);
    }
  }

  // ----- The rules of the diff -----

  /** canonicalServiceHours on the field's value; no hours are an empty list. */
  ghost function CanonicalHours(times: Hours.Order, v: Json): Json {
    if v.Undefined? || v.Null? then Arr([])
    else if exists hours :: v == StoredList(hours) then
      var hours :| v == StoredList(hours);
      CanonicalList(CanonicalAll(times, hours))
    else v
  }

  ghost function RulesOf(keys: StableJson.Order, times: Hours.Order, kindOf: Text -> DiffFields.Kind): DiffFields.Rules {
    DiffFields.Rules(keys, kindOf, v => CanonicalHours(times, v))
  }

  lemma CanonicalOfStored(times: Hours.Order, hours: seq<ServiceHour>)
    ensures CanonicalHours(times, StoredList(hours)) == CanonicalList(CanonicalAll(times, hours))
  {
    hide StoredList, CanonicalList, CanonicalAll;
    assert StoredList(hours).Arr? by { StoredIsList(hours); }
    forall other | StoredList(hours) == StoredList(other)
      ensures other == hours
    {
      StoredListInjective(hours, other);
    }
  }

  lemma StoredIsList(hours: seq<ServiceHour>)
    ensures StoredList(hours).Arr?
  {
  }

  // ----- What equal keys say about the hours -----

  lemma KeysDistinct()
    ensures DistinctNames(TIME_KEYS) && DistinctNames(HOUR_KEYS)
  {
  }

  lemma TimeWellFormed(time: OpeningTime)
    ensures WellFormed(TimeValue(time))
  {
    KeysDistinct();
    RecordKeys(TIME_KEYS, TimeValues(time));
  }

  ghost predicate TitleIsText(title: Option<LanguageText.Text>) {
    title.Some? ==> LanguageText.IsText(title.value)
  }

  lemma LeafWellFormed(v: Json)
    requires v.Str? || v.Bool?
    ensures WellFormed(v)
  {
  }

  lemma TimesWellFormed(times: seq<OpeningTime>)
    ensures WellFormed(TimesValue(times))
  {
    hide TimeValue;
    forall i | 0 <= i < |times|
      ensures WellFormed(TimesValue(times).items[i])
    {
      TimeWellFormed(times[i]);
    }
  }

  lemma CanonicalWellFormed(c: CanonicalHour)
    requires TitleIsText(c.additionalInformation)
    ensures WellFormed(CanonicalValue(c))
  {
    hide WellFormed, LocalizedValue, TimesValue, Record, Units, TypeName;
    var values := CanonicalValues(c);
    forall i | 0 <= i < 6
      ensures values[i].Undefined? || WellFormed(values[i])
    {
      if !values[i].Undefined? { LeafWellFormed(values[i]); }
    }
    if c.additionalInformation.Some? { LocalizedWellFormed(c.additionalInformation.value); }
    TimesWellFormed(c.openingTimes);
    KeysDistinct();
    RecordKeys(HOUR_KEYS, values);
  }

  lemma TimesEqual(a: seq<OpeningTime>, b: seq<OpeningTime>)
    requires Equal(TimesValue(a), TimesValue(b))
    ensures a == b
  {
    assert |a| == |TimesValue(a).items| == |TimesValue(b).items| == |b|;
    forall i | 0 <= i < |a|
      ensures a[i] == b[i]
    {
      assert Equal(TimesValue(a).items[i], TimesValue(b).items[i]);
      TimeEqual(a[i], b[i]);
    }
  }

  lemma SameScalar(x: Json, y: Json)
    requires SameValue(x, y) && (x.Str? || x.Undefined?)
    ensures x == y
  {
  }

  lemma TimeEqual(a: OpeningTime, b: OpeningTime)
    requires Equal(TimeValue(a), TimeValue(b))
    ensures a == b
  {
    hide Equal, Record, Units, DayName, DayToWire;
    KeysDistinct();
    var x, y := TimeValues(a), TimeValues(b);
    RecordsEqual(TIME_KEYS, x, y);
    forall i | 0 <= i < 4
      ensures x[i] == y[i]
    {
      assert x[i].Str? || x[i].Undefined?;
      SameScalar(x[i], y[i]);
    }
    TimeInjective(a, b);
  }

  /** Titles that compare equal have the same texts, in whatever order. */
  lemma TitlesEqual(a: LanguageText.Text, b: LanguageText.Text, item: LanguageText.Item)
    requires Equal(LocalizedValue(a), LocalizedValue(b)) && item in a
    ensures item in b
  {
    var i :| 0 <= i < |a| && a[i] == item;
    var v, w := LocalizedValue(a), LocalizedValue(b);
    EqualObjects(v, w);
    hide HasKey, HasEqual;
    assert Present(v.members[i]);
    var j := EqualAt(v.members[i], w.members);
    assert v.members[i].value == w.members[j].value;
    UnitsInjective(a[i].language, b[j].language);
    TextInjective(a[i].value, b[j].value);
  }

  lemma LeafEqual(v: Json, w: Json)
    requires SameValue(v, w) && (v.Str? || v.Bool? || v.Undefined?)
    ensures v == w
  {
  }

  /** Canonical hours that compare equal are the same up to the order of their titles. */
  lemma CanonicalEqual(a: CanonicalHour, b: CanonicalHour)
    requires Equal(CanonicalValue(a), CanonicalValue(b))
    ensures a.(additionalInformation := b.additionalInformation) == b
    ensures a.additionalInformation.Some? <==> b.additionalInformation.Some?
    ensures a.additionalInformation.Some? ==> Equal(LocalizedValue(a.additionalInformation.value), LocalizedValue(b.additionalInformation.value))
  {
    hide Equal, TextValue, Optional, TypeName, LocalizedValue, TimesValue, Record;
    var x, y := CanonicalValues(a), CanonicalValues(b);
    KeysDistinct();
    RecordsEqual(HOUR_KEYS, x, y);
    CanonicalLeaves(a);
    LeafEqual(x[0], y[0]);
    LeafEqual(x[1], y[1]);
    LeafEqual(x[2], y[2]);
    LeafEqual(x[3], y[3]);
    LeafEqual(x[4], y[4]);
    LeafEqual(x[5], y[5]);
    assert SameValue(x[6], y[6]) && SameValue(x[7], y[7]);
    TextInjective(TypeName(a.hourType), TypeName(b.hourType));
    TypeNames(a.hourType, b.hourType);
    OptionalInjective(a.validFrom, b.validFrom);
    OptionalInjective(a.validTo, b.validTo);
    TimesEqual(a.openingTimes, b.openingTimes);
  }

  lemma CanonicalLeaves(c: CanonicalHour)
    ensures forall i :: 0 <= i < 6 ==> CanonicalValues(c)[i].Str? || CanonicalValues(c)[i].Bool? || CanonicalValues(c)[i].Undefined?
  {
    hide Units, TypeName, LocalizedValue, TimesValue;
  }

  /** Read back, hours compare equal to what was written exactly when they are in domain form. */
  lemma ReadBackEqual(times: Hours.Order, hour: ServiceHour)
    requires IsHour(hour)
    ensures Equal(CanonicalValue(Canonical(times, ToDomain(ToWire(hour)))), CanonicalValue(Canonical(times, hour)))
            <==> InDomainForm(hour)
  {
    var read := ToDomain(ToWire(hour));
    var a, b := Canonical(times, read), Canonical(times, hour);
    HoursReadBack(times, hour);
    if InDomainForm(hour) {
      CanonicalWellFormed(b);
      EqualItself(CanonicalValue(b));
    }
    if Equal(CanonicalValue(a), CanonicalValue(b)) {
      CanonicalEqual(a, b);
      if a.additionalInformation.Some? {
        SameTitle(hour);
      }
      assert a == b;
    }
  }

  lemma SameTitle(hour: ServiceHour)
    requires IsHour(hour) && hour.additionalInformation.Some?
    requires ToDomain(ToWire(hour)).additionalInformation.Some?
    requires Equal(LocalizedValue(ToDomain(ToWire(hour)).additionalInformation.value), LocalizedValue(hour.additionalInformation.value))
    ensures ToDomain(ToWire(hour)).additionalInformation == hour.additionalInformation
  {
    hide Expand, TimesToDomain, TimesToWire, LocalizedValue, Equal, LanguageText.TextToItems, LanguageText.ItemsToText;
    var title, read := hour.additionalInformation.value, ToDomain(ToWire(hour)).additionalInformation.value;
    LanguageText.TextReadBack(title);
    LanguageText.ItemsAreText(title);
    assert read == LanguageText.TextToItems(title);
    EqualSymmetric(read, title);
    forall i | 0 <= i < |title|
      ensures title[i].value != ""
    {
      TitlesEqual(title, read, title[i]);
      var j :| 0 <= j < |read| && read[j] == title[i];
    }
    LanguageText.ItemsOfFilled(title);
  }

  lemma EqualSymmetric(a: LanguageText.Text, b: LanguageText.Text)
    requires Equal(LocalizedValue(a), LocalizedValue(b)) && LanguageText.IsText(a) && LanguageText.IsText(b)
    ensures Equal(LocalizedValue(b), LocalizedValue(a))
  {
    var v, w := LocalizedValue(a), LocalizedValue(b);
    EqualObjects(v, w);
    LocalizedWellFormed(a);
    LocalizedWellFormed(b);
    forall j | 0 <= j < |b|
      ensures HasEqual(w.members[j], v.members)
    {
      assert Present(w.members[j]);
      assert HasKey(v.members, w.members[j].key);
      var i :| 0 <= i < |v.members| && Present(v.members[i]) && v.members[i].key == w.members[j].key;
      var k := EqualAt(v.members[i], w.members);
      assert k == j;
      assert v.members[i].value == w.members[j].value;
      EqualItself(w.members[j].value);
      FoundEqual(w.members[j], v.members, i);
    }
    forall i | 0 <= i < |a|
      ensures HasKey(w.members, v.members[i].key)
    {
      assert Present(v.members[i]);
      var k := EqualAt(v.members[i], w.members);
      FoundKey(w.members, k);
    }
    hide HasEqual, HasKey;
    MembersEqual(w, v);
  }

  // ----- What the diff reports -----

  ghost predicate AllHours(hours: seq<ServiceHour>) {
    forall i :: 0 <= i < |hours| ==> TitleIsText(hours[i].additionalInformation)
  }

  lemma ListWellFormed(times: Hours.Order, hours: seq<ServiceHour>)
    requires AllHours(hours)
    ensures WellFormed(CanonicalList(CanonicalAll(times, hours)))
  {
    forall i | 0 <= i < |hours|
      ensures WellFormed(CanonicalList(CanonicalAll(times, hours)).items[i])
    {
      CanonicalWellFormed(CanonicalAll(times, hours)[i]);
    }
  }

  /** Under any collation the diff of two lists of hours is empty only when their canonical forms are equal. */
  lemma NothingReported(keys: StableJson.Order, times: Hours.Order, kindOf: Text -> DiffFields.Kind, field: Text,
                        before: seq<ServiceHour>, after: seq<ServiceHour>)
    requires kindOf(field) == DiffFields.ServiceHours && AllHours(before) && AllHours(after)
    ensures var a, b := CanonicalList(CanonicalAll(times, before)), CanonicalList(CanonicalAll(times, after));
            var entries := DiffFields.FieldEntries(RulesOf(keys, times, kindOf), field, StoredList(before), StoredList(after));
            && (entries == [] ==> Equal(a, b))
            && (a == b ==> entries == [])
  {
    CanonicalOfStored(times, before);
    CanonicalOfStored(times, after);
    ListWellFormed(times, before);
    ListWellFormed(times, after);
    var a, b := CanonicalList(CanonicalAll(times, before)), CanonicalList(CanonicalAll(times, after));
    var rules := RulesOf(keys, times, kindOf);
    assert DiffFields.FieldKey(rules, DiffFields.ServiceHours, StoredList(before)) == Stable(keys, a);
    assert DiffFields.FieldKey(rules, DiffFields.ServiceHours, StoredList(after)) == Stable(keys, b);
    if Stable(keys, a) == Stable(keys, b) {
      SameKeyEqual(keys, a, b);
    }
  }

  /**
   * A diff of hours against what PTV returns of them, when it returns what it was sent, reports
   * nothing exactly when every hour is in domain form, under any collation of keys and times.
   */
  lemma WrittenHoursReportNothing(keys: StableJson.Order, times: Hours.Order, kindOf: Text -> DiffFields.Kind, field: Text,
                                  hours: seq<ServiceHour>)
    requires kindOf(field) == DiffFields.ServiceHours && forall i :: 0 <= i < |hours| ==> IsHour(hours[i])
    ensures DiffFields.FieldEntries(RulesOf(keys, times, kindOf), field, StoredList(ReadBack(hours)), StoredList(hours)) == []
            <==> forall i :: 0 <= i < |hours| ==> InDomainForm(hours[i])
  {
    var read := ReadBack(hours);
    forall i | 0 <= i < |hours|
      ensures TitleIsText(read[i].additionalInformation)
    {
      ReadTitleIsText(hours[i]);
    }
    NothingReported(keys, times, kindOf, field, read, hours);
    var a, b := CanonicalList(CanonicalAll(times, read)), CanonicalList(CanonicalAll(times, hours));
    forall i | 0 <= i < |hours|
      ensures Equal(a.items[i], b.items[i]) <==> InDomainForm(hours[i])
      ensures InDomainForm(hours[i]) ==> a.items[i] == b.items[i]
    {
      ReadBackEqual(times, hours[i]);
      HoursReadBack(times, hours[i]);
    }
    if forall i :: 0 <= i < |hours| ==> InDomainForm(hours[i]) {
      assert a.items == b.items;
    }
  }

  lemma ReadTitleIsText(hour: ServiceHour)
    ensures TitleIsText(ToDomain(ToWire(hour)).additionalInformation)
  {
    var wire := ToWire(hour);
    if wire.additionalInformation.Some? {
      LanguageText.ReadsFirst(wire.additionalInformation.value, "");
    }
  }

  /** However PTV renders hours written with clock times and full dates, the diff against them reports nothing. */
  lemma EchoedHoursReportNothing(keys: StableJson.Order, times: Hours.Order, kindOf: Text -> DiffFields.Kind, field: Text,
                                 hours: seq<ServiceHour>, read: seq<WireHour>, back: seq<ServiceHour>)
    requires kindOf(field) == DiffFields.ServiceHours && |hours| == |read| == |back|
    requires forall i :: 0 <= i < |hours| ==> back[i] == ToDomain(read[i])
    requires forall i :: 0 <= i < |hours| ==>
               && IsHour(hours[i]) && SettledTitle(hours[i].additionalInformation)
               && FullDate(hours[i].validFrom) && FullDate(hours[i].validTo) && ClockTimes(Expand(hours[i]))
               && Echoes(ToWire(hours[i]), read[i])
    ensures DiffFields.FieldEntries(RulesOf(keys, times, kindOf), field, StoredList(back), StoredList(hours)) == []
  {
    forall i | 0 <= i < |hours|
      ensures Canonical(times, back[i]) == Canonical(times, hours[i])
      ensures TitleIsText(back[i].additionalInformation)
    {
      EchoedHoursCompareEqual(times, hours[i], read[i]);
      assert Canonical(times, back[i]).additionalInformation == Canonical(times, hours[i]).additionalInformation;
    }
    assert CanonicalAll(times, back) == CanonicalAll(times, hours);
    NothingReported(keys, times, kindOf, field, back, hours);
  }
}

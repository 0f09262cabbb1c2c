/**
 * A reviewed service change as the body of PTV's PUT, and what that PUT leaves
 * (src/ptv/v11/writeMapping.ts:20-137, 205-294, src/ptv/v11/deleteFlags.ts:34-57,
 * src/ptv/v11/mappers/common.ts:12-57, src/mcp/proposeChanges.ts:98-108).
 * PTV's PUT follows the rules in the code's comments: a key that is not sent keeps its
 * field, a delete flag clears it, a list that is sent replaces the whole list.
 */
module ServicePut {
  import opened Wrappers
  import opened LanguageText

  /** A field of a partial change: not a key, a key without a value, or a key with one. */
  datatype Change<+T> = Absent | Undefined | Present(value: T)

  datatype ClassField = ServiceClasses | OntologyTerms | TargetGroups | LifeEvents | IndustrialClasses

  datatype CodeListEntry = CodeListEntry(code: Option<string>, uri: Option<string>)

  datatype Status = Draft | Published | Modified | Archived | Withdrawn

  /** v11's own words; archiving is called Deleted there. */
  datatype WireStatus = WireDraft | WirePublished | WireModified | WireDeleted | WireArchived | WireWithdrawn | WireUnknown

  /** An entry of a localized list; PTV's null for an empty text is "". */
  datatype WireText = WireText(language: string, value: string, kind: string)

  datatype Changes = Changes(
    serviceType: Change<string>,
    publishingStatus: Change<Status>,
    names: Change<Text>,
    summaries: Change<Text>,
    descriptions: Change<Text>,
    lists: map<ClassField, Option<seq<CodeListEntry>>>,  // a key is a touched list; None: touched without a value
    languages: Change<seq<string>>,
    generalDescriptionId: Change<string>)

  /** A service as PTV stores it and, inherited list entries apart (see UriSet), as its GET returns it. */
  datatype Service = Service(
    serviceType: string,
    publishingStatus: WireStatus,
    names: seq<WireText>,
    descriptions: seq<WireText>,
    lists: ClassField -> seq<CodeListEntry>,
    languages: seq<string>,
    generalDescriptionId: Option<string>)

  datatype Body = Body(
    serviceType: Option<string>,
    publishingStatus: Option<WireStatus>,
    names: Option<seq<WireText>>,
    descriptions: Option<seq<WireText>>,
    lists: map<ClassField, seq<string>>,
    languages: Option<seq<string>>,
    generalDescriptionId: Option<string>,
    deleteLists: set<ClassField>,
    deleteGeneralDescription: bool)

  const NO_BODY := Body(None, None, None, None, map[], None, None, {}, false)

  const CLASSIFICATION_FIELDS: seq<ClassField> := [ServiceClasses, OntologyTerms, TargetGroups, LifeEvents, IndustrialClasses]

  /** Without a general description to take them from, a service must bring these three along each time it is written. */
  const REQUIRED_WITHOUT_GENERAL_DESCRIPTION: seq<ClassField> := [ServiceClasses, OntologyTerms, TargetGroups]

  predicate HasDeleteFlag(field: ClassField) {
    field == LifeEvents || field == IndustrialClasses
  }

  // ----- URIs -----

  const INDUSTRIAL_CLASS_URI_PREFIX := "http://www.stat.fi/meta/luokitukset/toimiala/001-2008/"

  predicate StartsWith(text: string, prefix: string) {
    |prefix| <= |text| && text[..|prefix|] == prefix
  }

  /** What JavaScript trims: white space and line ends (sections 12.2 and 12.3 of ECMA-262). */
  predicate IsSpace(c: char) {
    || '\t' <= c <= '\r' || c == ' ' || c == '\U{00A0}' || c == '\U{1680}' || '\U{2000}' <= c <= '\U{200A}'
    || c == '\U{2028}' || c == '\U{2029}' || c == '\U{202F}' || c == '\U{205F}' || c == '\U{3000}' || c == '\U{FEFF}'
  }

  function Trim(text: string): string
    decreases |text|
  {
    if text == [] then []
    else if IsSpace(text[0]) then Trim(text[1..])
    else if IsSpace(text[|text| - 1]) then Trim(text[..|text| - 1])
    else text
  }

  function LastSegment(uri: string): string
    decreases |uri|
  {
    if uri == [] || uri[|uri| - 1] == '/' then [] else LastSegment(uri[..|uri| - 1]) + [uri[|uri| - 1]]
  }

  /** An absent and an empty text are alike. */
  function Truthy(text: Option<string>): Option<string> {
    if text == Some("") then None else text
  }

  function IndustrialClassUri(entry: CodeListEntry): Option<string> {
    var code := if entry.code.Some? then Trim(entry.code.value) else "";
    if code != "" then
      Some(if StartsWith(code, "http") then code else INDUSTRIAL_CLASS_URI_PREFIX + code)
    else if entry.uri.Some? && StartsWith(entry.uri.value, INDUSTRIAL_CLASS_URI_PREFIX) then entry.uri
    else
      var last := if entry.uri.Some? then LastSegment(entry.uri.value) else "";
      if last != "" then Some(INDUSTRIAL_CLASS_URI_PREFIX + last) else None
  }

  /** The URI an entry of a change is written as. */
  function UriOf(field: ClassField, entry: CodeListEntry): Option<string> {
    if field == IndustrialClasses then IndustrialClassUri(entry) else Truthy(entry.uri)
  }

  function UrisOf(field: ClassField, entries: seq<CodeListEntry>): (r: seq<Option<string>>)
    ensures |r| == |entries| && forall i :: 0 <= i < |r| ==> r[i] == UriOf(field, entries[i])
  {
    seq(|entries|, i requires 0 <= i < |entries| => UriOf(field, entries[i]))
  }

  function OwnUris(entries: seq<CodeListEntry>): (r: seq<Option<string>>)
    ensures |r| == |entries| && forall i :: 0 <= i < |r| ==> r[i] == Truthy(entries[i].uri)
  {
    seq(|entries|, i requires 0 <= i < |entries| => Truthy(entries[i].uri))
  }

  /** toUris: entries without one are dropped. */
  function Known(uris: seq<Option<string>>): seq<string> {
    if uris == [] then []
    else (if uris[0].Some? && uris[0].value != "" then [uris[0].value] else []) + Known(uris[1..])
  }

  // ----- The body -----

  function ToWireStatus(status: Status): Option<WireStatus> {
    match status
    case Archived => Some(WireDeleted) case Draft => Some(WireDraft) case Published => Some(WirePublished) case _ => None
  }

  function WireList(text: Text, kind: string): (r: seq<WireText>)
    ensures |r| == |TextToItems(text)|
    ensures forall i :: 0 <= i < |r| ==> r[i] == WireText(TextToItems(text)[i].language, TextToItems(text)[i].value, kind)
  {
    seq(|TextToItems(text)|, i requires 0 <= i < |TextToItems(text)| =>
      WireText(TextToItems(text)[i].language, TextToItems(text)[i].value, kind))
  }

  function TextOf(change: Change<Text>): Text {
    if change.Present? then change.value else []
  }

  function OfKind(items: seq<WireText>, kind: string): seq<WireText> {
    if items == [] then []
    else (if items[0].value != "" && items[0].kind == kind then [items[0]] else []) + OfKind(items[1..], kind)
  }

  function Kept(items: seq<WireText>, replaced: set<string>): seq<WireText> {
    if items == [] then []
    else (if items[0].value != "" && items[0].kind !in replaced then [items[0]] else []) + Kept(items[1..], replaced)
  }

  function NamesBody(changes: Changes, current: Service): Option<seq<WireText>> {
    if changes.names.Absent? then None
    else Some(Kept(current.names, {"Name"}) + WireList(TextOf(changes.names), "Name"))
  }

  /** A text that is touched, or else the entries it already has. */
  function TouchedOr(change: Change<Text>, items: seq<WireText>, kind: string): seq<WireText> {
    if change.Absent? then OfKind(items, kind) else WireList(TextOf(change), kind)
  }

  function DescriptionsBody(changes: Changes, current: Service): Option<seq<WireText>> {
    if changes.summaries.Absent? && changes.descriptions.Absent? then None
    else Some(Kept(current.descriptions, {"Summary", "Description"})
              + TouchedOr(changes.summaries, current.descriptions, "Summary")
              + TouchedOr(changes.descriptions, current.descriptions, "Description"))
  }

  predicate KeepsGeneralDescription(changes: Changes, current: Service) {
    if changes.generalDescriptionId.Absent? then Truthy(current.generalDescriptionId).Some?
    else changes.generalDescriptionId.Present? && changes.generalDescriptionId.value != ""
  }

  /** A change clears a list that has a delete flag. */
  predicate SendsDeleteFlag(changes: Changes, field: ClassField) {
    field in changes.lists && changes.lists[field] == Some([]) && HasDeleteFlag(field)
  }

  function ClearedLists(changes: Changes): set<ClassField> {
    set field | field in changes.lists && SendsDeleteFlag(changes, field)
  }

  /** The lists a change gives a value. */
  function TouchedLists(changes: Changes): map<ClassField, seq<string>> {
    map field | field in changes.lists && changes.lists[field].Some? && !SendsDeleteFlag(changes, field) ::
      Known(UrisOf(field, changes.lists[field].value))
  }

  /** The required lists that a change leaves alone are sent as they are, when there is no general description. */
  function ResentLists(changes: Changes, current: Service): map<ClassField, seq<string>> {
    map field | field in REQUIRED_WITHOUT_GENERAL_DESCRIPTION
                && field !in changes.lists && !KeepsGeneralDescription(changes, current) :: Known(OwnUris(current.lists(field)))
  }

  function Without(uris: seq<string>, inherited: set<string>): seq<string> {
    if uris == [] then []
    else (if uris[0] in inherited then [] else [uris[0]]) + Without(uris[1..], inherited)
  }

  /** Inherited entries are left out, unless that would leave nothing. */
  function Filtered(uris: seq<string>, inherited: set<string>): seq<string> {
    var own := Without(uris, inherited);
    if inherited != {} && own != [] then own else uris
  }

  function ListsBody(changes: Changes, current: Service, inherited: set<string>): map<ClassField, seq<string>> {
    var sent := TouchedLists(changes) + ResentLists(changes, current);
    map field | field in sent :: Filtered(sent[field], inherited)
  }

  /** The body; refused when the change asks for a status the API cannot write. */
  function BodyOf(changes: Changes, current: Service, inherited: set<string>): Option<Body> {
    var status := if changes.publishingStatus.Present? then ToWireStatus(changes.publishingStatus.value)
                  else Some(current.publishingStatus);
    if status.None? then None
    else
      var clears := !changes.generalDescriptionId.Absent? && !KeepsGeneralDescription(changes, current);
      var serviceType := if changes.serviceType.Present? then Truthy(Some(changes.serviceType.value)) else None;
      Some(Body(
        if clears && serviceType.None? then Some(current.serviceType) else serviceType,
        status, NamesBody(changes, current), DescriptionsBody(changes, current), ListsBody(changes, current, inherited),
        if changes.languages.Absent? then None else Some(if changes.languages.Present? then changes.languages.value else []),
        if !changes.generalDescriptionId.Absent? && !clears then Some(changes.generalDescriptionId.value) else None,
        ClearedLists(changes),
        clears))
  }

  /** The body as it is filled in. */
  class BodyBuilder {
    var body: Body

    constructor ()
      ensures body == NO_BODY
    {
      body := NO_BODY;
    }

    /** Sets the field's delete flag if there is one; otherwise an empty list is sent. */
    method ClearList(field: ClassField)
      modifies this
      ensures body == if HasDeleteFlag(field) then old(body).(deleteLists := old(body).deleteLists + {field})
                      else old(body).(lists := old(body).lists[field := []])
    {
      if field == LifeEvents || field == IndustrialClasses {
        body := body.(deleteLists := body.deleteLists + {field});
      } else {
        body := body.(lists := body.lists[field := []]);
      }
    }

    method ApplyUriListField(changes: Changes, field: ClassField)
      modifies this
      ensures body == old(body).(lists := body.lists, deleteLists := body.deleteLists)
      ensures body.lists == if field in TouchedLists(changes) then old(body).lists[field := TouchedLists(changes)[field]] else old(body).lists
      ensures body.deleteLists == if field in ClearedLists(changes) then old(body).deleteLists + {field} else old(body).deleteLists
    {
      hide Known, UrisOf, UriOf;
      if field !in changes.lists || changes.lists[field].None? { return; }
      var entries := changes.lists[field].value;
      if entries == [] {
        ClearList(field);
        assert Known(UrisOf(field, entries)) == [] by { NothingKnown(field); }
        return;
      }
      body := body.(lists := body.lists[field := Known(UrisOf(field, entries))]);
    }

    method ApplyTouched(changes: Changes)
      requires body.lists == map[] && body.deleteLists == {}
      modifies this
      ensures body == old(body).(lists := TouchedLists(changes), deleteLists := ClearedLists(changes))
    {
      hide TouchedLists, ClearedLists;
      ApplyUriListField(changes, ServiceClasses);
      ApplyUriListField(changes, OntologyTerms);
      ApplyUriListField(changes, TargetGroups);
      ApplyUriListField(changes, LifeEvents);
      ApplyUriListField(changes, IndustrialClasses);
      EveryField(body.lists, TouchedLists(changes));
      EveryFieldOf(body.deleteLists, ClearedLists(changes));
    }

    method ApplyRequired(changes: Changes, current: Service)
      requires body.lists == TouchedLists(changes)
      modifies this
      ensures body == old(body).(lists := TouchedLists(changes) + ResentLists(changes, current))
    {
      hide TouchedLists, ResentLists, KeepsGeneralDescription;
      if KeepsGeneralDescription(changes, current) {
        NothingResent(changes, current);
        return;
      }
      ghost var touched, resent := TouchedLists(changes), ResentLists(changes, current);
      forall field
        ensures field in resent ==> field in REQUIRED_WITHOUT_GENERAL_DESCRIPTION && field !in touched
      {
        ResentAt(changes, current, field);
      }
      for k := 0 to |REQUIRED_WITHOUT_GENERAL_DESCRIPTION|
        invariant body == old(body).(lists := body.lists)
        invariant forall field :: field in body.lists <==>
                    field in touched || (field in resent && field in REQUIRED_WITHOUT_GENERAL_DESCRIPTION[..k])
        invariant forall field :: field in body.lists ==>
                    body.lists[field] == if field in resent then resent[field] else touched[field]
      {
        assert REQUIRED_WITHOUT_GENERAL_DESCRIPTION[..k + 1]
               == REQUIRED_WITHOUT_GENERAL_DESCRIPTION[..k] + [REQUIRED_WITHOUT_GENERAL_DESCRIPTION[k]];
        var field := REQUIRED_WITHOUT_GENERAL_DESCRIPTION[k];
        ResentAt(changes, current, field);
        if field !in changes.lists {
          body := body.(lists := body.lists[field := Known(OwnUris(current.lists(field)))]);
        }
      }
      assert REQUIRED_WITHOUT_GENERAL_DESCRIPTION[..|REQUIRED_WITHOUT_GENERAL_DESCRIPTION|] == REQUIRED_WITHOUT_GENERAL_DESCRIPTION;
      assert body.lists == touched + resent;
    }

    method DropInherited(inherited: set<string>)
      modifies this
      ensures body == old(body).(lists := map field | field in old(body).lists :: Filtered(old(body).lists[field], inherited))
    {
      hide Filtered;
      for k := 0 to |CLASSIFICATION_FIELDS|
        invariant body == old(body).(lists := body.lists) && body.lists.Keys == old(body).lists.Keys
        invariant forall field :: field in body.lists ==>
                    body.lists[field] == if field in CLASSIFICATION_FIELDS[..k] then Filtered(old(body).lists[field], inherited)
                                         else old(body).lists[field]
      {
        assert CLASSIFICATION_FIELDS[..k + 1] == CLASSIFICATION_FIELDS[..k] + [CLASSIFICATION_FIELDS[k]];
        var field := CLASSIFICATION_FIELDS[k];
        assert field !in CLASSIFICATION_FIELDS[..k];
        if field in body.lists {
          body := body.(lists := body.lists[field := Filtered(body.lists[field], inherited)]);
        }
      }
      assert CLASSIFICATION_FIELDS[..|CLASSIFICATION_FIELDS|] == CLASSIFICATION_FIELDS;
      AllFields();
    }

    method ServiceChangesToV11Body(changes: Changes, current: Service, inherited: set<string>) returns (ok: bool)
      requires body == NO_BODY
      modifies this
      ensures ok <==> BodyOf(changes, current, inherited).Some?
      ensures ok ==> Some(body) == BodyOf(changes, current, inherited)
    {
      hide TouchedLists, ResentLists, ClearedLists, Filtered, NamesBody, Kept, WireList;
      if changes.serviceType.Present? && changes.serviceType.value != "" {
        body := body.(serviceType := Some(changes.serviceType.value));
      }
      if changes.publishingStatus.Present? {
        var status := ToWireStatus(changes.publishingStatus.value);
        if status.None? { return false; }
        body := body.(publishingStatus := status);
      } else {
        body := body.(publishingStatus := Some(current.publishingStatus));
      }
      body := body.(names := NamesBody(changes, current));
      if !changes.summaries.Absent? || !changes.descriptions.Absent? {
        var summaries := TouchedOr(changes.summaries, current.descriptions, "Summary");
        var descriptions := TouchedOr(changes.descriptions, current.descriptions, "Description");
        body := body.(descriptions := Some(Kept(current.descriptions, {"Summary", "Description"}) + summaries + descriptions));
      }
      ApplyTouched(changes);
      ApplyRequired(changes, current);
      DropInherited(inherited);
      if !changes.languages.Absent? {
        body := body.(languages := Some(if changes.languages.Present? then changes.languages.value else []));
      }
      if !changes.generalDescriptionId.Absent? {
        if changes.generalDescriptionId.Present? && changes.generalDescriptionId.value != "" {
          body := body.(generalDescriptionId := Some(changes.generalDescriptionId.value));
        } else {
          body := body.(deleteGeneralDescription := true);
          if body.serviceType.None? {
            body := body.(serviceType := Some(current.serviceType));
          }
        }
      }
      return true;
    }
  }

  lemma NothingResent(changes: Changes, current: Service)
    requires KeepsGeneralDescription(changes, current)
    ensures ResentLists(changes, current) == map[]
  {
  }

  lemma ResentAt(changes: Changes, current: Service, field: ClassField)
    requires !KeepsGeneralDescription(changes, current)
    ensures field in ResentLists(changes, current) <==> field in REQUIRED_WITHOUT_GENERAL_DESCRIPTION && field !in changes.lists
    ensures field in ResentLists(changes, current) ==>
              ResentLists(changes, current)[field] == Known(OwnUris(current.lists(field))) && field !in TouchedLists(changes)
    ensures field in TouchedLists(changes) ==> field in changes.lists
  {
  }

  lemma NothingKnown(field: ClassField)
    ensures Known(UrisOf(field, [])) == []
  {
  }

  lemma AllFields()
    ensures forall field: ClassField :: field in CLASSIFICATION_FIELDS
  {
    forall field: ClassField
      ensures field in CLASSIFICATION_FIELDS
    {
      match field
      case ServiceClasses => assert CLASSIFICATION_FIELDS[0] == field;
      case OntologyTerms => assert CLASSIFICATION_FIELDS[1] == field;
      case TargetGroups => assert CLASSIFICATION_FIELDS[2] == field;
      case LifeEvents => assert CLASSIFICATION_FIELDS[3] == field;
      case IndustrialClasses => assert CLASSIFICATION_FIELDS[4] == field;
    }
  }

  lemma EveryField(a: map<ClassField, seq<string>>, b: map<ClassField, seq<string>>)
    requires forall field :: field in {ServiceClasses, OntologyTerms, TargetGroups, LifeEvents, IndustrialClasses} ==>
               (field in a <==> field in b) && (field in a ==> a[field] == b[field])
    ensures a == b
  {
    forall field: ClassField
      ensures (field in a <==> field in b) && (field in a ==> a[field] == b[field])
    {
      OneOfFive(field);
    }
  }

  lemma OneOfFive(field: ClassField)
    ensures field in {ServiceClasses, OntologyTerms, TargetGroups, LifeEvents, IndustrialClasses}
  {
    match field
    case ServiceClasses => case OntologyTerms => case TargetGroups => case LifeEvents => case IndustrialClasses =>
  }

  lemma EveryFieldOf(a: set<ClassField>, b: set<ClassField>)
    requires forall field :: field in {ServiceClasses, OntologyTerms, TargetGroups, LifeEvents, IndustrialClasses} ==>
               (field in a <==> field in b)
    ensures a == b
  {
    forall field: ClassField
      ensures field in a <==> field in b
    {
      OneOfFive(field);
    }
  }

  // ----- What the PUT leaves -----

  /** Entries written as URIs. */
  function Entries(uris: seq<string>): (r: seq<CodeListEntry>)
    ensures |r| == |uris| && forall i :: 0 <= i < |r| ==> r[i] == CodeListEntry(None, Some(uris[i]))
  {
    seq(|uris|, i requires 0 <= i < |uris| => CodeListEntry(None, Some(uris[i])))
  }

  function Or<T>(sent: Option<T>, stored: T): T {
    if sent.Some? then sent.value else stored
  }

  function ListAfter(stored: Service, body: Body, field: ClassField): seq<CodeListEntry> {
    if field in body.lists then Entries(body.lists[field])
    else if field in body.deleteLists then []
    else stored.lists(field)
  }

  /** PTV's PUT: an absent key keeps, a delete flag clears, a present key replaces. */
  function Put(stored: Service, body: Body): Service {
    Service(
      Or(body.serviceType, stored.serviceType),
      Or(body.publishingStatus, stored.publishingStatus),
      Or(body.names, stored.names),
      Or(body.descriptions, stored.descriptions),
      (field: ClassField) => ListAfter(stored, body, field),
      Or(body.languages, stored.languages),
      if body.deleteGeneralDescription then None else if body.generalDescriptionId.Some? then body.generalDescriptionId
      else stored.generalDescriptionId)
  }

  // ----- Texts -----

  lemma {:induction false} KeptOfKind(items: seq<WireText>, replaced: set<string>, kind: string)
    ensures OfKind(Kept(items, replaced), kind) == if kind in replaced then [] else OfKind(items, kind)
  {
    if items != [] {
      KeptOfKind(items[1..], replaced, kind);
      var rest := Kept(items[1..], replaced);
      if Kept(items, replaced) != rest {
        assert ([items[0]] + rest)[1..] == rest;
      }
    }
  }

  lemma {:induction false} OfKindJoined(a: seq<WireText>, b: seq<WireText>, kind: string)
    ensures OfKind(a + b, kind) == OfKind(a, kind) + OfKind(b, kind)
  {
    if a == [] {
      assert a + b == b;
    } else {
      assert (a + b)[1..] == a[1..] + b;
      OfKindJoined(a[1..], b, kind);
    }
  }

  lemma {:induction false} OfKindAll(items: seq<WireText>, of: string, kind: string)
    requires forall i :: 0 <= i < |items| ==> items[i].kind == of && items[i].value != ""
    ensures OfKind(items, kind) == if kind == of then items else []
  {
    if items != [] {
      OfKindAll(items[1..], of, kind);
      assert items == [items[0]] + items[1..];
    }
  }

  lemma {:induction false} FilledItems(text: Text)
    ensures AllFilled(TextToItems(text))
  {
    if text != [] { FilledItems(text[1..]); }
  }

  lemma WireListOfKind(text: Text, of: string, kind: string)
    ensures OfKind(WireList(text, of), kind) == if kind == of then WireList(text, of) else []
  {
    FilledItems(text);
    OfKindAll(WireList(text, of), of, kind);
  }

  lemma {:induction false} OfKindTwice(items: seq<WireText>, of: string, kind: string)
    ensures OfKind(OfKind(items, of), kind) == if kind == of then OfKind(items, of) else []
  {
    if items != [] {
      OfKindTwice(items[1..], of, kind);
      var rest := OfKind(items[1..], of);
      if OfKind(items, of) != rest {
        assert ([items[0]] + rest)[1..] == rest;
      }
    }
  }

  lemma TouchedOfKind(change: Change<Text>, items: seq<WireText>, of: string, kind: string)
    ensures OfKind(TouchedOr(change, items, of), kind) == if kind == of then TouchedOr(change, items, of) else []
  {
    hide OfKind, WireList;
    if change.Absent? { OfKindTwice(items, of, kind); } else { WireListOfKind(TextOf(change), of, kind); }
  }

  /**
   * After the PUT the names are the change's non-empty texts when names are touched and
   * the same as before when not; every other kind of name keeps its non-empty texts.
   */
  lemma NamesAfterPut(changes: Changes, stored: Service, inherited: set<string>, kind: string)
    requires BodyOf(changes, stored, inherited).Some?
    ensures var after := Put(stored, BodyOf(changes, stored, inherited).value).names;
            if changes.names.Absent? then after == stored.names
            else OfKind(after, kind) == if kind == "Name" then WireList(TextOf(changes.names), "Name") else OfKind(stored.names, kind)
  {
    hide OfKind, Kept, WireList, ListsBody, ClearedLists, DescriptionsBody;
    if !changes.names.Absent? {
      KeptOfKind(stored.names, {"Name"}, kind);
      WireListOfKind(TextOf(changes.names), "Name", kind);
      OfKindJoined(Kept(stored.names, {"Name"}), WireList(TextOf(changes.names), "Name"), kind);
    }
  }

  /** The same for summaries and descriptions, which share a list: touching one resends the other. */
  lemma DescriptionsAfterPut(changes: Changes, stored: Service, inherited: set<string>, kind: string)
    requires BodyOf(changes, stored, inherited).Some?
    ensures var after := Put(stored, BodyOf(changes, stored, inherited).value).descriptions;
            if changes.summaries.Absent? && changes.descriptions.Absent? then after == stored.descriptions
            else OfKind(after, kind) ==
                 if kind == "Summary" then TouchedOr(changes.summaries, stored.descriptions, "Summary")
                 else if kind == "Description" then TouchedOr(changes.descriptions, stored.descriptions, "Description")
                 else OfKind(stored.descriptions, kind)
  {
    hide OfKind, Kept, TouchedOr, ListsBody, ClearedLists, NamesBody;
    if !changes.summaries.Absent? || !changes.descriptions.Absent? {
      var kept := Kept(stored.descriptions, {"Summary", "Description"});
      var summaries := TouchedOr(changes.summaries, stored.descriptions, "Summary");
      var descriptions := TouchedOr(changes.descriptions, stored.descriptions, "Description");
      KeptOfKind(stored.descriptions, {"Summary", "Description"}, kind);
      TouchedOfKind(changes.summaries, stored.descriptions, "Summary", kind);
      TouchedOfKind(changes.descriptions, stored.descriptions, "Description", kind);
      OfKindJoined(kept, summaries, kind);
      OfKindJoined(kept + summaries, descriptions, kind);
    }
  }

  // ----- Texts as they are read back -----

  /** The first entry of a language and kind. */
  function First(items: seq<WireText>, language: string, kind: Option<string>): Option<WireText> {
    if items == [] then None
    else if items[0].language == language && (kind.None? || items[0].kind == kind.value) then Some(items[0])
    else First(items[1..], language, kind)
  }

  /** toLocalizedText in one language: the preferred kind, or else the first entry of any kind; None: the language is not read. */
  function ReadIn(items: seq<WireText>, preferred: string, language: string): Option<string> {
    var typed, any := First(items, language, Some(preferred)), First(items, language, None);
    if typed.Some? then Some(typed.value.value) else if any.Some? then Some(any.value.value) else None
  }

  lemma {:induction false} FirstJoined(a: seq<WireText>, b: seq<WireText>, language: string, kind: Option<string>)
    ensures First(a + b, language, kind) == if First(a, language, kind).Some? then First(a, language, kind) else First(b, language, kind)
  {
    if a == [] {
      assert a + b == b;
    } else {
      assert (a + b)[1..] == a[1..] + b;
      FirstJoined(a[1..], b, language, kind);
    }
  }

  lemma {:induction false} FirstListed(items: seq<WireText>, language: string, kind: Option<string>)
    ensures First(items, language, kind).Some? <==>
            exists i :: 0 <= i < |items| && items[i].language == language && (kind.None? || items[i].kind == kind.value)
    ensures First(items, language, kind).Some? ==> First(items, language, kind).value in items
  {
    if items != [] {
      FirstListed(items[1..], language, kind);
      assert forall i :: 0 <= i < |items[1..]| ==> items[1..][i] == items[i + 1];
    }
  }

  lemma {:induction false} KeptListed(items: seq<WireText>, replaced: set<string>, item: WireText)
    ensures item in Kept(items, replaced) <==> item in items && item.value != "" && item.kind !in replaced
  {
    if items != [] {
      KeptListed(items[1..], replaced, item);
      assert items == [items[0]] + items[1..];
    }
  }

  lemma WireListStep(text: Text, of: string)
    requires text != []
    ensures WireList(text, of)
            == (if text[0].value != "" then [WireText(text[0].language, text[0].value, of)] else []) + WireList(text[1..], of)
  {
  }

  lemma FirstAdded(item: WireText, rest: seq<WireText>, language: string)
    ensures First([item] + rest, language, None) == if item.language == language then Some(item) else First(rest, language, None)
    ensures First([] + rest, language, None) == First(rest, language, None)
  {
    assert ([item] + rest)[1..] == rest;
    assert [] + rest == rest;
  }

  lemma {:induction false} FirstOfWireList(text: Text, of: string, language: string)
    requires IsText(text)
    ensures var first := First(WireList(text, of), language, None);
            (first.Some? <==> Value(text, language) != "") && (first.Some? ==> first.value == WireText(language, Value(text, language), of))
  {
    hide WireList, First;
    if text == [] {
      NothingWritten(of, language);
    } else {
      FirstOfWireList(text[1..], of, language);
      NotTwice(text);
      WireListStep(text, of);
      FirstAdded(WireText(text[0].language, text[0].value, of), WireList(text[1..], of), language);
    }
  }

  lemma NothingWritten(of: string, language: string)
    ensures First(WireList([], of), language, None).None?
  {
  }

  lemma NotTwice(text: Text)
    requires IsText(text) && text != []
    ensures Value(text[1..], text[0].language) == ""
  {
    NotFound(text[1..], text[0].language);
  }

  lemma {:induction false} NotFound(text: Text, language: string)
    requires forall i :: 0 <= i < |text| ==> text[i].language != language
    ensures Value(text, language) == ""
  {
    if text != [] { NotFound(text[1..], language); }
  }

  /** A language some kept name is in, although the change has no name in it. */
  ghost predicate StrayName(stored: Service, names: Text, language: string) {
    Value(names, language) == ""
    && exists i :: 0 <= i < |stored.names| && stored.names[i].language == language && stored.names[i].kind != "Name"
                   && stored.names[i].value != ""
  }

  lemma {:induction false} SameFirst(items: seq<WireText>, of: string, language: string)
    requires forall i :: 0 <= i < |items| ==> items[i].kind == of
    ensures First(items, language, Some(of)) == First(items, language, None)
  {
    if items != [] { SameFirst(items[1..], of, language); }
  }

  lemma ReadNameIn(changes: Changes, stored: Service, names: Text, language: string)
    requires !changes.names.Absent? && names == TextOf(changes.names) && IsText(names)
    ensures ReadIn(NamesBody(changes, stored).value, "Name", language) == Find(names, language)
            <==> Find(names, language) != Some("") && !StrayName(stored, names, language)
  {
    hide First, Kept, WireList, Value, Find;
    var kept, written := Kept(stored.names, {"Name"}), WireList(names, "Name");
    KeptKinds(stored.names, language);
    FirstWritten(names, "Name", language);
    FirstJoined(kept, written, language, Some("Name"));
    FirstJoined(kept, written, language, None);
    FoundValue(names, language);
  }

  lemma KeptKinds(items: seq<WireText>, language: string)
    ensures First(Kept(items, {"Name"}), language, Some("Name")).None?
    ensures First(Kept(items, {"Name"}), language, None).Some? <==>
            exists i :: 0 <= i < |items| && items[i].language == language && items[i].kind != "Name" && items[i].value != ""
    ensures First(Kept(items, {"Name"}), language, None).Some? ==> First(Kept(items, {"Name"}), language, None).value.value != ""
  {
    hide First, Kept;
    var kept := Kept(items, {"Name"});
    FirstListed(kept, language, Some("Name"));
    FirstListed(kept, language, None);
    forall item: WireText
      ensures item in kept <==> item in items && item.value != "" && item.kind != "Name"
    {
      KeptListed(items, {"Name"}, item);
    }
    if i :| 0 <= i < |items| && items[i].language == language && items[i].kind != "Name" && items[i].value != "" {
      assert items[i] in kept;
    }
    if i :| 0 <= i < |kept| && kept[i].language == language {
      assert kept[i] in kept;
    }
  }

  /**
   * The names read back are the proposed ones, language by language, exactly when none of them is
   * empty and no other kind of name stands alone in a language: an empty name is not written, and
   * the reader falls back to other kinds, so a language is not cleared.
   */
  lemma NamesReadBack(changes: Changes, stored: Service, inherited: set<string>)
    requires !changes.names.Absent? && IsText(TextOf(changes.names)) && BodyOf(changes, stored, inherited).Some?
    ensures var after, names := Put(stored, BodyOf(changes, stored, inherited).value).names, TextOf(changes.names);
            (forall language :: ReadIn(after, "Name", language) == Find(names, language))
            <==> AllFilled(names) && forall language :: !StrayName(stored, names, language)
  {
    hide ReadIn, StrayName, NamesBody, ListsBody, ClearedLists, DescriptionsBody, Find;
    var names := TextOf(changes.names);
    TouchedNamesSent(changes, stored);
    FilledExactly(names);
    forall language
      ensures ReadIn(NamesBody(changes, stored).value, "Name", language) == Find(names, language)
              <==> Find(names, language) != Some("") && !StrayName(stored, names, language)
    {
      ReadNameIn(changes, stored, names, language);
    }
  }

  lemma TouchedNamesSent(changes: Changes, stored: Service)
    requires !changes.names.Absent?
    ensures NamesBody(changes, stored).Some?
  {
  }

  /** The text of a language that the other description fields or kinds have, although this field's change has none. */
  predicate StrayDescription(stored: Service, others: seq<WireText>, text: Text, language: string) {
    Value(text, language) == ""
    && (First(Kept(stored.descriptions, {"Summary", "Description"}), language, None).Some? || First(others, language, None).Some?)
  }

  lemma {:induction false} KeptNotOf(items: seq<WireText>, replaced: set<string>, language: string, of: string)
    requires of in replaced
    ensures First(Kept(items, replaced), language, Some(of)).None?
    ensures First(Kept(items, replaced), language, None).Some? ==> First(Kept(items, replaced), language, None).value.value != ""
  {
    if items != [] {
      KeptNotOf(items[1..], replaced, language, of);
      var rest := Kept(items[1..], replaced);
      if Kept(items, replaced) != rest {
        assert ([items[0]] + rest)[1..] == rest;
      }
    }
  }

  lemma {:induction false} OfKindOnly(items: seq<WireText>, kind: string)
    ensures forall i :: 0 <= i < |OfKind(items, kind)| ==> OfKind(items, kind)[i].kind == kind && OfKind(items, kind)[i].value != ""
  {
    if items != [] { OfKindOnly(items[1..], kind); }
  }

  lemma TouchedOnly(change: Change<Text>, items: seq<WireText>, kind: string)
    ensures forall i :: 0 <= i < |TouchedOr(change, items, kind)| ==>
              TouchedOr(change, items, kind)[i].kind == kind && TouchedOr(change, items, kind)[i].value != ""
  {
    OfKindOnly(items, kind);
    FilledItems(TextOf(change));
  }

  lemma {:induction false} NoneOfKind(items: seq<WireText>, kind: string, of: string, language: string)
    requires kind != of && forall i :: 0 <= i < |items| ==> items[i].kind == kind && items[i].value != ""
    ensures First(items, language, Some(of)).None?
    ensures First(items, language, None).Some? ==> First(items, language, None).value.value != ""
  {
    if items != [] { NoneOfKind(items[1..], kind, of, language); }
  }

  lemma FirstWritten(text: Text, of: string, language: string)
    requires IsText(text)
    ensures var first := First(WireList(text, of), language, None);
            && First(WireList(text, of), language, Some(of)) == first
            && (first.Some? <==> Value(text, language) != "")
            && (first.Some? ==> first.value.value == Value(text, language))
  {
    FirstOfWireList(text, of, language);
    assert forall i :: 0 <= i < |WireList(text, of)| ==> WireList(text, of)[i].kind == of;
    SameFirst(WireList(text, of), of, language);
  }

  lemma FirstOfFour(a: seq<WireText>, b: seq<WireText>, c: seq<WireText>, d: seq<WireText>, language: string, kind: Option<string>)
    ensures First(a + b + c + d, language, kind) ==
            if First(a, language, kind).Some? then First(a, language, kind)
            else if First(b, language, kind).Some? then First(b, language, kind)
            else if First(c, language, kind).Some? then First(c, language, kind)
            else First(d, language, kind)
  {
    hide First;
    FirstJoined(a, b, language, kind);
    FirstJoined(a + b, c, language, kind);
    FirstJoined(a + b + c, d, language, kind);
  }

  /** In which languages a summary or description reads as proposed, wherever its entries stand among the others. */
  lemma ReadDescriptionIn(kept: seq<WireText>, before: seq<WireText>, text: Text, after: seq<WireText>, of: string, language: string)
    requires IsText(text)
    requires First(kept, language, Some(of)).None? && First(before, language, Some(of)).None? && First(after, language, Some(of)).None?
    requires First(kept, language, None).Some? ==> First(kept, language, None).value.value != ""
    requires First(before, language, None).Some? ==> First(before, language, None).value.value != ""
    requires First(after, language, None).Some? ==> First(after, language, None).value.value != ""
    ensures ReadIn(kept + before + WireList(text, of) + after, of, language) == Find(text, language)
            <==> && Find(text, language) != Some("")
                 && (Value(text, language) != ""
                     || (First(kept, language, None).None? && First(before, language, None).None? && First(after, language, None).None?))
  {
    hide First, WireList, Value, Find, IsText;
    var written := WireList(text, of);
    FirstWritten(text, of, language);
    FirstOfFour(kept, before, written, after, language, Some(of));
    FirstOfFour(kept, before, written, after, language, None);
    FoundValue(text, language);
  }

  lemma ReadSummaryIn(changes: Changes, stored: Service, summaries: Text, language: string)
    requires !changes.summaries.Absent? && summaries == TextOf(changes.summaries) && IsText(summaries)
    ensures ReadIn(DescriptionsBody(changes, stored).value, "Summary", language) == Find(summaries, language)
            <==> && Find(summaries, language) != Some("")
                 && !StrayDescription(stored, TouchedOr(changes.descriptions, stored.descriptions, "Description"), summaries, language)
  {
    hide Kept, TouchedOr, WireList, Value, Find, ReadIn;
    var kept := Kept(stored.descriptions, {"Summary", "Description"});
    var descriptions := TouchedOr(changes.descriptions, stored.descriptions, "Description");
    KeptNotOf(stored.descriptions, {"Summary", "Description"}, language, "Summary");
    TouchedOnly(changes.descriptions, stored.descriptions, "Description");
    NoneOfKind(descriptions, "Description", "Summary", language);
    TouchedIsWritten(changes.summaries, stored.descriptions, "Summary");
    assert DescriptionsBody(changes, stored).value == kept + [] + WireList(summaries, "Summary") + descriptions by {
      assert kept + [] == kept;
    }
    ReadDescriptionIn(kept, [], summaries, descriptions, "Summary", language);
  }

  lemma TouchedIsWritten(change: Change<Text>, items: seq<WireText>, kind: string)
    requires !change.Absent?
    ensures TouchedOr(change, items, kind) == WireList(TextOf(change), kind)
  {
  }

  lemma ReadTouchedDescriptionIn(changes: Changes, stored: Service, descriptions: Text, language: string)
    requires !changes.descriptions.Absent? && descriptions == TextOf(changes.descriptions) && IsText(descriptions)
    ensures ReadIn(DescriptionsBody(changes, stored).value, "Description", language) == Find(descriptions, language)
            <==> && Find(descriptions, language) != Some("")
                 && !StrayDescription(stored, TouchedOr(changes.summaries, stored.descriptions, "Summary"), descriptions, language)
  {
    hide Kept, TouchedOr, WireList, Value, Find, ReadIn;
    var kept := Kept(stored.descriptions, {"Summary", "Description"});
    var summaries := TouchedOr(changes.summaries, stored.descriptions, "Summary");
    KeptNotOf(stored.descriptions, {"Summary", "Description"}, language, "Description");
    TouchedOnly(changes.summaries, stored.descriptions, "Summary");
    NoneOfKind(summaries, "Summary", "Description", language);
    TouchedIsWritten(changes.descriptions, stored.descriptions, "Description");
    assert DescriptionsBody(changes, stored).value == kept + summaries + WireList(descriptions, "Description") + [] by {
      var all := kept + summaries + WireList(descriptions, "Description");
      assert all + [] == all;
    }
    ReadDescriptionIn(kept, summaries, descriptions, [], "Description", language);
  }

  /** The summaries read back are the proposed ones exactly when none is empty and no other description stands alone in a language. */
  lemma SummariesReadBack(changes: Changes, stored: Service, inherited: set<string>)
    requires !changes.summaries.Absent? && IsText(TextOf(changes.summaries)) && BodyOf(changes, stored, inherited).Some?
    ensures var after, summaries := Put(stored, BodyOf(changes, stored, inherited).value).descriptions, TextOf(changes.summaries);
            (forall language :: ReadIn(after, "Summary", language) == Find(summaries, language))
            <==> && AllFilled(summaries)
                 && forall language :: !StrayDescription(stored, TouchedOr(changes.descriptions, stored.descriptions, "Description"), summaries, language)
  {
    hide ReadIn, StrayDescription, NamesBody, ListsBody, ClearedLists, Find, TouchedOr, Kept;
    var summaries := TextOf(changes.summaries);
    FilledExactly(summaries);
    forall language
      ensures ReadIn(DescriptionsBody(changes, stored).value, "Summary", language) == Find(summaries, language)
              <==> && Find(summaries, language) != Some("")
                   && !StrayDescription(stored, TouchedOr(changes.descriptions, stored.descriptions, "Description"), summaries, language)
    {
      ReadSummaryIn(changes, stored, summaries, language);
    }
  }

  /** The same for descriptions. */
  lemma DescriptionsReadBack(changes: Changes, stored: Service, inherited: set<string>)
    requires !changes.descriptions.Absent? && IsText(TextOf(changes.descriptions)) && BodyOf(changes, stored, inherited).Some?
    ensures var after, descriptions := Put(stored, BodyOf(changes, stored, inherited).value).descriptions, TextOf(changes.descriptions);
            (forall language :: ReadIn(after, "Description", language) == Find(descriptions, language))
            <==> && AllFilled(descriptions)
                 && forall language :: !StrayDescription(stored, TouchedOr(changes.summaries, stored.descriptions, "Summary"), descriptions, language)
  {
    hide ReadIn, StrayDescription, NamesBody, ListsBody, ClearedLists, Find, TouchedOr, Kept;
    var descriptions := TextOf(changes.descriptions);
    FilledExactly(descriptions);
    forall language
      ensures ReadIn(DescriptionsBody(changes, stored).value, "Description", language) == Find(descriptions, language)
              <==> && Find(descriptions, language) != Some("")
                   && !StrayDescription(stored, TouchedOr(changes.summaries, stored.descriptions, "Summary"), descriptions, language)
    {
      ReadTouchedDescriptionIn(changes, stored, descriptions, language);
    }
  }

  // ----- The half of the list that is not touched -----

  /**
   * The half `of` of the list is read the same in a language after the other half was written:
   * - nothing is in the language: nothing is written in it either;
   * - the half has entries of its own in it: the first is not an empty one;
   * - the reader falls back to the language's first entry: that is not empty, and if it is of the
   *   other half, the first entry that is kept, or else the written text, says the same.
   */
  predicate ReadsOn(items: seq<WireText>, of: string, other: string, written: Text, language: string) {
    var own, any := First(items, language, Some(of)), First(items, language, None);
    var kept := First(Kept(items, {"Summary", "Description"}), language, None);
    if any.None? then Value(written, language) == ""
    else if own.Some? then own.value.value != ""
    else
      && any.value.value != ""
      && (any.value.kind == other ==> any.value.value == if kept.Some? then kept.value.value else Value(written, language))
  }

  lemma {:induction false} FirstFilled(items: seq<WireText>, of: string, language: string)
    ensures First(OfKind(items, of), language, None).Some? ==>
              First(items, language, Some(of)).Some? && First(OfKind(items, of), language, None).value.value != ""
    ensures First(items, language, Some(of)).Some? && First(items, language, Some(of)).value.value != "" ==>
              First(OfKind(items, of), language, None) == First(items, language, Some(of))
  {
    if items != [] {
      FirstFilled(items[1..], of, language);
      var rest := OfKind(items[1..], of);
      if OfKind(items, of) != rest {
        assert ([items[0]] + rest)[1..] == rest;
      }
    }
  }

  /** What is kept in a language is there before, and a first entry that is kept stays first. */
  lemma {:induction false} FirstKept(items: seq<WireText>, replaced: set<string>, language: string)
    ensures First(Kept(items, replaced), language, None).Some? ==> First(items, language, None).Some?
    ensures First(items, language, None).Some? && First(items, language, None).value.value != ""
            && First(items, language, None).value.kind !in replaced ==>
              First(Kept(items, replaced), language, None) == First(items, language, None)
  {
    if items != [] {
      FirstKept(items[1..], replaced, language);
      var rest := Kept(items[1..], replaced);
      if Kept(items, replaced) != rest {
        assert ([items[0]] + rest)[1..] == rest;
      }
    }
  }

  lemma {:induction false} FirstOfKind(items: seq<WireText>, of: string, language: string)
    ensures First(items, language, Some(of)).Some? ==> First(items, language, None).Some?
    ensures First(items, language, None).Some? && First(items, language, None).value.kind == of ==>
              First(items, language, Some(of)) == First(items, language, None)
  {
    if items != [] { FirstOfKind(items[1..], of, language); }
  }

  /** The list after the other half was written, before or after this one. */
  lemma UntouchedReads(items: seq<WireText>, of: string, other: string, before: Text, after: Text, language: string)
    requires {of, other} == {"Summary", "Description"} && of != other && IsText(before) && IsText(after) && (before == [] || after == [])
    ensures var written := if before == [] then after else before;
            ReadIn(Kept(items, {"Summary", "Description"}) + WireList(before, other) + OfKind(items, of) + WireList(after, other), of, language)
            == ReadIn(items, of, language)
            <==> ReadsOn(items, of, other, written, language)
  {
    hide First, Kept, OfKind, WireList, Value, IsText;
    var kept, own := Kept(items, {"Summary", "Description"}), OfKind(items, of);
    KeptNotOf(items, {"Summary", "Description"}, language, of);
    FirstFilled(items, of, language);
    FirstKept(items, {"Summary", "Description"}, language);
    FirstOfKind(items, of, language);
    OfKindOnly(items, of);
    SameFirst(own, of, language);
    FirstWritten(before, other, language);
    FirstWritten(after, other, language);
    WireListOnly(before, other);
    WireListOnly(after, other);
    NoneOfKind(WireList(before, other), other, of, language);
    NoneOfKind(WireList(after, other), other, of, language);
    EmptyValue(language);
    FirstOfFour(kept, WireList(before, other), own, WireList(after, other), language, Some(of));
    FirstOfFour(kept, WireList(before, other), own, WireList(after, other), language, None);
    EntryOfNeither(items, of, other, language);
  }

  lemma WireListOnly(text: Text, kind: string)
    ensures forall i :: 0 <= i < |WireList(text, kind)| ==> WireList(text, kind)[i].kind == kind && WireList(text, kind)[i].value != ""
  {
    FilledItems(text);
  }

  /** A first entry that is of neither half is of a kind that is kept. */
  lemma EntryOfNeither(items: seq<WireText>, of: string, other: string, language: string)
    requires {of, other} == {"Summary", "Description"}
    ensures var any := First(items, language, None);
            any.Some? && any.value.kind != of && any.value.kind != other ==> any.value.kind !in {"Summary", "Description"}
  {
    hide First;
    assert "Summary" in {of, other} && "Description" in {of, other};
  }

  lemma EmptyValue(language: string)
    ensures Value([], language) == ""
  {
  }

  /**
   * When only descriptions are touched, the summary of a language reads as before exactly when
   * it reads on: not where it is read from the description that changes.
   */
  lemma UntouchedSummaries(changes: Changes, stored: Service, inherited: set<string>, language: string)
    requires changes.summaries.Absent? && !changes.descriptions.Absent? && IsText(TextOf(changes.descriptions))
    requires BodyOf(changes, stored, inherited).Some?
    ensures var after := Put(stored, BodyOf(changes, stored, inherited).value).descriptions;
            ReadIn(after, "Summary", language) == ReadIn(stored.descriptions, "Summary", language)
            <==> ReadsOn(stored.descriptions, "Summary", "Description", TextOf(changes.descriptions), language)
  {
    hide ReadIn, ReadsOn, Kept, OfKind, ListsBody, ClearedLists, NamesBody, Value;
    var written := TextOf(changes.descriptions);
    var kept, own := Kept(stored.descriptions, {"Summary", "Description"}), OfKind(stored.descriptions, "Summary");
    UntouchedReads(stored.descriptions, "Summary", "Description", [], written, language);
    assert kept + WireList([], "Description") == kept;
    assert DescriptionsBody(changes, stored) == Some(kept + own + WireList(written, "Description"));
  }

  /** The same for the description of a language when only summaries are touched. */
  lemma UntouchedDescriptions(changes: Changes, stored: Service, inherited: set<string>, language: string)
    requires !changes.summaries.Absent? && changes.descriptions.Absent? && IsText(TextOf(changes.summaries))
    requires BodyOf(changes, stored, inherited).Some?
    ensures var after := Put(stored, BodyOf(changes, stored, inherited).value).descriptions;
            ReadIn(after, "Description", language) == ReadIn(stored.descriptions, "Description", language)
            <==> ReadsOn(stored.descriptions, "Description", "Summary", TextOf(changes.summaries), language)
  {
    hide ReadIn, ReadsOn, Kept, OfKind, ListsBody, ClearedLists, NamesBody, Value;
    var written := TextOf(changes.summaries);
    var kept, own := Kept(stored.descriptions, {"Summary", "Description"}), OfKind(stored.descriptions, "Description");
    UntouchedReads(stored.descriptions, "Description", "Summary", written, [], language);
    var all := kept + WireList(written, "Summary") + own;
    assert all + WireList([], "Summary") == all;
    assert DescriptionsBody(changes, stored) == Some(all);
  }

  /** A service without a summary reads its description as one; changing the description then changes the summary that was read. */
  lemma SummaryFollowsDescription(stored: Service, inherited: set<string>, language: string, before: string, after: string)
    requires stored.descriptions == [WireText(language, before, "Description")] && before != after && before != "" && after != ""
    ensures var changes := Changes(Absent, Absent, Absent, Absent, Present([Item(language, after)]), map[], Absent, Absent);
            && BodyOf(changes, stored, inherited).Some?
            && ReadIn(stored.descriptions, "Summary", language) == Some(before)
            && ReadIn(Put(stored, BodyOf(changes, stored, inherited).value).descriptions, "Summary", language) == Some(after)
  {
    hide ListsBody, ClearedLists, NamesBody;
    var changes := Changes(Absent, Absent, Absent, Absent, Present([Item(language, after)]), map[], Absent, Absent);
    var written := WireList([Item(language, after)], "Description");
    assert TextToItems([Item(language, after)]) == [Item(language, after)];
    assert written == [WireText(language, after, "Description")];
    assert stored.descriptions[1..] == [] && Kept([], {"Summary", "Description"}) == [] && OfKind([], "Summary") == [];
    assert DescriptionsBody(changes, stored) == Some([] + [] + written);
    assert [] + [] + written == written;
    OnlyEntryRead(stored.descriptions[0], "Summary");
    OnlyEntryRead(written[0], "Summary");
  }

  lemma OnlyEntryRead(entry: WireText, preferred: string)
    ensures ReadIn([entry], preferred, entry.language) == Some(entry.value)
  {
    assert [entry][1..] == [];
    assert First([], entry.language, Some(preferred)) == None;
  }

  // ----- Classifications -----

  /** What the reviewer saw a list become: the change's entries, or what was there. */
  function IntendedUris(changes: Changes, stored: Service, field: ClassField): seq<Option<string>> {
    if field !in changes.lists then OwnUris(stored.lists(field))
    else match changes.lists[field] case None => [] case Some(entries) => UrisOf(field, entries)
  }

  predicate AllKnown(uris: seq<Option<string>>) {
    forall i :: 0 <= i < |uris| ==> uris[i].Some? && uris[i].value != ""
  }

  lemma OwnUrisAhead(uri: string, rest: seq<string>)
    requires uri != ""
    ensures OwnUris(Entries([uri] + rest)) == [Some(uri)] + OwnUris(Entries(rest))
  {
    assert Truthy(Some(uri)) == Some(uri);
    hide Truthy;
    var both := [uri] + rest;
    var all, tail := OwnUris(Entries(both)), OwnUris(Entries(rest));
    forall i | 0 <= i < |rest|
      ensures all[i + 1] == tail[i]
    {
    }
    hide *;
    Ahead(all, Some(uri), tail);
  }

  lemma Ahead<T>(all: seq<T>, first: T, tail: seq<T>)
    requires |all| == |tail| + 1 && all[0] == first && forall i :: 0 <= i < |tail| ==> all[i + 1] == tail[i]
    ensures all == [first] + tail
  {
  }

  lemma AllKnownAhead(uris: seq<Option<string>>)
    requires uris != []
    ensures AllKnown(uris) <==> uris[0].Some? && uris[0].value != "" && AllKnown(uris[1..])
  {
    assert forall i :: 0 <= i < |uris[1..]| ==> uris[1..][i] == uris[i + 1];
  }

  lemma {:induction false} FewerKnown(uris: seq<Option<string>>)
    ensures |Known(uris)| <= |uris|
  {
    if uris != [] { FewerKnown(uris[1..]); }
  }

  lemma {:induction false} KnownUris(uris: seq<Option<string>>)
    requires forall i :: 0 <= i < |uris| ==> uris[i] != Some("")
    ensures OwnUris(Entries(Known(uris))) == uris <==> AllKnown(uris)
  {
    hide AllKnown;
    if uris == [] {
      assert AllKnown(uris) by { NothingUnknown(uris); }
    } else {
      KnownUris(uris[1..]);
      AllKnownAhead(uris);
      FewerKnown(uris[1..]);
      var rest := Known(uris[1..]);
      assert uris == [uris[0]] + uris[1..];
      if uris[0].Some? {
        OwnUrisAhead(uris[0].value, rest);
        assert ([uris[0]] + OwnUris(Entries(rest)))[1..] == OwnUris(Entries(rest));
      }
    }
  }

  lemma NothingUnknown(uris: seq<Option<string>>)
    requires uris == []
    ensures AllKnown(uris)
  {
  }

  /** What follows the scheme of the industrial classes in a URI of theirs. */
  function ClassOf(uri: string): Option<string> {
    var scheme := "http://www.stat.fi/meta/luokitukset/toimiala/001-2008/";
    if |uri| >= |scheme| && uri[..|scheme|] == scheme then Some(uri[|scheme|..]) else None
  }

  /** The part from..to of the text begins and ends with no space, and all around it is space. */
  ghost predicate Trimmed(text: string, from: int, to: int) {
    && 0 <= from <= to <= |text|
    && (from < to ==> !IsSpace(text[from]) && !IsSpace(text[to - 1]))
    && (forall k :: 0 <= k < from || to <= k < |text| ==> IsSpace(text[k]))
  }

  /** The text without the white space around it. */
  ghost predicate TrimmedTo(text: string, trimmed: string) {
    exists from, to :: Trimmed(text, from, to) && text[from..to] == trimmed
  }

  /** The same of a text within white space. */
  lemma WithinSpace(text: string, from: nat, to: nat, trimmed: string)
    requires from <= to <= |text| && TrimmedTo(text[from..to], trimmed)
    requires forall k :: 0 <= k < from || to <= k < |text| ==> IsSpace(text[k])
    ensures TrimmedTo(text, trimmed)
  {
    hide IsSpace;
    var rest := text[from..to];
    var i, j :| Trimmed(rest, i, j) && rest[i..j] == trimmed;
    Within(text, from, to, i, j);
    forall k | 0 <= k < from + i || from + j <= k < |text|
      ensures IsSpace(text[k])
    {
      if from <= k < to { assert rest[k - from] == text[k]; }
    }
    assert i < j ==> text[from + i] == rest[i] && text[from + j - 1] == rest[j - 1];
    assert Trimmed(text, from + i, from + j);
  }

  lemma Within(text: string, from: nat, to: nat, i: nat, j: nat)
    requires from <= to <= |text| && i <= j <= to - from
    ensures text[from..to][i..j] == text[from + i..from + j]
  {
    hide *;
    assert |text[from..to][i..j]| == |text[from + i..from + j]|;
    assert forall k :: 0 <= k < j - i ==> text[from..to][i..j][k] == text[from + i..from + j][k];
  }

  lemma {:induction false} TrimTrims(text: string)
    ensures TrimmedTo(text, Trim(text))
    decreases |text|
  {
    hide IsSpace, TrimmedTo;
    if text == [] || !(IsSpace(text[0]) || IsSpace(text[|text| - 1])) {
      TrimmedAlready(text);
    } else if IsSpace(text[0]) {
      TrimTrims(text[1..]);
      assert text[1..|text|] == text[1..];
      WithinSpace(text, 1, |text|, Trim(text[1..]));
    } else {
      TrimTrims(text[..|text| - 1]);
      assert text[0..|text| - 1] == text[..|text| - 1];
      WithinSpace(text, 0, |text| - 1, Trim(text[..|text| - 1]));
    }
  }

  lemma TrimmedAlready(text: string)
    requires text != [] ==> !IsSpace(text[0]) && !IsSpace(text[|text| - 1])
    ensures TrimmedTo(text, text)
  {
    hide IsSpace;
    assert Trimmed(text, 0, |text|) && text[0..|text|] == text;
  }

  lemma {:induction false} LastSegmentIsLast(uri: string)
    ensures '/' !in LastSegment(uri) && |LastSegment(uri)| <= |uri|
    ensures var n := |uri| - |LastSegment(uri)|; uri[n..] == LastSegment(uri) && (n > 0 ==> uri[n - 1] == '/')
    decreases |uri|
  {
    if uri == [] || uri[|uri| - 1] == '/' {
      assert uri[|uri|..] == [];
    } else {
      var rest, last := uri[..|uri| - 1], uri[|uri| - 1];
      LastSegmentIsLast(rest);
      var segment := LastSegment(rest);
      hide LastSegment;
      LastSegmentGrown(uri);
      var n := |rest| - |segment|;
      assert uri == rest + [last];
      assert uri[n..] == rest[n..] + [last];
    }
  }

  lemma LastSegmentGrown(uri: string)
    requires uri != [] && uri[|uri| - 1] != '/'
    ensures LastSegment(uri) == LastSegment(uri[..|uri| - 1]) + [uri[|uri| - 1]]
  {
  }

  lemma InScheme(text: string)
    ensures ClassOf(INDUSTRIAL_CLASS_URI_PREFIX + text) == Some(text)
  {
  }

  /**
   * An industrial class is written as a URI of its scheme: that of its code, unless the code is a URI
   * already; without a code the URI it has if that is one, or else the one for the URI's last segment.
   * What was written is written the same again.
   */
  lemma IndustrialClassWritten(entry: CodeListEntry, code: string)
    requires if entry.code.Some? then TrimmedTo(entry.code.value, code) else code == ""
    ensures var uri := IndustrialClassUri(entry);
            if code != "" then
              if |code| >= 4 && code[..4] == "http" then uri == Some(code) else uri.Some? && ClassOf(uri.value) == Some(code)
            else if entry.uri.Some? && ClassOf(entry.uri.value).Some? then uri == entry.uri
            else if entry.uri.Some? && LastSegment(entry.uri.value) != "" then
              uri.Some? && ClassOf(uri.value) == Some(LastSegment(entry.uri.value))
            else uri.None?
    ensures var uri := IndustrialClassUri(entry);
            uri.Some? && ClassOf(uri.value).Some? ==> IndustrialClassUri(CodeListEntry(None, uri)) == uri
  {
    hide Trim, LastSegment, IsSpace, TrimmedTo;
    if entry.code.Some? {
      TrimTrims(entry.code.value);
      TrimmedOnce(entry.code.value, code, Trim(entry.code.value));
    }
    InScheme(code);
    if entry.uri.Some? { InScheme(LastSegment(entry.uri.value)); }
  }

  lemma Inside(text: string, i: nat, from: nat, to: nat)
    requires Trimmed(text, from, to) && i < |text| && !IsSpace(text[i])
    ensures from <= i < to
  {
    hide IsSpace;
  }

  lemma TrimmedOnce(text: string, a: string, b: string)
    requires TrimmedTo(text, a) && TrimmedTo(text, b)
    ensures a == b
  {
    hide IsSpace;
    var i, j :| Trimmed(text, i, j) && text[i..j] == a;
    var m, n :| Trimmed(text, m, n) && text[m..n] == b;
    if i < j {
      Inside(text, i, m, n);
      Inside(text, j - 1, m, n);
    }
    if m < n {
      Inside(text, m, i, j);
      Inside(text, n - 1, i, j);
    }
  }

  lemma IndustrialUriNotEmpty(entry: CodeListEntry)
    ensures IndustrialClassUri(entry) != Some("")
  {
  }

  lemma UrisNotEmpty(field: ClassField, entries: seq<CodeListEntry>)
    ensures forall i :: 0 <= i < |entries| ==> UrisOf(field, entries)[i] != Some("") && OwnUris(entries)[i] != Some("")
  {
    hide IndustrialClassUri;
    forall i | 0 <= i < |entries|
      ensures UrisOf(field, entries)[i] != Some("")
    {
      IndustrialUriNotEmpty(entries[i]);
    }
  }

  /** Whether a list is sent although the change leaves it alone. */
  predicate Resent(changes: Changes, stored: Service, field: ClassField) {
    field !in changes.lists && field in REQUIRED_WITHOUT_GENERAL_DESCRIPTION && !KeepsGeneralDescription(changes, stored)
  }

  lemma ListAfterPut(changes: Changes, stored: Service, field: ClassField)
    requires BodyOf(changes, stored, {}).Some?
    ensures ListAfter(stored, BodyOf(changes, stored, {}).value, field) ==
            if field in changes.lists && changes.lists[field].Some? then Entries(Known(UrisOf(field, changes.lists[field].value)))
            else if Resent(changes, stored, field) then Entries(Known(OwnUris(stored.lists(field))))
            else stored.lists(field)
  {
    hide Known, UriOf, NamesBody, DescriptionsBody, KeepsGeneralDescription, OwnUris, UrisOf;
    if SendsDeleteFlag(changes, field) {
      NothingKnown(field);
    }
  }

  /**
   * Without inherited entries, a list holds after the PUT what the reviewer saw exactly
   * when: every entry that is sent has a URI, and a list touched without a value was empty.
   */
  lemma ListsAfterPut(changes: Changes, stored: Service, field: ClassField)
    requires BodyOf(changes, stored, {}).Some?
    ensures OwnUris(Put(stored, BodyOf(changes, stored, {}).value).lists(field)) == IntendedUris(changes, stored, field)
            <==> if field in changes.lists && changes.lists[field].None? then stored.lists(field) == []
                 else if field in changes.lists || Resent(changes, stored, field) then AllKnown(IntendedUris(changes, stored, field))
                 else true
  {
    hide Known, UriOf, NamesBody, DescriptionsBody, KeepsGeneralDescription, ListAfter, BodyOf;
    ListAfterPut(changes, stored, field);
    if field in changes.lists && changes.lists[field].Some? {
      UrisNotEmpty(field, changes.lists[field].value);
      KnownUris(UrisOf(field, changes.lists[field].value));
    } else if Resent(changes, stored, field) {
      UrisNotEmpty(field, stored.lists(field));
      KnownUris(OwnUris(stored.lists(field)));
    }
  }

  /** What stands for an entry in the API: an industrial class's URI as it is built, any other entry's own. */
  predicate StandsFor(field: ClassField, entry: CodeListEntry, uri: Option<string>) {
    match field
    case IndustrialClasses => uri == IndustrialClassUri(entry)
    case ServiceClasses => uri == Truthy(entry.uri)
    case OntologyTerms => uri == Truthy(entry.uri)
    case TargetGroups => uri == Truthy(entry.uri)
    case LifeEvents => uri == Truthy(entry.uri)
  }

  /** A list a change gives a value holds after the PUT, in order, what stands for its entries; those nothing stands for are left out. */
  lemma ListWritten(changes: Changes, stored: Service, field: ClassField, uris: seq<Option<string>>)
    requires BodyOf(changes, stored, {}).Some? && field in changes.lists && changes.lists[field].Some?
    requires |uris| == |changes.lists[field].value|
    requires forall i :: 0 <= i < |uris| ==> StandsFor(field, changes.lists[field].value[i], uris[i])
    ensures Put(stored, BodyOf(changes, stored, {}).value).lists(field) == Entries(Known(uris))
  {
    hide Known, BodyOf, ListAfter, IndustrialClassUri;
    ListAfterPut(changes, stored, field);
    assert UrisOf(field, changes.lists[field].value) == uris;
  }

  function SetOf(uris: seq<string>): set<string> {
    set u | u in uris
  }

  lemma {:induction false} WithoutListed(uris: seq<string>, inherited: set<string>, uri: string)
    ensures uri in Without(uris, inherited) <==> uri in uris && uri !in inherited
  {
    if uris != [] {
      WithoutListed(uris[1..], inherited, uri);
      assert uris == [uris[0]] + uris[1..];
    }
  }

  /**
   * PTV's read adds what the general description brings. Leaving inherited entries out
   * is invisible there, and keeps them from becoming the service's own whenever the
   * service has an entry of its own.
   */
  lemma FilteringIsInvisible(uris: seq<string>, inherited: set<string>)
    ensures SetOf(Filtered(uris, inherited)) + inherited == SetOf(uris) + inherited
    ensures SetOf(uris) <= inherited || SetOf(Filtered(uris, inherited)) == SetOf(uris) - inherited
    ensures Filtered(uris, inherited) == [] ==> uris == []
  {
    forall uri
      ensures uri in Without(uris, inherited) <==> uri in uris && uri !in inherited
    {
      WithoutListed(uris, inherited, uri);
    }
    if !(SetOf(uris) <= inherited) {
      var uri :| uri in SetOf(uris) && uri !in inherited;
      assert uri in Without(uris, inherited);
    }
  }

  function UriSet(entries: seq<CodeListEntry>): set<string> {
    set e | e in entries && e.uri.Some? :: e.uri.value
  }

  lemma EntriesSet(uris: seq<string>)
    ensures UriSet(Entries(uris)) == SetOf(uris)
  {
    forall i | 0 <= i < |uris|
      ensures uris[i] in UriSet(Entries(uris))
    {
      assert Entries(uris)[i] in Entries(uris);
    }
  }

  /** With the general description kept, what is read of a touched list is the change and what is inherited. */
  lemma TouchedListReadBack(changes: Changes, current: Service, stored: Service, inherited: set<string>, field: ClassField)
    requires BodyOf(changes, current, inherited).Some?
    requires field in changes.lists && changes.lists[field].Some?
    ensures UriSet(Put(stored, BodyOf(changes, current, inherited).value).lists(field)) + inherited
            == SetOf(Known(UrisOf(field, changes.lists[field].value))) + inherited
  {
    SentOrCleared(changes, current, stored, inherited, field);
    hide Known, UriOf, UrisOf, BodyOf, ListAfter, Filtered, Without, UriSet, SetOf, Entries;
    var uris := Known(UrisOf(field, changes.lists[field].value));
    FilteringIsInvisible(uris, inherited);
    EntriesSet(Filtered(uris, inherited));
  }

  lemma SentOrCleared(changes: Changes, current: Service, stored: Service, inherited: set<string>, field: ClassField)
    requires BodyOf(changes, current, inherited).Some?
    requires field in changes.lists && changes.lists[field].Some?
    ensures ListAfter(stored, BodyOf(changes, current, inherited).value, field)
            == Entries(Filtered(Known(UrisOf(field, changes.lists[field].value)), inherited))
  {
    hide Known, UriOf, NamesBody, DescriptionsBody, KeepsGeneralDescription, OwnUris, UrisOf, Without;
    if SendsDeleteFlag(changes, field) {
      NothingKnown(field);
      assert Filtered([], inherited) == [] by { NothingFiltered(inherited); }
    }
  }

  lemma NothingFiltered(inherited: set<string>)
    ensures Filtered([], inherited) == []
  {
  }

  // ----- The rest of the service, and what PTV requires -----

  /** toPublishingStatus; None: it throws. */
  function ReadStatus(status: WireStatus): Option<Status> {
    match status
    case WireDeleted => Some(Archived)
    case WireDraft => Some(Draft) case WirePublished => Some(Published) case WireModified => Some(Modified)
    case WireArchived => Some(Archived) case WireWithdrawn => Some(Withdrawn)
    case WireUnknown => None
  }

  /**
   * A change can ask for the statuses Draft, Published and Archived; the service is then read with
   * the one asked for, and with its own when the change has none. What is sent for it is a status PTV takes.
   */
  lemma StatusReadBack(changes: Changes, stored: Service, inherited: set<string>)
    ensures BodyOf(changes, stored, inherited).Some?
            <==> changes.publishingStatus.Present? ==> changes.publishingStatus.value in {Draft, Published, Archived}
    ensures BodyOf(changes, stored, inherited).Some? ==>
              ReadStatus(Put(stored, BodyOf(changes, stored, inherited).value).publishingStatus)
              == if changes.publishingStatus.Present? then Some(changes.publishingStatus.value) else ReadStatus(stored.publishingStatus)
    ensures changes.publishingStatus.Present? && BodyOf(changes, stored, inherited).Some? ==>
              BodyOf(changes, stored, inherited).value.publishingStatus in {Some(WireDraft), Some(WirePublished), Some(WireDeleted)}
  {
    hide NamesBody, DescriptionsBody, ListsBody, ClearedLists;
  }

  /** Type, status, languages and general description become what the change says; without a key they stay. */
  lemma OtherFieldsAfterPut(changes: Changes, stored: Service, inherited: set<string>)
    requires BodyOf(changes, stored, inherited).Some?
    ensures var after := Put(stored, BodyOf(changes, stored, inherited).value);
            && after.serviceType == (if changes.serviceType.Present? && changes.serviceType.value != "" then changes.serviceType.value
                                     else stored.serviceType)
            && (if changes.publishingStatus.Present? then ReadStatus(after.publishingStatus) == Some(changes.publishingStatus.value)
                else after.publishingStatus == stored.publishingStatus)
            && after.languages == (match changes.languages case Absent => stored.languages case Undefined => [] case Present(l) => l)
            && Truthy(after.generalDescriptionId) == (match changes.generalDescriptionId
                                                      case Absent => Truthy(stored.generalDescriptionId)
                                                      case Undefined => None case Present(id) => Truthy(Some(id)))
  {
    hide NamesBody, DescriptionsBody, ListsBody, ClearedLists;
  }

  /**
   * PTV's conditions on a PUT are met exactly when no required list is touched without a
   * value: the status is always sent, the type whenever the general description is
   * cleared, and the three lists whenever the service ends up without one.
   */
  ghost predicate Acceptable(changes: Changes, stored: Service, body: Body) {
    && body.publishingStatus.Some?
    && (body.deleteGeneralDescription ==> body.serviceType.Some?)
    && (Truthy(Put(stored, body).generalDescriptionId).None? ==>
          ServiceClasses in body.lists && OntologyTerms in body.lists && TargetGroups in body.lists)
  }

  lemma RequiredSent(changes: Changes, stored: Service, inherited: set<string>, field: ClassField)
    requires field in {ServiceClasses, OntologyTerms, TargetGroups}
    ensures field in ListsBody(changes, stored, inherited)
            <==> if field in changes.lists then changes.lists[field].Some? else !KeepsGeneralDescription(changes, stored)
  {
    hide Known, UrisOf, OwnUris, Filtered, KeepsGeneralDescription;
  }

  lemma BodyIsAcceptable(changes: Changes, stored: Service, inherited: set<string>)
    requires BodyOf(changes, stored, inherited).Some?
    ensures Acceptable(changes, stored, BodyOf(changes, stored, inherited).value)
            <==> KeepsGeneralDescription(changes, stored)
                 || forall field :: field in {ServiceClasses, OntologyTerms, TargetGroups} && field in changes.lists ==> changes.lists[field].Some?
  {
    hide NamesBody, DescriptionsBody, ListsBody, ClearedLists;
    OtherFieldsAfterPut(changes, stored, inherited);
    RequiredSent(changes, stored, inherited, ServiceClasses);
    RequiredSent(changes, stored, inherited, OntologyTerms);
    RequiredSent(changes, stored, inherited, TargetGroups);
  }

  /** What the change does not touch is not sent, but for what PTV requires: the status, the type of a service that loses its general description, and the required lists. */
  lemma OnlyTouchedSent(changes: Changes, current: Service, inherited: set<string>)
    requires BodyOf(changes, current, inherited).Some?
    ensures var body := BodyOf(changes, current, inherited).value;
            && (body.serviceType.Some? <==> (changes.serviceType.Present? && changes.serviceType.value != "") || body.deleteGeneralDescription)
            && (body.names.Some? <==> !changes.names.Absent?)
            && (body.descriptions.Some? <==> !changes.summaries.Absent? || !changes.descriptions.Absent?)
            && (body.languages.Some? <==> !changes.languages.Absent?)
            && (body.generalDescriptionId.Some? || body.deleteGeneralDescription <==> !changes.generalDescriptionId.Absent?)
            && (forall field :: field in body.lists ==>
                  field in changes.lists || (field in {ServiceClasses, OntologyTerms, TargetGroups} && !KeepsGeneralDescription(changes, current)))
  {
    hide Known, UrisOf, OwnUris, Filtered, Kept, WireList, TouchedOr;
  }

  /** No field is both sent and cleared, and the lists that have a delete flag are cleared by it exactly when the change empties them. */
  lemma NeverBoth(changes: Changes, current: Service, inherited: set<string>)
    requires BodyOf(changes, current, inherited).Some?
    ensures var body := BodyOf(changes, current, inherited).value;
            && (forall field :: field in body.deleteLists ==> field !in body.lists)
            && (forall field :: field in body.deleteLists <==>
                  field in {LifeEvents, IndustrialClasses} && field in changes.lists && changes.lists[field] == Some([]))
            && (body.deleteGeneralDescription ==> body.generalDescriptionId.None?)
  {
    hide NamesBody, DescriptionsBody, Known, UrisOf, OwnUris, Filtered;
  }
}

/**
 * Connecting a service to channels and changing a connection's extra info
 * (src/ptv/v11/connectionWrite.ts:25-85, src/ptv/v11/connectionDetails.ts:47-152, and the
 * phone, link and address conversions of src/ptv/v11/channelFields.ts:138-330).
 * PTV's connection PUT replaces the service's connections with the listed ones and keeps
 * of each only what is sent. GET and PUT differ in the numbers: GET lists faxes and text
 * message numbers among the phone numbers, with a type; the PUT takes faxes in a list of
 * their own and its phone numbers have no type. A street's municipality is not sent; PTV
 * tells it from the postal code. One rule says what a PUT leaves, whether
 * the contact details were built from a change or resent as they were read.
 */
module Connections {
  import opened Wrappers
  import opened LanguageText
  import opened ServiceHours

  type Id = string

  // ----- Domain form -----

  datatype Charge = Chargeable | FreeOfCharge | OtherCharge

  datatype PhoneType = Phone | Sms | Fax

  datatype PhoneNumber = PhoneNumber(
    language: string, phoneType: Option<PhoneType>, prefixNumber: Option<string>, number: string,
    isFinnishServiceNumber: Option<bool>, additionalInformation: Option<string>,
    chargeType: Option<Charge>, chargeDescription: Option<string>)

  datatype WebLink = WebLink(language: string, url: string, name: Option<string>)

  datatype AddressKind = Street | Other | Foreign | PostOfficeBox | NoAddress

  datatype Purpose = Visiting | Postal

  datatype Address = Address(
    kind: AddressKind, purpose: Option<Purpose>, street: Option<Text>, streetNumber: Option<string>,
    postalCode: Option<string>, municipality: Option<string>, postOfficeBox: Option<Text>,
    latitude: Option<string>, longitude: Option<string>, additionalInformation: Option<Text>,
    text: Option<Text>, receiver: Option<Text>)

  /** A connection's extra info; every field is optional. */
  datatype Details = Details(
    chargeType: Option<Charge>, descriptions: Option<Text>, chargeDescriptions: Option<Text>,
    serviceHours: Option<seq<ServiceHour>>, emails: Option<seq<Item>>, phoneNumbers: Option<seq<PhoneNumber>>,
    webPages: Option<seq<WebLink>>, addresses: Option<seq<Address>>)

  // ----- Wire form -----

  datatype WireText = WireText(language: string, value: string, kind: string)

  datatype WirePhone = WirePhone(
    number: string, language: string, prefixNumber: Option<string>, isFinnishServiceNumber: bool,
    additionalInformation: Option<string>, serviceChargeType: Option<string>, chargeDescription: Option<string>,
    phoneType: Option<string>)

  datatype WireWebPage = WireWebPage(url: string, value: Option<string>, language: string)

  datatype WireStreet = WireStreet(
    street: seq<Item>, streetNumber: Option<string>, postalCode: Option<string>, municipality: Option<string>,
    latitude: Option<string>, longitude: Option<string>, additionalInformation: seq<Item>)

  datatype WireBox = WireBox(postOfficeBox: seq<Item>, postalCode: Option<string>, additionalInformation: seq<Item>)

  datatype WireAddress = WireAddress(
    kind: string, subType: string, streetAddress: Option<WireStreet>, postOfficeBoxAddress: Option<WireBox>,
    locationAbroad: Option<seq<Item>>,
    otherAddress: Option<WireStreet>, foreignAddress: Option<seq<Item>>)  // only read

  datatype Contact = Contact(
    emails: seq<Item>, phoneNumbers: seq<WirePhone>, webPages: seq<WireWebPage>, addresses: seq<WireAddress>)

  /** A connection's extra info as read. */
  datatype Info = Info(
    serviceChargeType: Option<string>, description: seq<WireText>, serviceHours: seq<WireHour>, contactDetails: Option<Contact>)

  const NO_INFO := Info(None, [], [], None)
  const NO_CONTACT := Contact([], [], [], [])

  datatype Relation = Relation(channel: Id, info: Info)

  /** The contact details as they are sent: lists and delete flags. */
  datatype ContactBody = ContactBody(
    emails: Option<seq<Item>>, deleteAllEmails: bool,
    phoneNumbers: Option<seq<WirePhone>>, deleteAllPhones: bool,
    faxNumbers: Option<seq<WirePhone>>, deleteAllFaxNumbers: bool,
    webPages: Option<seq<WireWebPage>>, deleteAllWebPages: bool,
    addresses: Option<seq<WireAddress>>, deleteAllAddresses: bool)

  datatype RelationBody = RelationBody(
    channel: Id,
    serviceChargeType: Option<string>, deleteServiceChargeType: bool,
    description: Option<seq<WireText>>, deleteAllDescriptions: bool,
    serviceHours: Option<seq<WireHour>>, deleteAllServiceHours: bool,
    contactDetails: Option<ContactBody>)

  datatype ConnectionsBody = ConnectionsBody(deleteAllChannelRelations: bool, channelRelations: seq<RelationBody>)

  // ----- PTV's connection PUT -----

  /** PTV's register of places: the municipality of a postal code. */
  type Places = Option<string> -> Option<string>

  function PlacedAddress(places: Places, address: WireAddress): WireAddress {
    if address.streetAddress.None? then address
    else
      var street := address.streetAddress.value;
      address.(streetAddress := Some(street.(municipality := places(street.postalCode))))
  }

  function PlacedAddresses(places: Places, addresses: seq<WireAddress>): (r: seq<WireAddress>)
    ensures |r| == |addresses| && forall i :: 0 <= i < |r| ==> r[i] == PlacedAddress(places, addresses[i])
  {
    seq(|addresses|, i requires 0 <= i < |addresses| => PlacedAddress(places, addresses[i]))
  }

  function OrEmpty<T>(sent: Option<seq<T>>): seq<T> {
    if sent.Some? then sent.value else []
  }

  function TypedPhones(phones: seq<WirePhone>, phoneType: string): (r: seq<WirePhone>)
    ensures |r| == |phones| && forall i :: 0 <= i < |r| ==> r[i] == phones[i].(phoneType := Some(phoneType))
  {
    seq(|phones|, i requires 0 <= i < |phones| => phones[i].(phoneType := Some(phoneType)))
  }

  /** Phone numbers have no type in the PUT, so a type that is sent along is lost. */
  function ContactAfter(places: Places, b: ContactBody): Contact {
    Contact(OrEmpty(b.emails), TypedPhones(OrEmpty(b.phoneNumbers), "Phone") + TypedPhones(OrEmpty(b.faxNumbers), "Fax"),
            OrEmpty(b.webPages), PlacedAddresses(places, OrEmpty(b.addresses)))
  }

  function RelationAfter(places: Places, body: RelationBody): Relation {
    Relation(body.channel, Info(body.serviceChargeType, OrEmpty(body.description), OrEmpty(body.serviceHours),
                                if body.contactDetails.Some? then Some(ContactAfter(places, body.contactDetails.value)) else None))
  }

  /** The listed connections replace the service's, whatever they were. */
  function Put(places: Places, body: ConnectionsBody): (r: seq<Relation>)
    ensures |r| == |body.channelRelations| && forall i :: 0 <= i < |r| ==> r[i] == RelationAfter(places, body.channelRelations[i])
  {
    seq(|body.channelRelations|, i requires 0 <= i < |body.channelRelations| => RelationAfter(places, body.channelRelations[i]))
  }

  // ----- Which channels are connected -----

  function Channels(relations: seq<Relation>): (r: seq<Id>)
    ensures |r| == |relations| && forall i :: 0 <= i < |r| ==> r[i] == relations[i].channel
  {
    seq(|relations|, i requires 0 <= i < |relations| => relations[i].channel)
  }

  function SetOf(ids: seq<Id>): set<Id> {
    set id | id in ids
  }

  function Filled(items: seq<WireText>): seq<WireText> {
    if items == [] then [] else (if items[0].value != "" then [items[0]] else []) + Filled(items[1..])
  }

  function Truthy(text: Option<string>): Option<string> {
    if text == Some("") then None else text
  }

  function ListOrNone<T>(list: seq<T>): Option<seq<T>> {
    if list == [] then None else Some(list)
  }

  /** Contact details sent as they were read: no list of faxes, no delete flags. */
  function Resent(contact: Contact): ContactBody {
    ContactBody(Some(contact.emails), false, Some(contact.phoneNumbers), false, None, false,
                Some(contact.webPages), false, Some(contact.addresses), false)
  }

  /** relationToWrite: a kept connection with its extra info, empty texts left out. */
  function RelationToWrite(relation: Relation): RelationBody {
    RelationBody(relation.channel, Truthy(relation.info.serviceChargeType), false,
                 ListOrNone(Filled(relation.info.description)), false,
                 ListOrNone(relation.info.serviceHours), false,
                 if relation.info.contactDetails.Some? then Some(Resent(relation.info.contactDetails.value)) else None)
  }

  /** A Map by channel: the last relation of a channel. */
  function ById(relations: seq<Relation>, id: Id): Option<Relation>
    decreases |relations|
  {
    if relations == [] then None
    else if relations[|relations| - 1].channel == id then Some(relations[|relations| - 1])
    else ById(relations[..|relations| - 1], id)
  }

  function DesiredRelation(relations: seq<Relation>, id: Id): RelationBody {
    match ById(relations, id)
    case Some(relation) => RelationToWrite(relation)
    case None => RelationBody(id, None, false, None, false, None, false, None)
  }

  /** None: nothing changes. */
  function PlanServiceConnections(relations: seq<Relation>, desiredChannelIds: seq<Id>): Option<ConnectionsBody> {
    var current := SetOf(Channels(relations));
    var desired := Dedup(desiredChannelIds);
    if |desired| == |current| && (forall i :: 0 <= i < |desired| ==> desired[i] in current) then None
    else if desired == [] then Some(ConnectionsBody(true, []))
    else Some(ConnectionsBody(false, seq(|desired|, i requires 0 <= i < |desired| => DesiredRelation(relations, desired[i]))))
  }

  /** The extra info without its empty texts. */
  function WithoutEmptyTexts(info: Info): Info {
    info.(serviceChargeType := Truthy(info.serviceChargeType), description := Filled(info.description))
  }

  /** What is left of extra info that is resent as it was read: every number is now an ordinary one. */
  function ResentInfo(places: Places, info: Info): Info {
    if info.contactDetails.None? then WithoutEmptyTexts(info)
    else
      var contact := info.contactDetails.value;
      WithoutEmptyTexts(info).(contactDetails := Some(contact.(phoneNumbers := TypedPhones(contact.phoneNumbers, "Phone"),
                                                               addresses := PlacedAddresses(places, contact.addresses))))
  }

  function NumbersOf(info: Info): seq<WirePhone> {
    if info.contactDetails.Some? then info.contactDetails.value.phoneNumbers else []
  }

  function AddressesOf(info: Info): seq<WireAddress> {
    if info.contactDetails.Some? then info.contactDetails.value.addresses else []
  }

  /** The addresses' municipalities are PTV's own, as in everything it stores. */
  predicate Placed(places: Places, info: Info) {
    PlacedAddresses(places, AddressesOf(info)) == AddressesOf(info)
  }

  /** There are no faxes or text message numbers among the numbers. */
  predicate OnlyPhones(info: Info) {
    forall i :: 0 <= i < |NumbersOf(info)| ==> NumbersOf(info)[i].phoneType == Some("Phone")
  }

  /** What a desired channel's connection holds after the PUT: what is left of its extra info, if it had any. */
  function InfoLeft(places: Places, relations: seq<Relation>, id: Id): Info {
    match ById(relations, id) case Some(relation) => ResentInfo(places, relation.info) case None => NO_INFO
  }

  /** A connection that is resent keeps its extra info, empty texts apart, exactly when all its numbers are ordinary ones and its municipalities PTV's own. */
  lemma KeptRelation(places: Places, relation: Relation)
    ensures var after := RelationAfter(places, RelationToWrite(relation));
            && after.channel == relation.channel && after.info == ResentInfo(places, relation.info)
            && (after.info == WithoutEmptyTexts(relation.info) <==> OnlyPhones(relation.info) && Placed(places, relation.info))
  {
    var typed := TypedPhones(NumbersOf(relation.info), "Phone");
    assert typed + TypedPhones([], "Fax") == typed;
    if OnlyPhones(relation.info) {
      assert typed == NumbersOf(relation.info);
    }
    if typed == NumbersOf(relation.info) {
      assert forall i :: 0 <= i < |typed| ==> typed[i].phoneType == Some("Phone");
    }
  }

  lemma {:induction false} ByIdFinds(relations: seq<Relation>, id: Id)
    ensures ById(relations, id).Some? <==> id in Channels(relations)
    ensures ById(relations, id).Some? ==> ById(relations, id).value in relations && ById(relations, id).value.channel == id
    decreases |relations|
  {
    if relations != [] {
      var n := |relations| - 1;
      ByIdFinds(relations[..n], id);
      assert relations == relations[..n] + [relations[n]];
      assert Channels(relations) == Channels(relations[..n]) + [relations[n].channel];
    }
  }

  lemma {:induction false} DistinctSize(ids: seq<Id>)
    requires forall i, j :: 0 <= i < j < |ids| ==> ids[i] != ids[j]
    ensures |SetOf(ids)| == |ids|
    decreases |ids|
  {
    if ids != [] {
      var n := |ids| - 1;
      DistinctSize(ids[..n]);
      assert ids == ids[..n] + [ids[n]];
      assert SetOf(ids) == SetOf(ids[..n]) + {ids[n]};
    }
  }

  lemma SameSize(a: set<Id>, b: set<Id>)
    requires a <= b && |a| == |b|
    ensures a == b
  {
    assert b == a + (b - a) && |b| == |a| + |b - a|;
  }

  /** No plan is made exactly when the service is already connected to the desired channels. */
  lemma PlansOnlyChanges(relations: seq<Relation>, desired: seq<Id>)
    ensures PlanServiceConnections(relations, desired).None? <==> SetOf(Channels(relations)) == SetOf(desired)
  {
    hide Dedup;
    var distinct := Dedup(desired);
    DistinctSize(distinct);
    assert SetOf(distinct) == SetOf(desired);
    if PlanServiceConnections(relations, desired).None? {
      assert SetOf(distinct) <= SetOf(Channels(relations));
      SameSize(SetOf(distinct), SetOf(Channels(relations)));
    }
  }

  /**
   * After the planned PUT the service is connected to exactly the desired channels, in the
   * order asked for, each once. A new one has no extra info; one that stays keeps its own,
   * empty texts apart, exactly when all its numbers are ordinary ones and its municipalities PTV's own.
   */
  lemma ConnectsDesired(places: Places, relations: seq<Relation>, desired: seq<Id>)
    requires PlanServiceConnections(relations, desired).Some?
    ensures var after := Put(places, PlanServiceConnections(relations, desired).value);
            && Channels(after) == Dedup(desired)
            && (PlanServiceConnections(relations, desired).value.deleteAllChannelRelations <==> desired == [])
            && forall i :: 0 <= i < |after| ==>
                 && after[i].info == InfoLeft(places, relations, after[i].channel)
                 && (after[i].channel in Channels(relations) <==> ById(relations, after[i].channel).Some?)
                 && match ById(relations, after[i].channel)
                    case Some(before) =>
                      after[i].info == WithoutEmptyTexts(before.info) <==> OnlyPhones(before.info) && Placed(places, before.info)
                    case None => after[i].info == NO_INFO
  {
    assert Dedup(desired) == [] <==> desired == [] by {
      if desired != [] { assert desired[0] in Dedup(desired); }
    }
    hide Dedup, ResentInfo, WithoutEmptyTexts, OnlyPhones, Placed, ById;
    var after := Put(places, PlanServiceConnections(relations, desired).value);
    forall i | 0 <= i < |after|
      ensures after[i].channel == Dedup(desired)[i]
      ensures after[i].info == InfoLeft(places, relations, after[i].channel)
      ensures after[i].channel in Channels(relations) <==> ById(relations, after[i].channel).Some?
      ensures match ById(relations, after[i].channel)
              case Some(before) =>
                after[i].info == WithoutEmptyTexts(before.info) <==> OnlyPhones(before.info) && Placed(places, before.info)
              case None => after[i].info == NO_INFO
    {
      var id := Dedup(desired)[i];
      ByIdFinds(relations, id);
      if ById(relations, id).Some? { KeptRelation(places, ById(relations, id).value); }
    }
  }

  /** All connections are cleared exactly when none is listed, and of the listed ones nothing is. */
  lemma ConnectingClearsNothing(relations: seq<Relation>, desired: seq<Id>)
    requires PlanServiceConnections(relations, desired).Some?
    ensures var body := PlanServiceConnections(relations, desired).value;
            && (body.deleteAllChannelRelations <==> body.channelRelations == [])
            && forall i :: 0 <= i < |body.channelRelations| ==> ClearsNothing(body.channelRelations[i])
  {
    hide Filled, Dedup, ById;
  }

  /** Planning again after the PUT finds nothing to do. */
  lemma PlanOnce(places: Places, relations: seq<Relation>, desired: seq<Id>)
    requires PlanServiceConnections(relations, desired).Some?
    ensures PlanServiceConnections(Put(places, PlanServiceConnections(relations, desired).value), desired).None?
  {
    hide PlanServiceConnections, Dedup;
    ConnectsDesired(places, relations, desired);
    var after := Put(places, PlanServiceConnections(relations, desired).value);
    assert SetOf(Channels(after)) == SetOf(Dedup(desired)) == SetOf(desired);
    PlansOnlyChanges(after, desired);
  }

  // ----- Phone numbers -----

  function ChargeName(charge: Charge): string {
    match charge case Chargeable => "Chargeable" case FreeOfCharge => "FreeOfCharge" case OtherCharge => "Other"
  }

  /** v11 charge types, with the names PTV still returns on old data. */
  function ReadCharge(name: Option<string>): Option<Charge> {
    if name == Some("Chargeable") || name == Some("Charged") then Some(Chargeable)
    else if name == Some("FreeOfCharge") || name == Some("Free") then Some(FreeOfCharge)
    else if name == Some("Other") then Some(OtherCharge)
    else None
  }

  function PhoneToDomain(wire: WirePhone): PhoneNumber {
    PhoneNumber(wire.language,
                if wire.phoneType == Some("Sms") then Some(Sms) else if wire.phoneType == Some("Fax") then Some(Fax)
                else if Truthy(wire.phoneType).Some? then Some(Phone) else None,
                Truthy(wire.prefixNumber), wire.number, if wire.isFinnishServiceNumber then Some(true) else None,
                Truthy(wire.additionalInformation), ReadCharge(wire.serviceChargeType), Truthy(wire.chargeDescription))
  }

  function PrefixToWire(phone: PhoneNumber): Option<string> {
    if phone.isFinnishServiceNumber == Some(true) then None
    else if phone.prefixNumber.Some? then phone.prefixNumber else Some("+358")
  }

  function PhoneToWire(phone: PhoneNumber): WirePhone {
    WirePhone(phone.number, phone.language, PrefixToWire(phone), phone.isFinnishServiceNumber == Some(true),
              Truthy(phone.additionalInformation),
              Some(ChargeName(if phone.chargeType.Some? then phone.chargeType.value else Chargeable)),
              Truthy(phone.chargeDescription), None)
  }

  function FaxToWire(phone: PhoneNumber): WirePhone {
    WirePhone(phone.number, phone.language, PrefixToWire(phone), phone.isFinnishServiceNumber == Some(true), None, None, None, None)
  }

  /** How a phone number of a connection reads back. */
  function PhoneReadBack(phone: PhoneNumber): PhoneNumber {
    if phone.phoneType == Some(Fax) then PhoneToDomain(FaxToWire(phone).(phoneType := Some("Fax")))
    else PhoneToDomain(PhoneToWire(phone).(phoneType := Some("Phone")))
  }

  predicate NotEmpty(text: Option<string>) {
    text.Some? ==> text.value != ""
  }

  /** A service number without a prefix, or another number with one. */
  predicate PrefixSettled(phone: PhoneNumber) {
    if phone.isFinnishServiceNumber == Some(true) then phone.prefixNumber.None?
    else phone.isFinnishServiceNumber.None? && phone.prefixNumber.Some? && phone.prefixNumber.value != ""
  }

  /** Everything a connection can hold of a number is said, and nothing more: no text messages, no details of faxes. */
  predicate PhoneSettled(phone: PhoneNumber) {
    && PrefixSettled(phone)
    && (if phone.phoneType == Some(Fax) then
          phone.additionalInformation.None? && phone.chargeType.None? && phone.chargeDescription.None?
        else
          phone.phoneType == Some(Phone) && phone.chargeType.Some?
          && NotEmpty(phone.additionalInformation) && NotEmpty(phone.chargeDescription))
  }

  lemma ChargeReadBack(charge: Charge)
    ensures ReadCharge(Some(ChargeName(charge))) == Some(charge)
  {
  }

  /** A number reads back as it was written exactly when it is settled. */
  lemma PhoneKept(phone: PhoneNumber)
    ensures PhoneReadBack(phone) == phone <==> PhoneSettled(phone)
    ensures (PhoneReadBack(phone).phoneType == Some(Fax)) == (phone.phoneType == Some(Fax))
  {
    hide ReadCharge, ChargeName;
    ChargeReadBack(if phone.chargeType.Some? then phone.chargeType.value else Chargeable);
    assert ReadCharge(None) == None by { NoCharge(); }
  }

  /**
   * What becomes of any number: it keeps its language and number, a prefix or the service number's mark,
   * Finland's prefix when it has neither, and is a fax or else a phone; a phone also keeps its filled
   * details and its charge type, Chargeable when it has none, a fax none of them.
   */
  lemma PhoneReadAs(phone: PhoneNumber)
    ensures var read := PhoneReadBack(phone);
            && read.language == phone.language && read.number == phone.number
            && read.phoneType == Some(if phone.phoneType == Some(Fax) then Fax else Phone)
            && (if phone.isFinnishServiceNumber == Some(true) then read.isFinnishServiceNumber == Some(true) && read.prefixNumber.None?
                else
                  read.isFinnishServiceNumber.None?
                  && read.prefixNumber == if phone.prefixNumber.None? then Some("+358")
                                          else if phone.prefixNumber.value == "" then None else phone.prefixNumber)
            && (if phone.phoneType == Some(Fax) then
                  read.additionalInformation.None? && read.chargeType.None? && read.chargeDescription.None?
                else
                  && read.chargeType == Some(if phone.chargeType.Some? then phone.chargeType.value else Chargeable)
                  && read.additionalInformation == (if NotEmpty(phone.additionalInformation) then phone.additionalInformation else None)
                  && read.chargeDescription == (if NotEmpty(phone.chargeDescription) then phone.chargeDescription else None))
  {
    hide ReadCharge, ChargeName;
    ChargeReadBack(if phone.chargeType.Some? then phone.chargeType.value else Chargeable);
    assert ReadCharge(None) == None by { NoCharge(); }
  }

  /** Text message numbers and faxes are told by their type, any other typed number is a phone; old charge names read as the new ones. */
  lemma NumberReadAs(wire: WirePhone)
    ensures PhoneToDomain(wire).phoneType == match wire.phoneType
                                             case None => None
                                             case Some(name) =>
                                               if name == "" then None
                                               else if name == "Sms" then Some(Sms) else if name == "Fax" then Some(Fax) else Some(Phone)
    ensures PhoneToDomain(wire.(serviceChargeType := Some("Charged"))) == PhoneToDomain(wire.(serviceChargeType := Some("Chargeable")))
    ensures PhoneToDomain(wire.(serviceChargeType := Some("Free"))) == PhoneToDomain(wire.(serviceChargeType := Some("FreeOfCharge")))
    ensures PhoneToDomain(wire).chargeType.Some?
            <==> wire.serviceChargeType in {Some("Charged"), Some("Chargeable"), Some("Free"), Some("FreeOfCharge"), Some("Other")}
  {
  }

  lemma NoCharge()
    ensures ReadCharge(None) == None
  {
  }

  // ----- Links and addresses -----

  function LinkToWire(link: WebLink): WireWebPage {
    WireWebPage(link.url, Truthy(link.name), link.language)
  }

  function LinkToDomain(page: WireWebPage): WebLink {
    WebLink(page.language, page.url, Truthy(page.value))
  }

  lemma LinkKept(link: WebLink)
    ensures LinkToDomain(LinkToWire(link)) == link <==> NotEmpty(link.name)
  {
  }

  function TextToWire(text: Option<Text>): seq<Item> {
    if text.Some? then TextToItems(text.value) else []
  }

  /** A text that reads as nothing is no text. */
  function TextToDomain(items: seq<Item>): Option<Text> {
    var text := ItemsToText(items);
    if text == [] then None else Some(text)
  }

  ghost predicate TextSettled(text: Option<Text>) {
    text.Some? ==> text.value != [] && AllFilled(text.value)
  }

  ghost predicate WellFormed(text: Option<Text>) {
    text.Some? ==> IsText(text.value)
  }

  lemma TextKept(text: Option<Text>)
    requires WellFormed(text)
    ensures TextToDomain(TextToWire(text)) == text <==> TextSettled(text)
    ensures TextToDomain([]) == None
  {
    if text.Some? {
      hide ItemsToText, TextToItems;
      TextReadBack(text.value);
      NothingRead();
    }
  }

  lemma NothingRead()
    ensures ItemsToText([]) == []
  {
  }

  function StreetToWire(address: Address): WireStreet {
    WireStreet(TextToWire(address.street), Truthy(address.streetNumber), Truthy(address.postalCode), None,
               Truthy(address.latitude), Truthy(address.longitude), TextToWire(address.additionalInformation))
  }

  function BoxToWire(address: Address): WireBox {
    WireBox(TextToWire(address.postOfficeBox), Truthy(address.postalCode), TextToWire(address.additionalInformation))
  }

  function AddressToWire(address: Address): WireAddress {
    match address.kind
    case PostOfficeBox => WireAddress("Postal", "PostOfficeBox", None, Some(BoxToWire(address)), None, None, None)
    case Foreign => WireAddress("Postal", "Abroad", None, None, Some(TextToWire(address.text)), None, None)
    case _ => WireAddress("Postal", "Street", Some(StreetToWire(address)), None, None, None, None)
  }

  const BLANK := Address(Street, None, None, None, None, None, None, None, None, None, None, None)

  function StreetToDomain(kind: AddressKind, street: Option<WireStreet>): Address {
    match street
    case None => BLANK.(kind := kind)
    case Some(s) =>
      BLANK.(kind := kind, street := TextToDomain(s.street), streetNumber := Truthy(s.streetNumber),
             postalCode := Truthy(s.postalCode), municipality := Truthy(s.municipality), latitude := Truthy(s.latitude), longitude := Truthy(s.longitude),
             additionalInformation := TextToDomain(s.additionalInformation))
  }

  /** A connection's addresses are all postal, so their purpose is dropped. */
  function AddressToDomain(wire: WireAddress): Address {
    if wire.subType == "Other" then StreetToDomain(Other, wire.otherAddress)
    else if wire.subType == "Abroad" then
      BLANK.(kind := Foreign, text := TextToDomain(if wire.locationAbroad.Some? then wire.locationAbroad.value
                                                   else if wire.foreignAddress.Some? then wire.foreignAddress.value else []))
    else if wire.subType == "PostOfficeBox" then
      (match wire.postOfficeBoxAddress
       case None => BLANK.(kind := PostOfficeBox)
       case Some(b) => BLANK.(kind := PostOfficeBox, postOfficeBox := TextToDomain(b.postOfficeBox),
                              postalCode := Truthy(b.postalCode), additionalInformation := TextToDomain(b.additionalInformation)))
    else StreetToDomain(Street, wire.streetAddress)
  }

  /** What a connection's address can hold: by kind, its own fields, without empty ones, in the municipality of its postal code. */
  ghost predicate AddressSettled(places: Places, a: Address) {
    && a.purpose.None? && a.receiver.None?
    && (match a.kind
        case Street =>
          && a.municipality == Truthy(places(a.postalCode)) && a.text.None? && a.postOfficeBox.None? && TextSettled(a.street) && TextSettled(a.additionalInformation)
          && NotEmpty(a.streetNumber) && NotEmpty(a.postalCode) && NotEmpty(a.latitude) && NotEmpty(a.longitude)
        case PostOfficeBox =>
          && a.municipality.None? && a.street.None? && a.streetNumber.None? && a.latitude.None? && a.longitude.None? && a.text.None?
          && TextSettled(a.postOfficeBox) && TextSettled(a.additionalInformation) && NotEmpty(a.postalCode)
        case Foreign => a == BLANK.(kind := Foreign, text := a.text) && TextSettled(a.text)
        case _ => false)
  }

  ghost predicate AddressWellFormed(a: Address) {
    WellFormed(a.street) && WellFormed(a.postOfficeBox) && WellFormed(a.additionalInformation) && WellFormed(a.text)
  }

  /** An address reads back as it was written exactly when it is settled; every kind but two becomes a street address. */
  lemma AddressKept(places: Places, address: Address)
    requires AddressWellFormed(address)
    ensures AddressToDomain(PlacedAddress(places, AddressToWire(address))) == address <==> AddressSettled(places, address)
  {
    hide TextToDomain, TextToWire, TextSettled, WellFormed;
    TextKept(address.street);
    TextKept(address.postOfficeBox);
    TextKept(address.additionalInformation);
    TextKept(address.text);
  }

  /** The filled part of a text, if there is any. */
  function FilledPart(text: Option<Text>): Option<Text> {
    if text.None? || TextToItems(text.value) == [] then None else Some(TextToItems(text.value))
  }

  lemma FilledPartRead(text: Option<Text>)
    requires WellFormed(text)
    ensures TextToDomain(TextToWire(text)) == FilledPart(text)
  {
    if text.Some? {
      hide ItemsToText, TextToItems;
      ItemsAreText(text.value);
      ItemsOfFilled(TextToItems(text.value));
      TextReadBack(text.value);
    } else {
      NothingRead();
    }
  }

  /** The kind of an address is read from its sub type, a street's for one not known; another address reads as a street does, a foreign one under either name. */
  lemma AddressKindRead(wire: WireAddress)
    ensures AddressToDomain(wire).kind == if wire.subType == "PostOfficeBox" then PostOfficeBox else if wire.subType == "Abroad" then Foreign
                                          else if wire.subType == "Other" then Other else Street
    ensures wire.subType == "Other" ==>
              AddressToDomain(wire) == AddressToDomain(wire.(subType := "Street", streetAddress := wire.otherAddress)).(kind := Other)
    ensures wire.subType == "Abroad" && wire.locationAbroad.None? ==>
              AddressToDomain(wire) == AddressToDomain(wire.(locationAbroad := wire.foreignAddress))
  {
    hide TextToDomain;
  }

  /**
   * What becomes of any address: post office boxes and foreign addresses keep their kind, all others
   * are street addresses; each keeps the filled ones of its kind's fields, a street in its postal code's municipality.
   */
  lemma AddressReadAs(places: Places, address: Address)
    requires AddressWellFormed(address)
    ensures var read, filled := AddressToDomain(PlacedAddress(places, AddressToWire(address))),
                                (text: Option<string>) => if NotEmpty(text) then text else None;
            match address.kind
            case PostOfficeBox =>
              read == BLANK.(kind := PostOfficeBox, postOfficeBox := FilledPart(address.postOfficeBox),
                             postalCode := filled(address.postalCode), additionalInformation := FilledPart(address.additionalInformation))
            case Foreign => read == BLANK.(kind := Foreign, text := FilledPart(address.text))
            case _ =>
              read == BLANK.(kind := Street, street := FilledPart(address.street), streetNumber := filled(address.streetNumber),
                             postalCode := filled(address.postalCode), municipality := filled(places(filled(address.postalCode))),
                             latitude := filled(address.latitude), longitude := filled(address.longitude),
                             additionalInformation := FilledPart(address.additionalInformation))
  {
    hide TextToDomain, TextToWire, FilledPart, WellFormed;
    FilledPartRead(address.street);
    FilledPartRead(address.postOfficeBox);
    FilledPartRead(address.additionalInformation);
    FilledPartRead(address.text);
  }

  // ----- A connection's details -----

  function TypedList(text: Option<Text>, kind: string): (r: seq<WireText>)
    ensures |r| == |TextToWire(text)|
    ensures forall i :: 0 <= i < |r| ==> r[i] == WireText(TextToWire(text)[i].language, TextToWire(text)[i].value, kind)
  {
    seq(|TextToWire(text)|, i requires 0 <= i < |TextToWire(text)| => WireText(TextToWire(text)[i].language, TextToWire(text)[i].value, kind))
  }

  /** Writes a text into an object by language, over an earlier one. */
  function SetText(text: Text, item: Item): Text {
    if text == [] then [item]
    else if text[0].language == item.language then [item] + text[1..]
    else [text[0]] + SetText(text[1..], item)
  }

  function ItemsOfType(items: seq<WireText>, kind: string): Text
    decreases |items|
  {
    if items == [] then []
    else
      var last := items[|items| - 1];
      var text := ItemsOfType(items[..|items| - 1], kind);
      if last.value != "" && last.kind == kind then SetText(text, Item(last.language, last.value)) else text
  }

  function TypeRead(items: seq<WireText>, kind: string): Option<Text> {
    var text := ItemsOfType(items, kind);
    if text == [] then None else Some(text)
  }

  /** The last non-empty text of a kind in a language. */
  function LastOf(items: seq<WireText>, kind: string, language: string): Option<string>
    decreases |items|
  {
    if items == [] then None
    else
      var last := items[|items| - 1];
      if last.value != "" && last.kind == kind && last.language == language then Some(last.value)
      else LastOf(items[..|items| - 1], kind, language)
  }

  lemma {:induction false} FoundAfterSet(text: Text, item: Item, language: string)
    requires IsText(text)
    ensures IsText(SetText(text, item))
    ensures Find(SetText(text, item), language) == if language == item.language then Some(item.value) else Find(text, language)
    ensures forall t :: t in SetText(text, item) ==> t == item || t in text
  {
    if text != [] && text[0].language != item.language {
      FoundAfterSet(text[1..], item, language);
      var rest := SetText(text[1..], item);
      forall j | 0 <= j < |rest|
        ensures rest[j].language != text[0].language
      {
        assert rest[j] in rest;
        if rest[j] != item {
          var i :| 0 <= i < |text[1..]| && text[1..][i] == rest[j];
          assert text[i + 1] == rest[j];
        }
      }
    }
  }

  /** Of texts of one kind each language reads as its last non-empty one, once. */
  lemma {:induction false} TypeReadsLast(items: seq<WireText>, kind: string, language: string)
    ensures IsText(ItemsOfType(items, kind)) && Find(ItemsOfType(items, kind), language) == LastOf(items, kind, language)
    decreases |items|
  {
    hide SetText, Find;
    if items == [] {
      NothingFound(language);
    } else {
      var n := |items| - 1;
      TypeReadsLast(items[..n], kind, language);
      FoundAfterSet(ItemsOfType(items[..n], kind), Item(items[n].language, items[n].value), language);
    }
  }

  lemma NothingFound(language: string)
    ensures Find([], language) == None
  {
  }

  function OrNothing<T>(list: Option<seq<T>>): seq<T> {
    if list.Some? then list.value else []
  }

  function HoursToWire(hours: seq<ServiceHour>): (r: seq<WireHour>)
    ensures |r| == |hours| && forall i :: 0 <= i < |r| ==> r[i] == ToWire(hours[i])
  {
    seq(|hours|, i requires 0 <= i < |hours| => ToWire(hours[i]))
  }

  function HoursToDomain(hours: seq<WireHour>): (r: seq<ServiceHour>)
    ensures |r| == |hours| && forall i :: 0 <= i < |r| ==> r[i] == ToDomain(hours[i])
  {
    seq(|hours|, i requires 0 <= i < |hours| => ToDomain(hours[i]))
  }

  function PhonesToDomain(phones: seq<WirePhone>): (r: seq<PhoneNumber>)
    ensures |r| == |phones| && forall i :: 0 <= i < |r| ==> r[i] == PhoneToDomain(phones[i])
  {
    seq(|phones|, i requires 0 <= i < |phones| => PhoneToDomain(phones[i]))
  }

  function LinksToDomain(pages: seq<WireWebPage>): (r: seq<WebLink>)
    ensures |r| == |pages| && forall i :: 0 <= i < |r| ==> r[i] == LinkToDomain(pages[i])
  {
    seq(|pages|, i requires 0 <= i < |pages| => LinkToDomain(pages[i]))
  }

  function AddressesToDomain(addresses: seq<WireAddress>): (r: seq<Address>)
    ensures |r| == |addresses| && forall i :: 0 <= i < |r| ==> r[i] == AddressToDomain(addresses[i])
  {
    seq(|addresses|, i requires 0 <= i < |addresses| => AddressToDomain(addresses[i]))
  }

  /** connectionDetailsToDomain. */
  function InfoToDomain(info: Info): Details {
    var contact := if info.contactDetails.Some? then info.contactDetails.value else NO_CONTACT;
    Details(ReadCharge(info.serviceChargeType), TypeRead(info.description, "Description"),
            TypeRead(info.description, "ChargeTypeAdditionalInfo"), ListOrNone(HoursToDomain(info.serviceHours)),
            ListOrNone(TextToItems(contact.emails)), ListOrNone(PhonesToDomain(contact.phoneNumbers)),
            ListOrNone(LinksToDomain(contact.webPages)), ListOrNone(AddressesToDomain(contact.addresses)))
  }

  function PhonesOf(phones: seq<PhoneNumber>, faxes: bool): seq<PhoneNumber> {
    if phones == [] then []
    else (if (phones[0].phoneType == Some(Fax)) == faxes then [phones[0]] else []) + PhonesOf(phones[1..], faxes)
  }

  function PhonesToWire(phones: seq<PhoneNumber>): (r: seq<WirePhone>)
    ensures |r| == |phones| && forall i :: 0 <= i < |r| ==> r[i] == PhoneToWire(phones[i])
  {
    seq(|phones|, i requires 0 <= i < |phones| => PhoneToWire(phones[i]))
  }

  function FaxesToWire(phones: seq<PhoneNumber>): (r: seq<WirePhone>)
    ensures |r| == |phones| && forall i :: 0 <= i < |r| ==> r[i] == FaxToWire(phones[i])
  {
    seq(|phones|, i requires 0 <= i < |phones| => FaxToWire(phones[i]))
  }

  function LinksToWire(links: seq<WebLink>): (r: seq<WireWebPage>)
    ensures |r| == |links| && forall i :: 0 <= i < |r| ==> r[i] == LinkToWire(links[i])
  {
    seq(|links|, i requires 0 <= i < |links| => LinkToWire(links[i]))
  }

  function AddressesToWire(addresses: seq<Address>): (r: seq<WireAddress>)
    ensures |r| == |addresses| && forall i :: 0 <= i < |r| ==> r[i] == AddressToWire(addresses[i])
  {
    seq(|addresses|, i requires 0 <= i < |addresses| => AddressToWire(addresses[i]))
  }

  function DetailsToContact(details: Details): ContactBody {
    var phones, faxes := PhonesOf(OrNothing(details.phoneNumbers), false), PhonesOf(OrNothing(details.phoneNumbers), true);
    var emails, pages, addresses := OrNothing(details.emails), OrNothing(details.webPages), OrNothing(details.addresses);
    ContactBody(ListOrNone(emails), emails == [],
                ListOrNone(PhonesToWire(phones)), phones == [],
                ListOrNone(FaxesToWire(faxes)), faxes == [],
                ListOrNone(LinksToWire(pages)), pages == [],
                ListOrNone(AddressesToWire(addresses)), addresses == [])
  }

  /** connectionDetailsToWire: each field's value, or its delete flag when it is empty or missing. */
  function DetailsToWire(channel: Id, details: Details): RelationBody {
    var description := TypedList(details.descriptions, "Description") + TypedList(details.chargeDescriptions, "ChargeTypeAdditionalInfo");
    var hours := OrNothing(details.serviceHours);
    RelationBody(channel, if details.chargeType.Some? then Some(ChargeName(details.chargeType.value)) else None,
                 details.chargeType.None?, ListOrNone(description), description == [],
                 ListOrNone(HoursToWire(hours)), hours == [], Some(DetailsToContact(details)))
  }

  /** Every field is sent or cleared, never both and never neither. */
  predicate SentOrCleared(body: RelationBody) {
    && body.serviceChargeType.Some? != body.deleteServiceChargeType
    && body.description.Some? != body.deleteAllDescriptions
    && body.serviceHours.Some? != body.deleteAllServiceHours
    && body.contactDetails.Some?
    && var c := body.contactDetails.value;
       && c.emails.Some? != c.deleteAllEmails && c.phoneNumbers.Some? != c.deleteAllPhones
       && c.faxNumbers.Some? != c.deleteAllFaxNumbers && c.webPages.Some? != c.deleteAllWebPages
       && c.addresses.Some? != c.deleteAllAddresses
  }

  lemma DetailsSentOrCleared(channel: Id, details: Details)
    ensures SentOrCleared(DetailsToWire(channel, details))
  {
    hide TextToItems, PhoneToWire, FaxToWire, LinkToWire, AddressToWire, ToWire;
  }

  /** An address as the PUT takes it: postal, of one of three kinds, with the part of its kind and no other. */
  predicate TakesAddress(address: WireAddress) {
    && address.kind == "Postal"
    && address.streetAddress.Some? == (address.subType == "Street")
    && address.postOfficeBoxAddress.Some? == (address.subType == "PostOfficeBox")
    && address.locationAbroad.Some? == (address.subType == "Abroad")
    && address.otherAddress.None? && address.foreignAddress.None?
    && address.subType in {"Street", "PostOfficeBox", "Abroad"}
  }

  predicate TakesNumber(number: WirePhone) {
    number.phoneType.None? && (number.isFinnishServiceNumber ==> number.prefixNumber.None?)
    && number.serviceChargeType in {None, Some("Chargeable"), Some("FreeOfCharge"), Some("Other")}
  }

  predicate TakesHour(hour: WireHour) {
    hour.serviceHourType in {"DaysOfTheWeek", "Exceptional", "OverMidnight"}
    && forall i :: 0 <= i < |hour.openingHour| ==> hour.openingHour[i].dayFrom.Some?
  }

  /** What is sent of details is in the words of the PUT. */
  predicate Takes(body: RelationBody) {
    && body.serviceChargeType in {None, Some("Chargeable"), Some("FreeOfCharge"), Some("Other")}
    && (forall i :: 0 <= i < |OrEmpty(body.description)| ==> OrEmpty(body.description)[i].kind in {"Description", "ChargeTypeAdditionalInfo"})
    && (forall i :: 0 <= i < |OrEmpty(body.serviceHours)| ==> TakesHour(OrEmpty(body.serviceHours)[i]))
    && body.contactDetails.Some?
    && var c := body.contactDetails.value;
       && (forall i :: 0 <= i < |OrEmpty(c.phoneNumbers)| ==> TakesNumber(OrEmpty(c.phoneNumbers)[i]))
       && (forall i :: 0 <= i < |OrEmpty(c.faxNumbers)| ==>
             TakesNumber(OrEmpty(c.faxNumbers)[i]) && OrEmpty(c.faxNumbers)[i].serviceChargeType.None?)
       && (forall i :: 0 <= i < |OrEmpty(c.addresses)| ==> TakesAddress(OrEmpty(c.addresses)[i]))
  }

  lemma DetailsTaken(channel: Id, details: Details)
    ensures Takes(DetailsToWire(channel, details))
  {
    hide TextToItems, TextToWire, PhonesOf, Expand, TextToWire;
  }

  /** No field of a relation is cleared. */
  predicate ClearsNothing(body: RelationBody) {
    && !body.deleteServiceChargeType && !body.deleteAllDescriptions && !body.deleteAllServiceHours
    && (body.contactDetails.Some? ==>
          var c := body.contactDetails.value;
          !c.deleteAllEmails && !c.deleteAllPhones && !c.deleteAllFaxNumbers && !c.deleteAllWebPages && !c.deleteAllAddresses)
  }

  // ----- Details written and read back -----

  /** A connection's details after they were written. */
  function DetailsReadBack(places: Places, details: Details): Details {
    InfoToDomain(RelationAfter(places, DetailsToWire("", details)).info)
  }

  lemma {:induction false} SetNewText(text: Text, item: Item)
    requires forall i :: 0 <= i < |text| ==> text[i].language != item.language
    ensures SetText(text, item) == text + [item]
  {
    if text != [] {
      SetNewText(text[1..], item);
      assert text == [text[0]] + text[1..];
    }
  }

  function Typed(text: Text, kind: string): (r: seq<WireText>)
    ensures |r| == |text| && forall i :: 0 <= i < |r| ==> r[i] == WireText(text[i].language, text[i].value, kind)
  {
    seq(|text|, i requires 0 <= i < |text| => WireText(text[i].language, text[i].value, kind))
  }

  lemma {:induction false} TypedRead(text: Text, kind: string)
    requires IsText(text) && AllFilled(text)
    ensures ItemsOfType(Typed(text, kind), kind) == text
    decreases |text|
  {
    if text != [] {
      var n := |text| - 1;
      TypedRead(text[..n], kind);
      assert Typed(text, kind)[..n] == Typed(text[..n], kind);
      SetNewText(text[..n], text[n]);
      assert text == text[..n] + [text[n]];
    }
  }

  lemma {:induction false} OtherKindAfter(items: seq<WireText>, more: seq<WireText>, kind: string)
    requires forall i :: 0 <= i < |more| ==> more[i].kind != kind
    ensures ItemsOfType(items + more, kind) == ItemsOfType(items, kind)
    decreases |more|
  {
    if more == [] {
      assert items + more == items;
    } else {
      var n := |more| - 1;
      OtherKindAfter(items, more[..n], kind);
      assert (items + more)[..|items| + n] == items + more[..n];
    }
  }

  lemma {:induction false} OtherKindBefore(items: seq<WireText>, more: seq<WireText>, kind: string)
    requires forall i :: 0 <= i < |items| ==> items[i].kind != kind
    ensures ItemsOfType(items + more, kind) == ItemsOfType(more, kind)
    decreases |more|
  {
    if more == [] {
      assert items + more == items;
      OtherKindAfter([], items, kind);
      assert [] + items == items;
    } else {
      var n := |more| - 1;
      OtherKindBefore(items, more[..n], kind);
      assert (items + more)[..|items| + n] == items + more[..n];
    }
  }

  lemma TypedListRead(text: Option<Text>, kind: string)
    requires WellFormed(text)
    ensures ItemsOfType(TypedList(text, kind), kind) == TextToWire(text)
    ensures TypedList(text, kind) == Typed(TextToWire(text), kind)
  {
    hide TextToItems, ItemsOfType;
    assert TypedList(text, kind) == Typed(TextToWire(text), kind);
    if text.Some? {
      ItemsAreText(text.value);
      TypedRead(TextToItems(text.value), kind);
    } else {
      TypedRead([], kind);
    }
  }

  lemma TextsReadBack(places: Places, details: Details)
    requires WellFormed(details.descriptions) && WellFormed(details.chargeDescriptions)
    ensures DetailsReadBack(places, details).descriptions == details.descriptions <==> TextSettled(details.descriptions)
    ensures DetailsReadBack(places, details).chargeDescriptions == details.chargeDescriptions <==> TextSettled(details.chargeDescriptions)
  {
    hide TextToWire, ItemsOfType, HoursToWire, HoursToDomain, DetailsToContact, ContactAfter;
    var a, b := TypedList(details.descriptions, "Description"), TypedList(details.chargeDescriptions, "ChargeTypeAdditionalInfo");
    TypedListRead(details.descriptions, "Description");
    TypedListRead(details.chargeDescriptions, "ChargeTypeAdditionalInfo");
    OtherKindAfter(a, b, "Description");
    OtherKindBefore(a, b, "ChargeTypeAdditionalInfo");
    TypeReadKept(details.descriptions);
    TypeReadKept(details.chargeDescriptions);
    assert RelationAfter(places, DetailsToWire("", details)).info.description == a + b;
  }

  /** Reading the typed entries of a text is reading the text. */
  lemma TypeReadKept(text: Option<Text>)
    requires WellFormed(text)
    ensures (if TextToWire(text) == [] then None else Some(TextToWire(text))) == text <==> TextSettled(text)
  {
    if text.Some? {
      hide TextToItems;
      ItemsOfFilled(text.value);
      NothingFilled();
    }
  }

  lemma NothingFilled()
    ensures TextToItems([]) == []
  {
  }

  ghost predicate HoursSettled(hours: Option<seq<ServiceHour>>) {
    forall i :: 0 <= i < |OrNothing(hours)| ==> InDomainForm(OrNothing(hours)[i])
  }

  ghost predicate AreHours(hours: Option<seq<ServiceHour>>) {
    forall i :: 0 <= i < |OrNothing(hours)| ==> IsHour(OrNothing(hours)[i])
  }

  lemma HoursReadBackSame(places: Places, le: Order, details: Details)
    requires AreHours(details.serviceHours)
    ensures CanonicalAll(le, OrNothing(DetailsReadBack(places, details).serviceHours)) == CanonicalAll(le, OrNothing(details.serviceHours))
            <==> HoursSettled(details.serviceHours)
  {
    hide TypedList, TypeRead, DetailsToContact, ContactAfter, CanonicalAll, IsHour, InDomainForm, ToWire, ToDomain;
    var hours := OrNothing(details.serviceHours);
    WrittenHoursShowNoChange(le, hours);
    assert HoursToDomain(HoursToWire(hours)) == ReadBack(hours);
    assert OrNothing(DetailsReadBack(places, details).serviceHours) == ReadBack(hours);
  }

  // ----- Contact details -----

  ghost predicate ListGiven<T>(list: Option<seq<T>>) {
    list.Some? ==> list.value != []
  }

  /** An optional list is read back as it was exactly when it is not an empty one and its elements are. */
  lemma ListKept<T>(list: Option<seq<T>>, back: seq<T>)
    requires |back| == |OrNothing(list)|
    ensures ListOrNone(back) == list <==> ListGiven(list) && forall i :: 0 <= i < |back| ==> back[i] == OrNothing(list)[i]
  {
    if forall i :: 0 <= i < |back| ==> back[i] == OrNothing(list)[i] {
      assert back == OrNothing(list);
    }
  }

  ghost predicate EmailsSettled(emails: Option<seq<Item>>) {
    ListGiven(emails) && AllFilled(OrNothing(emails))
  }

  lemma EmailsReadBack(places: Places, details: Details)
    ensures DetailsReadBack(places, details).emails == details.emails <==> EmailsSettled(details.emails)
  {
    hide TypedList, TypeRead, HoursToWire, HoursToDomain, PhonesOf, TextToItems;
    var emails := OrNothing(details.emails);
    ItemsOfFilled(emails);
    NothingFilled();
    assert DetailsReadBack(places, details).emails == ListOrNone(TextToItems(emails));
  }

  ghost predicate LinksSettled(links: Option<seq<WebLink>>) {
    ListGiven(links) && forall i :: 0 <= i < |OrNothing(links)| ==> NotEmpty(OrNothing(links)[i].name)
  }

  lemma LinksReadBack(places: Places, details: Details)
    ensures DetailsReadBack(places, details).webPages == details.webPages <==> LinksSettled(details.webPages)
  {
    hide TypedList, TypeRead, HoursToWire, HoursToDomain, PhonesOf, TextToItems, LinkToWire, LinkToDomain, NotEmpty;
    var links := OrNothing(details.webPages);
    var back := LinksToDomain(LinksToWire(links));
    assert DetailsReadBack(places, details).webPages == ListOrNone(back);
    hide DetailsReadBack;
    ListKept(details.webPages, back);
    forall i | 0 <= i < |links|
      ensures back[i] == links[i] <==> NotEmpty(links[i].name)
    {
      LinkKept(links[i]);
    }
  }

  ghost predicate AddressesSettled(places: Places, addresses: Option<seq<Address>>) {
    ListGiven(addresses) && forall i :: 0 <= i < |OrNothing(addresses)| ==> AddressSettled(places, OrNothing(addresses)[i])
  }

  lemma AddressesReadBack(places: Places, details: Details)
    requires forall i :: 0 <= i < |OrNothing(details.addresses)| ==> AddressWellFormed(OrNothing(details.addresses)[i])
    ensures DetailsReadBack(places, details).addresses == details.addresses <==> AddressesSettled(places, details.addresses)
  {
    hide TypedList, TypeRead, HoursToWire, HoursToDomain, PhonesOf, TextToItems, AddressToWire, AddressToDomain, AddressSettled,
      AddressWellFormed;
    var addresses := OrNothing(details.addresses);
    var back := AddressesToDomain(PlacedAddresses(places, AddressesToWire(addresses)));
    assert DetailsReadBack(places, details).addresses == ListOrNone(back);
    hide DetailsReadBack;
    ListKept(details.addresses, back);
    forall i | 0 <= i < |addresses|
      ensures back[i] == addresses[i] <==> AddressSettled(places, addresses[i])
    {
      AddressKept(places, addresses[i]);
    }
  }

  // ----- Phone numbers and faxes share a list -----

  predicate IsFax(phone: PhoneNumber) {
    phone.phoneType == Some(Fax)
  }

  /** Faxes come last. */
  ghost predicate FaxesLast(phones: seq<PhoneNumber>) {
    forall i, j :: 0 <= i < j < |phones| && IsFax(phones[i]) ==> IsFax(phones[j])
  }

  ghost predicate PhonesSettled(phones: Option<seq<PhoneNumber>>) {
    && ListGiven(phones) && FaxesLast(OrNothing(phones))
    && forall i :: 0 <= i < |OrNothing(phones)| ==> PhoneSettled(OrNothing(phones)[i])
  }

  function AllReadBack(phones: seq<PhoneNumber>): (r: seq<PhoneNumber>)
    ensures |r| == |phones| && forall i :: 0 <= i < |r| ==> r[i] == PhoneReadBack(phones[i])
  {
    seq(|phones|, i requires 0 <= i < |phones| => PhoneReadBack(phones[i]))
  }

  lemma {:induction false} PhonesOfKind(phones: seq<PhoneNumber>, faxes: bool)
    ensures forall i :: 0 <= i < |PhonesOf(phones, faxes)| ==> IsFax(PhonesOf(phones, faxes)[i]) == faxes
    ensures |PhonesOf(phones, faxes)| + |PhonesOf(phones, !faxes)| == |phones|
  {
    if phones != [] { PhonesOfKind(phones[1..], faxes); }
  }

  lemma {:induction false} AllOfKind(phones: seq<PhoneNumber>, faxes: bool)
    requires forall i :: 0 <= i < |phones| ==> IsFax(phones[i]) == faxes
    ensures PhonesOf(phones, faxes) == phones && PhonesOf(phones, !faxes) == []
  {
    if phones != [] {
      AllOfKind(phones[1..], faxes);
      assert phones == [phones[0]] + phones[1..];
    }
  }

  /** Sorting out the faxes moves nothing exactly when they are last. */
  lemma {:induction false} FaxesLastStay(phones: seq<PhoneNumber>)
    ensures FaxesLast(phones) ==> PhonesOf(phones, false) + PhonesOf(phones, true) == phones
  {
    if phones != [] && FaxesLast(phones) {
      assert phones == [phones[0]] + phones[1..];
      if IsFax(phones[0]) {
        AllOfKind(phones, true);
      } else {
        FaxesLastStay(phones[1..]);
      }
    }
  }

  lemma SentPhonesReadBack(places: Places, details: Details)
    ensures var phones := OrNothing(details.phoneNumbers);
            DetailsReadBack(places, details).phoneNumbers == ListOrNone(AllReadBack(PhonesOf(phones, false) + PhonesOf(phones, true)))
  {
    hide TypedList, TypeRead, HoursToWire, HoursToDomain, TextToItems, PhoneToDomain, PhoneToWire, FaxToWire;
    var phones := OrNothing(details.phoneNumbers);
    var calls, faxes := PhonesOf(phones, false), PhonesOf(phones, true);
    PhonesOfKind(phones, false);
    PhonesOfKind(phones, true);
    hide PhonesOf;
    var wire := TypedPhones(PhonesToWire(calls), "Phone") + TypedPhones(FaxesToWire(faxes), "Fax");
    assert OrEmpty(ListOrNone(PhonesToWire(calls))) == PhonesToWire(calls);
    assert OrEmpty(ListOrNone(FaxesToWire(faxes))) == FaxesToWire(faxes);
    assert PhonesToDomain(wire) == AllReadBack(calls + faxes);
  }

  lemma SortedReadBack(phones: seq<PhoneNumber>)
    ensures var sorted := PhonesOf(phones, false) + PhonesOf(phones, true);
            && |sorted| == |phones|
            && forall i :: 0 <= i < |sorted| ==>
                 (AllReadBack(sorted)[i] == sorted[i] <==> PhoneSettled(sorted[i])) && IsFax(AllReadBack(sorted)[i]) == IsFax(sorted[i])
  {
    hide PhoneReadBack, PhoneSettled;
    var sorted := PhonesOf(phones, false) + PhonesOf(phones, true);
    PhonesOfKind(phones, false);
    forall i | 0 <= i < |sorted|
      ensures AllReadBack(sorted)[i] == sorted[i] <==> PhoneSettled(sorted[i])
      ensures IsFax(AllReadBack(sorted)[i]) == IsFax(sorted[i])
    {
      PhoneKept(sorted[i]);
    }
  }

  lemma SortedFaxesLast(phones: seq<PhoneNumber>)
    ensures FaxesLast(PhonesOf(phones, false) + PhonesOf(phones, true))
  {
    PhonesOfKind(phones, false);
    PhonesOfKind(phones, true);
  }

  lemma PhonesReadBack(places: Places, details: Details)
    ensures DetailsReadBack(places, details).phoneNumbers == details.phoneNumbers <==> PhonesSettled(details.phoneNumbers)
  {
    hide PhoneReadBack, PhoneSettled, DetailsReadBack, PhonesOf;
    SentPhonesReadBack(places, details);
    var phones := OrNothing(details.phoneNumbers);
    var sorted := PhonesOf(phones, false) + PhonesOf(phones, true);
    SortedReadBack(phones);
    SortedFaxesLast(phones);
    FaxesLastStay(phones);
    ListKept(details.phoneNumbers, AllReadBack(sorted));
    if forall i :: 0 <= i < |sorted| ==> AllReadBack(sorted)[i] == phones[i] {
      forall i, j | 0 <= i < j < |phones| && IsFax(phones[i])
        ensures IsFax(phones[j])
      {
        assert IsFax(sorted[i]) && IsFax(sorted[j]);
      }
      assert FaxesLast(phones);
    }
  }

  // ----- Everything together -----

  ghost predicate AreDetails(details: Details) {
    && WellFormed(details.descriptions) && WellFormed(details.chargeDescriptions) && AreHours(details.serviceHours)
    && forall i :: 0 <= i < |OrNothing(details.addresses)| ==> AddressWellFormed(OrNothing(details.addresses)[i])
  }

  /** Details are compared field by field, service hours in their canonical form. */
  ghost predicate SameDetails(le: Order, a: Details, b: Details) {
    && a.chargeType == b.chargeType && a.descriptions == b.descriptions && a.chargeDescriptions == b.chargeDescriptions
    && CanonicalAll(le, OrNothing(a.serviceHours)) == CanonicalAll(le, OrNothing(b.serviceHours))
    && a.emails == b.emails && a.phoneNumbers == b.phoneNumbers && a.webPages == b.webPages && a.addresses == b.addresses
  }

  /** What a connection can hold in full. */
  ghost predicate DetailsSettled(places: Places, details: Details) {
    && TextSettled(details.descriptions) && TextSettled(details.chargeDescriptions) && HoursSettled(details.serviceHours)
    && EmailsSettled(details.emails) && PhonesSettled(details.phoneNumbers) && LinksSettled(details.webPages)
    && AddressesSettled(places, details.addresses)
  }

  lemma ChargeTypeReadBack(places: Places, details: Details)
    ensures DetailsReadBack(places, details).chargeType == details.chargeType
  {
    hide TypedList, TypeRead, HoursToWire, HoursToDomain, DetailsToContact, ContactAfter, ReadCharge, ChargeName;
    if details.chargeType.Some? { ChargeReadBack(details.chargeType.value); }
    NoCharge();
  }

  /** Details written to a connection and read back compare equal exactly when they are settled. */
  lemma DetailsKept(places: Places, le: Order, details: Details)
    requires AreDetails(details)
    ensures SameDetails(le, DetailsReadBack(places, details), details) <==> DetailsSettled(places, details)
  {
    hide DetailsReadBack, WellFormed, TextSettled, AreHours, HoursSettled, EmailsSettled, PhonesSettled, LinksSettled,
      AddressesSettled, AddressWellFormed, CanonicalAll;
    ChargeTypeReadBack(places, details);
    TextsReadBack(places, details);
    HoursReadBackSame(places, le, details);
    EmailsReadBack(places, details);
    PhonesReadBack(places, details);
    LinksReadBack(places, details);
    AddressesReadBack(places, details);
  }

  /** A field of a partial change: left alone, or set, perhaps to nothing. */
  datatype Change<+T> = Keep | Set(value: Option<T>)

  datatype DetailChanges = DetailChanges(
    chargeType: Change<Charge>, descriptions: Change<Text>, chargeDescriptions: Change<Text>,
    serviceHours: Change<seq<ServiceHour>>, emails: Change<seq<Item>>, phoneNumbers: Change<seq<PhoneNumber>>,
    webPages: Change<seq<WebLink>>, addresses: Change<seq<Address>>)

  function Over<T>(change: Change<T>, current: Option<T>): Option<T> {
    match change case Keep => current case Set(value) => value
  }

  function Merged(current: Details, changes: DetailChanges): Details {
    Details(Over(changes.chargeType, current.chargeType), Over(changes.descriptions, current.descriptions),
            Over(changes.chargeDescriptions, current.chargeDescriptions), Over(changes.serviceHours, current.serviceHours),
            Over(changes.emails, current.emails), Over(changes.phoneNumbers, current.phoneNumbers),
            Over(changes.webPages, current.webPages), Over(changes.addresses, current.addresses))
  }

  /** The first relation of a channel. */
  function FirstOf(relations: seq<Relation>, channel: Id): (i: nat)
    requires channel in Channels(relations)
    ensures i < |relations| && relations[i].channel == channel
    ensures forall j :: 0 <= j < i ==> relations[j].channel != channel
  {
    if relations[0].channel == channel then 0
    else
      assert Channels(relations)[1..] == Channels(relations[1..]);
      assert Channels(relations) == [relations[0].channel] + Channels(relations)[1..];
      1 + FirstOf(relations[1..], channel)
  }

  /** None: the service is not connected to the channel, which is an error. */
  function PlanConnectionDetails(relations: seq<Relation>, channel: Id, changes: DetailChanges): Option<ConnectionsBody> {
    if channel !in Channels(relations) then None
    else
      var target := FirstOf(relations, channel);
      Some(ConnectionsBody(false, seq(|relations|, i requires 0 <= i < |relations| =>
        if i == target then DetailsToWire(channel, Merged(InfoToDomain(relations[i].info), changes))
        else RelationToWrite(relations[i]))))
  }

  lemma SameInfo(places: Places, channel: Id, details: Details)
    ensures RelationAfter(places, DetailsToWire(channel, details)) == Relation(channel, RelationAfter(places, DetailsToWire("", details)).info)
  {
    hide TypedList, HoursToWire, DetailsToContact, ContactAfter, ChargeName;
  }

  /**
   * Changing one connection's details keeps the set of connections; each of the others keeps
   * its extra info, empty texts apart, exactly when all its numbers are ordinary ones and its municipalities PTV's own.
   */
  lemma OtherConnectionsStay(places: Places, relations: seq<Relation>, channel: Id, changes: DetailChanges)
    requires channel in Channels(relations)
    ensures PlanConnectionDetails(relations, channel, changes).Some?
    ensures var after := Put(places, PlanConnectionDetails(relations, channel, changes).value);
            && Channels(after) == Channels(relations)
            && forall i :: 0 <= i < |after| && i != FirstOf(relations, channel) ==>
                 && after[i].info == ResentInfo(places, relations[i].info)
                 && (after[i].info == WithoutEmptyTexts(relations[i].info) <==>
                       OnlyPhones(relations[i].info) && Placed(places, relations[i].info))
  {
    hide DetailsToWire, InfoToDomain, Merged, RelationToWrite, ResentInfo, WithoutEmptyTexts, OnlyPhones, Placed, FirstOf;
    var after := Put(places, PlanConnectionDetails(relations, channel, changes).value);
    forall i | 0 <= i < |after|
      ensures after[i].channel == relations[i].channel
      ensures i != FirstOf(relations, channel) ==>
                && after[i].info == ResentInfo(places, relations[i].info)
                && (after[i].info == WithoutEmptyTexts(relations[i].info) <==>
                       OnlyPhones(relations[i].info) && Placed(places, relations[i].info))
    {
      if i != FirstOf(relations, channel) {
        KeptRelation(places, relations[i]);
      } else {
        SameInfo(places, channel, Merged(InfoToDomain(relations[i].info), changes));
      }
    }
  }

  /** Changing one connection's details clears nothing of the others. */
  lemma OthersClearNothing(relations: seq<Relation>, channel: Id, changes: DetailChanges)
    requires channel in Channels(relations)
    ensures var body := PlanConnectionDetails(relations, channel, changes).value;
            && !body.deleteAllChannelRelations && |body.channelRelations| == |relations|
            && forall i :: 0 <= i < |relations| && i != FirstOf(relations, channel) ==> ClearsNothing(body.channelRelations[i])
  {
    hide Filled, DetailsToWire, InfoToDomain, Merged, FirstOf;
  }

  // ----- What is read of a connection that was resent -----

  lemma {:induction false} ItemsOfTypeAppended(items: seq<WireText>, last: WireText, kind: string)
    ensures ItemsOfType(items + [last], kind)
            == if last.value != "" && last.kind == kind then SetText(ItemsOfType(items, kind), Item(last.language, last.value))
               else ItemsOfType(items, kind)
  {
    assert (items + [last])[..|items|] == items;
  }

  lemma {:induction false} FilledAppended(items: seq<WireText>, last: WireText)
    ensures Filled(items + [last]) == Filled(items) + if last.value != "" then [last] else []
  {
    if items == [] {
      assert items + [last] == [last] && [last][1..] == [];
    } else {
      FilledAppended(items[1..], last);
      assert (items + [last])[1..] == items[1..] + [last];
    }
  }

  /** Empty texts are not read anyway. */
  lemma {:induction false} FilledReadsSame(items: seq<WireText>, kind: string)
    ensures ItemsOfType(Filled(items), kind) == ItemsOfType(items, kind)
    decreases |items|
  {
    hide SetText;
    if items != [] {
      var n := |items| - 1;
      assert items == items[..n] + [items[n]];
      FilledReadsSame(items[..n], kind);
      FilledAppended(items[..n], items[n]);
      ItemsOfTypeAppended(items[..n], items[n], kind);
      if items[n].value != "" {
        ItemsOfTypeAppended(Filled(items[..n]), items[n], kind);
      } else {
        assert Filled(items) == Filled(items[..n]);
      }
    }
  }

  /** A resent connection reads as before exactly when every number of it reads as a phone: faxes and text message numbers become phones. */
  lemma ResentDetails(places: Places, info: Info)
    requires Placed(places, info)
    ensures InfoToDomain(ResentInfo(places, info)) == InfoToDomain(info)
            <==> forall i :: 0 <= i < |NumbersOf(info)| ==> PhoneToDomain(NumbersOf(info)[i]).phoneType == Some(Phone)
  {
    hide PhoneToDomain, Filled, ItemsOfType, HoursToDomain, TextToItems, LinksToDomain, AddressesToDomain, ReadCharge;
    var before, after := PhonesToDomain(NumbersOf(info)), PhonesToDomain(TypedPhones(NumbersOf(info), "Phone"));
    forall i | 0 <= i < |before|
      ensures after[i] == before[i] <==> PhoneToDomain(NumbersOf(info)[i]).phoneType == Some(Phone)
    {
      ResentNumber(NumbersOf(info)[i]);
    }
    FilledReadsSame(info.description, "Description");
    FilledReadsSame(info.description, "ChargeTypeAdditionalInfo");
    ChargeReadSame(info.serviceChargeType);
    assert before == after <==> forall i :: 0 <= i < |before| ==> after[i] == before[i];
    assert InfoToDomain(ResentInfo(places, info)).phoneNumbers == ListOrNone(after);
    assert InfoToDomain(info).phoneNumbers == ListOrNone(before);
  }

  lemma ChargeReadSame(name: Option<string>)
    ensures ReadCharge(Truthy(name)) == ReadCharge(name)
  {
  }

  lemma ResentNumber(number: WirePhone)
    ensures PhoneToDomain(number.(phoneType := Some("Phone"))) == PhoneToDomain(number)
            <==> PhoneToDomain(number).phoneType == Some(Phone)
  {
    hide ReadCharge;
  }

  /** A connection with one number and nothing else. */
  function WithNumber(channel: Id, number: WirePhone): Relation {
    Relation(channel, NO_INFO.(contactDetails := Some(NO_CONTACT.(phoneNumbers := [number]))))
  }

  lemma NumberRead(places: Places, channel: Id, number: WirePhone)
    ensures InfoToDomain(WithNumber(channel, number).info).phoneNumbers == Some([PhoneToDomain(number)])
    ensures ResentInfo(places, WithNumber(channel, number).info) == WithNumber(channel, number.(phoneType := Some("Phone"))).info
    ensures PhoneToDomain(number.(phoneType := Some("Phone"))) == PhoneToDomain(number).(phoneType := Some(Phone))
  {
    hide TypeRead, HoursToDomain, TextToItems, LinksToDomain, AddressesToDomain, ReadCharge;
    assert TypedPhones([number], "Phone") == [number.(phoneType := Some("Phone"))];
    assert PhonesToDomain([number]) == [PhoneToDomain(number)];
  }

  lemma ConnectingOneMore(places: Places, relation: Relation, other: Id)
    requires relation.channel != other
    ensures var plan := PlanServiceConnections([relation], [relation.channel, other]);
            && plan.Some? && Channels(Put(places, plan.value)) == [relation.channel, other]
            && Put(places, plan.value)[0].info == ResentInfo(places, relation.info)
  {
    var relations, desired := [relation], [relation.channel, other];
    assert Channels(relations) == [relation.channel];
    DedupTwo(relation.channel, other);
    assert other in SetOf(desired) && other !in SetOf(Channels(relations));
    assert ById(relations, relation.channel) == Some(relation);
    hide PlanServiceConnections, Put, Dedup, ResentInfo, WithoutEmptyTexts, OnlyPhones, Placed, ById;
    PlansOnlyChanges(relations, desired);
    ConnectsDesired(places, relations, desired);
    var after := Put(places, PlanServiceConnections(relations, desired).value);
    assert after[0].channel == Channels(after)[0];
  }

  /** Connecting one more channel turns the fax of a channel that was already connected into a phone number. */
  lemma FaxBecomesPhone(places: Places, channel: Id, other: Id, fax: WirePhone)
    requires channel != other && fax.phoneType == Some("Fax")
    ensures var before := WithNumber(channel, fax);
            var plan := PlanServiceConnections([before], [channel, other]);
            && plan.Some? && Channels(Put(places, plan.value)) == [channel, other]
            && PhoneToDomain(fax).phoneType == Some(Fax) && InfoToDomain(before.info).phoneNumbers == Some([PhoneToDomain(fax)])
            && InfoToDomain(Put(places, plan.value)[0].info).phoneNumbers == Some([PhoneToDomain(fax).(phoneType := Some(Phone))])
  {
    assert PhoneToDomain(fax).phoneType == Some(Fax) by { hide ReadCharge; }
    assert WithNumber(channel, fax).channel == channel;
    hide *;
    ConnectingOneMore(places, WithNumber(channel, fax), other);
    NumberRead(places, channel, fax);
    NumberRead(places, channel, fax.(phoneType := Some("Phone")));
  }

  lemma DedupTwo(a: Id, b: Id)
    requires a != b
    ensures Dedup([a, b]) == [a, b]
  {
    assert [a, b][..1] == [a] && [a][..0] == [];
    assert Dedup([a]) == [a];
  }

  /**
   * The changed connection is sent with every field or its delete flag, and reads as its current
   * details merged with the change exactly when the merged details are settled.
   */
  lemma DetailsPlanned(places: Places, le: Order, relations: seq<Relation>, channel: Id, changes: DetailChanges, target: nat)
    requires channel in Channels(relations) && target == FirstOf(relations, channel)
    requires AreDetails(Merged(InfoToDomain(relations[target].info), changes))
    ensures var body := PlanConnectionDetails(relations, channel, changes).value;
            var merged := Merged(InfoToDomain(relations[target].info), changes);
            && target < |body.channelRelations|
            && SentOrCleared(body.channelRelations[target])
            && (SameDetails(le, InfoToDomain(RelationAfter(places, body.channelRelations[target]).info), merged) <==> DetailsSettled(places, merged))
  {
    hide DetailsToWire, InfoToDomain, Merged, SentOrCleared, SameDetails, DetailsSettled, AreDetails, RelationToWrite, RelationAfter,
      FirstOf, DetailsReadBack;
    var merged := Merged(InfoToDomain(relations[target].info), changes);
    DetailsSentOrCleared(channel, merged);
    DetailsKept(places, le, merged);
    SameInfo(places, channel, merged);
    ReadBackIs(places, merged);
  }

  lemma ReadBackIs(places: Places, details: Details)
    ensures DetailsReadBack(places, details) == InfoToDomain(RelationAfter(places, DetailsToWire("", details)).info)
  {
  }
}

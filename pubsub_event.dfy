/** A PubSub event notification: the <event/> extension of a message, holding
    one event-type element.  The model covers the validity check, the parser
    and the serializer of the extension; the surrounding message and its
    own extensions are not part of it. */
module PubSubEvent {
  import opened Wrappers
  import opened Dom
  import opened StringTable
  import opened Lists
  import Namespaces
  import Itm = PubSubItem
  import Sub = PubSubSubscription

  /** EventType, in the order of PUBSUB_EVENTS. */
  datatype EventType = Configuration | Delete | Items | Purge | Subscription

  /** PUBSUB_EVENTS: the tag of the event-type element, indexed by the enum's
      numeric value. */
  const PUBSUB_EVENTS: seq<string> := ["configuration", "delete", "items", "purge", "subscription"]

  function Ordinal(t: EventType): (i: nat)
    ensures i < |PUBSUB_EVENTS|
  {
    match t
    case Configuration => 0
    case Delete => 1
    case Items => 2
    case Purge => 3
    case Subscription => 4
  }

  /** EventType(index). */
  function FromOrdinal(i: nat): (t: EventType)
    requires i < |PUBSUB_EVENTS|
    ensures Ordinal(t) == i
  {
    [Configuration, Delete, Items, Purge, Subscription][i]
  }

  /** PUBSUB_EVENTS.at(int(type)). */
  function EventTag(t: EventType): string {
    PUBSUB_EVENTS[Ordinal(t)]
  }

  /** PUBSUB_EVENTS.indexOf(tag) read as an event type; -1 is None. */
  function EventTypeOf(tag: string): Option<EventType> {
    match IndexOf(PUBSUB_EVENTS, tag)
    case None => None
    case Some(i) => Some(FromOrdinal(i))
  }

  lemma EventsDistinct()
    ensures Distinct(PUBSUB_EVENTS)
  {
  }

  /** A tag names an event type exactly when it is that type's entry of
      PUBSUB_EVENTS, and a tag outside the table names none. */
  lemma EventTypeCodec(t: EventType, tag: string)
    ensures EventTypeOf(tag) == Some(t) <==> tag == EventTag(t)
    ensures EventTypeOf(tag).None? <==> tag !in PUBSUB_EVENTS
  {
    EventsDistinct();
    IndexOfAt(PUBSUB_EVENTS, Ordinal(t));
    match IndexOf(PUBSUB_EVENTS, tag)
    case None =>
    case Some(i) =>
      assert FromOrdinal(i) == t ==> i == Ordinal(t);
  }

  /** The event types whose element must carry a node attribute. */
  predicate NeedsNode(t: EventType) {
    t == Delete || t == Items || t == Purge
  }

  predicate IsEventElement(e: Element) {
    e.tag == "event" && e.ns == Namespaces.PUBSUB_EVENT
  }

  /** The search loop of isPubSubEvent over the <event/> children from
      position `start` on: the first one in the pubsub-event namespace. */
  function EventFrom(children: seq<Element>, start: nat): (r: Option<nat>)
    requires start <= |children|
    ensures r.Some? ==> start <= r.value < |children| && IsEventElement(children[r.value])
    ensures r.Some? ==> forall j :: start <= j < r.value ==> !IsEventElement(children[j])
    ensures r.None? <==> forall j :: start <= j < |children| ==> !IsEventElement(children[j])
    decreases |children| - start
  {
    if start == |children| then None
    else if IsEventElement(children[start]) then Some(start)
    else EventFrom(children, start + 1)
  }

  /** The <event/> child isPubSubEvent uses: the first in the pubsub-event
      namespace, an <event/> in another namespace being skipped. */
  function EventElement(stanza: Element): Option<Element> {
    match EventFrom(stanza.children, 0)
    case None => None
    case Some(i) => Some(stanza.children[i])
  }

  /** The payload check for the items of an Items event: every <item/>
      child passes. */
  predicate ItemsAccepted(typeElement: Element, isItemValid: Element -> bool) {
    forall i :: 0 <= i < |typeElement.children| && typeElement.children[i].tag == "item" ==>
      isItemValid(typeElement.children[i])
  }

  /** The content check of isPubSubEvent for the event type `t`. */
  predicate ContentAccepted(t: EventType, typeElement: Element, isItemValid: Element -> bool) {
    match t
    case Delete =>
      (match FirstNamed(typeElement, "redirect")
       case None => true
       case Some(redirect) => HasAttribute(redirect, "uri"))
    case Items => ItemsAccepted(typeElement, isItemValid)
    case Subscription => Sub.IsSubscription(typeElement)
    case Configuration => true
    case Purge => true
  }

  /** isPubSubEvent(stanza, isItemValid). */
  predicate IsPubSubEvent(stanza: Element, isItemValid: Element -> bool) {
    if stanza.tag != "message" then false
    else match EventElement(stanza)
      case None => false
      case Some(event) =>
        match EventTypeOf(TagOf(FirstChild(event)))
        case None => false
        case Some(t) =>
          var typeElement := FirstChild(event).value;
          (NeedsNode(t) ==> HasAttribute(typeElement, "node")) && ContentAccepted(t, typeElement, isItemValid)
  }

  /** QXmppPubSubEvent<QXmppPubSubItem>::isPubSubEvent: items are checked
      with the base item's isItem. */
  predicate IsPubSubItemEvent(stanza: Element) {
    IsPubSubEvent(stanza, Itm.IsItem)
  }

  /** A laxer item check accepts at least the same events. */
  lemma IsPubSubEventMonotone(stanza: Element, strict: Element -> bool, lax: Element -> bool)
    requires forall e :: strict(e) ==> lax(e)
    ensures IsPubSubEvent(stanza, strict) ==> IsPubSubEvent(stanza, lax)
  {
  }

  /** What isPubSubEvent accepts: a message whose first <event/> in the
      pubsub-event namespace starts with an element naming an event type;
      Delete, Items and Purge carry a node; a Delete redirect carries a uri;
      every item of an Items event passes the check; a Subscription event
      is a valid subscription. */
  lemma IsPubSubEventRules(stanza: Element, isItemValid: Element -> bool)
    requires IsPubSubEvent(stanza, isItemValid)
    ensures stanza.tag == "message" && EventElement(stanza).Some?
    ensures var event := EventElement(stanza).value;
      && IsEventElement(event) && event in stanza.children
      && FirstChild(event).Some?
      && FirstChild(event).value.tag in PUBSUB_EVENTS
    ensures var typeElement := FirstChild(EventElement(stanza).value).value;
      var t := EventTypeOf(typeElement.tag).value;
      && (NeedsNode(t) ==> HasAttribute(typeElement, "node"))
      && (t == Delete && FirstNamed(typeElement, "redirect").Some? ==> HasAttribute(FirstNamed(typeElement, "redirect").value, "uri"))
      && (t == Items ==> forall i :: 0 <= i < |typeElement.children| && typeElement.children[i].tag == "item" ==> isItemValid(typeElement.children[i]))
      && (t == Subscription ==> Sub.IsSubscription(typeElement))
  {
    var event := EventElement(stanza).value;
    var typeElement := FirstChild(event).value;
    EventTypeCodec(EventTypeOf(typeElement.tag).value, typeElement.tag);
  }

  /** The state of an event: the private data of the base class plus the
      item list of QXmppPubSubEvent<QXmppPubSubItem>.  The configuration form
      is not part of the model. */
  datatype EventFields = EventFields(
    eventType: EventType,
    node: string,
    retractIds: seq<string>,
    redirectUri: string,
    subscription: Option<Sub.Subscription>,
    items: seq<Itm.Item>)

  /** A default-constructed event: an Items event without a node. */
  const DEFAULT_EVENT := EventFields(Items, "", [], "", None, [])

  /** What parseExtension did with an element. */
  datatype Outcome =
    | Parsed     // an event extension, read into the fields
    | Rejected   // an event extension whose first child names no event type
    | Delegated  // another extension, handed to the message's own parser

  predicate IsRetract(e: Element) {
    e.tag == "retract"
  }

  function RetractId(e: Element): string {
    Attribute(e, "id")
  }

  /** The ids of the <retract/> children, in document order. */
  function RetractIds(children: seq<Element>): seq<string> {
    Keep(children, IsRetract, RetractId)
  }

  /** parseItems: every <item/> child, parsed, in document order. */
  function EventItems(children: seq<Element>): seq<Itm.Item> {
    Keep(children, Itm.IsItem, Itm.Parse)
  }

  /** The subscription a Subscription event carries, parsed into a default
      subscription. */
  function ParseSubscription(e: Element): Sub.Subscription {
    Sub.Parse(Sub.DEFAULT_SUBSCRIPTION, e)
  }

  /** What parseExtension does to the fields once the event type `t` of the
      event-type element is known: the node for every type but Subscription,
      then the content of the type.  Retract ids and items are appended. */
  function ParseTyped(f: EventFields, t: EventType, typeElement: Element): EventFields {
    match t
    case Configuration => EventFields(t, Attribute(typeElement, "node"), f.retractIds, f.redirectUri, f.subscription, f.items)
    case Delete =>
      EventFields(t, Attribute(typeElement, "node"), f.retractIds,
        (match FirstNamed(typeElement, "redirect")
         case None => f.redirectUri
         case Some(redirect) => Attribute(redirect, "uri")),
        f.subscription, f.items)
    case Items =>
      EventFields(t, Attribute(typeElement, "node"), f.retractIds + RetractIds(typeElement.children),
        f.redirectUri, f.subscription, f.items + EventItems(typeElement.children))
    case Purge => EventFields(t, Attribute(typeElement, "node"), f.retractIds, f.redirectUri, f.subscription, f.items)
    case Subscription => EventFields(t, f.node, f.retractIds, f.redirectUri, Some(ParseSubscription(typeElement)), f.items)
  }

  /** parseExtension's effect on the fields: only an event extension whose
      first child names an event type changes anything. */
  function ParseExtensionFields(f: EventFields, e: Element): EventFields {
    if !IsEventElement(e) then f
    else match EventTypeOf(TagOf(FirstChild(e)))
      case None => f
      case Some(t) => ParseTyped(f, t, FirstChild(e).value)
  }

  /** parseExtension's answer. */
  function ExtensionOutcome(e: Element): Outcome {
    if !IsEventElement(e) then Delegated
    else if EventTypeOf(TagOf(FirstChild(e))).None? then Rejected
    else Parsed
  }

  /** A parsed event has the type its element names, and keeps the node of a
      Subscription event; a rejected or delegated element changes nothing. */
  lemma ParseExtensionRules(f: EventFields, e: Element)
    ensures ExtensionOutcome(e) != Parsed ==> ParseExtensionFields(f, e) == f
    ensures ExtensionOutcome(e) == Parsed ==>
      && ParseExtensionFields(f, e).eventType == EventTypeOf(FirstChild(e).value.tag).value
      && EventTag(ParseExtensionFields(f, e).eventType) == FirstChild(e).value.tag
    ensures ParseExtensionFields(f, e).eventType == Subscription ==> ParseExtensionFields(f, e).node == f.node
    ensures |ParseExtensionFields(f, e).retractIds| >= |f.retractIds|
    ensures ParseExtensionFields(f, e).retractIds[..|f.retractIds|] == f.retractIds
  {
    if ExtensionOutcome(e) == Parsed {
      var tag := FirstChild(e).value.tag;
      EventTypeCodec(EventTypeOf(tag).value, tag);
    }
  }

  function ItemWriter(ns: string): Itm.Item -> Element {
    item => Itm.ToXml(item, ns)
  }

  /** A <retract/> with its id, written even when empty. */
  function RetractXml(id: string): Element {
    Leaf("retract", Namespaces.PUBSUB_EVENT, map["id" := id])
  }

  function ItemsXml(items: seq<Itm.Item>): seq<Element> {
    Map(items, ItemWriter(Namespaces.PUBSUB_EVENT))
  }

  function RetractsXml(ids: seq<string>): seq<Element> {
    Map(ids, RetractXml)
  }

  /** The node attribute: always for Delete, Items and Purge, only when
      non-empty for Configuration, never for Subscription. */
  function NodeAttributes(t: EventType, node: string): map<string, string> {
    if NeedsNode(t) then map["node" := node]
    else if t == Configuration then AddAttribute(map[], "node", node)
    else map[]
  }

  /** The <redirect/> of a Delete event, written when the uri is not empty. */
  function RedirectXml(uri: string): seq<Element> {
    if uri == "" then [] else [Leaf("redirect", Namespaces.PUBSUB_EVENT, map["uri" := uri])]
  }

  /** The content of the event-type element: a Delete writes its redirect
      and then, falling through, the items and retract ids as an Items event
      does. */
  function TypedContent(f: EventFields): seq<Element> {
    match f.eventType
    case Delete => RedirectXml(f.redirectUri) + ItemsXml(f.items) + RetractsXml(f.retractIds)
    case Items => ItemsXml(f.items) + RetractsXml(f.retractIds)
    case Configuration => []
    case Purge => []
    case Subscription => []
  }

  /** serializeExtensions: the <event/> element.  A Subscription event with a
      subscription is the subscription element itself. */
  function SerializeEvent(f: EventFields): Element {
    var ns := Namespaces.PUBSUB_EVENT;
    var child :=
      if f.eventType == Subscription && f.subscription.Some? then Sub.ToXml(f.subscription.value, ns)
      else Element(EventTag(f.eventType), ns, NodeAttributes(f.eventType, f.node), TypedContent(f), "");
    Element("event", ns, map[], [child], "")
  }

  /** A message holding the event as its one extension. */
  function MessageOf(event: Element): Element {
    Element("message", "", map[], [event], "")
  }

  /** What survives a trip through the wire into a default event: the node
      of every type but Subscription, the redirect of a Delete, the items and
      retract ids of an Items event (a Delete writes them but they are not
      read back), and a subscription without its configuration support. */
  function CarriedEvent(f: EventFields): EventFields {
    match f.eventType
    case Configuration => EventFields(Configuration, f.node, [], "", None, [])
    case Delete => EventFields(Delete, f.node, [], f.redirectUri, None, [])
    case Items => EventFields(Items, f.node, f.retractIds, "", None, f.items)
    case Purge => EventFields(Purge, f.node, [], "", None, [])
    case Subscription =>
      EventFields(Subscription, "", [], "", Some(
        match f.subscription
        case None => Sub.DEFAULT_SUBSCRIPTION
        case Some(s) => s.(configurationSupport := Sub.Unavailable)), [])
  }

  /** The event-type element serializeExtensions writes. */
  function TypeElement(f: EventFields): Element {
    FirstChild(SerializeEvent(f)).value
  }

  lemma TypeElementIs(f: EventFields)
    ensures TypeElement(f) == SerializeEvent(f).children[0]
    ensures FirstChild(SerializeEvent(f)) == Some(TypeElement(f))
  {
  }

  /** The written event-type element names the event type. */
  lemma TypeElementNamesType(f: EventFields)
    ensures EventTypeOf(TypeElement(f).tag) == Some(f.eventType)
  {
    var tag := TypeElement(f).tag;
    if f.eventType == Subscription && f.subscription.Some? {
      assert tag == "subscription";
      assert EventTag(Subscription) == "subscription";
    } else {
      assert tag == EventTag(f.eventType);
    }
    EventTypeCodec(f.eventType, tag);
  }

  /** The node attribute reads back as the node for every type that writes
      it, and is present for the types that need it. */
  lemma NodeAttributesRead(t: EventType, node: string)
    requires t != Subscription
    ensures Attribute(Leaf("", "", NodeAttributes(t, node)), "node") == node
    ensures NeedsNode(t) ==> HasAttribute(Leaf("", "", NodeAttributes(t, node)), "node")
  {
    if t == Configuration {
      AddedAttributeReads(Leaf("", "", NodeAttributes(t, node)), map[], "node", node);
    }
  }

  /** Serializing an event and parsing it into a default event gives back
      every field the event type carries. */
  lemma EventRoundTrip(f: EventFields)
    ensures ExtensionOutcome(SerializeEvent(f)) == Parsed
    ensures ParseExtensionFields(DEFAULT_EVENT, SerializeEvent(f)) == CarriedEvent(f)
  {
    var e := SerializeEvent(f);
    TypeElementIs(f);
    TypeElementNamesType(f);
    var te := TypeElement(f);
    assert ParseExtensionFields(DEFAULT_EVENT, e) == ParseTyped(DEFAULT_EVENT, f.eventType, te);
    match f.eventType
    case Subscription => SubscriptionRoundTrip(f);
    case Items => ItemsRoundTrip(f);
    case Delete => DeleteRoundTrip(f);
    case Configuration => NodeAttributesRead(f.eventType, f.node);
    case Purge => NodeAttributesRead(f.eventType, f.node);
  }

  lemma SubscriptionRoundTrip(f: EventFields)
    requires f.eventType == Subscription
    ensures ParseTyped(DEFAULT_EVENT, Subscription, TypeElement(f)) == CarriedEvent(f)
  {
    match f.subscription
    case Some(s) =>
      Sub.ParseToXml(Sub.DEFAULT_SUBSCRIPTION, s);
    case None =>
      Sub.StateCodec(Sub.Invalid, "");
      assert Sub.StateToString(Sub.Invalid) == "";
  }

  /** The items and retract ids written for an Items or Delete event read
      back, whatever precedes them. */
  lemma ListsReadBack(f: EventFields, prefix: seq<Element>)
    requires forall i :: 0 <= i < |prefix| ==> !Itm.IsItem(prefix[i]) && !IsRetract(prefix[i])
    ensures EventItems(prefix + ItemsXml(f.items) + RetractsXml(f.retractIds)) == f.items
    ensures RetractIds(prefix + ItemsXml(f.items) + RetractsXml(f.retractIds)) == f.retractIds
  {
    var lists := ItemsXml(f.items) + RetractsXml(f.retractIds);
    assert prefix + ItemsXml(f.items) + RetractsXml(f.retractIds) == prefix + lists;
    KeepAppend(prefix, lists, Itm.IsItem, Itm.Parse);
    KeepAppend(prefix, lists, IsRetract, RetractId);
    KeepNone(prefix, Itm.IsItem, Itm.Parse);
    KeepNone(prefix, IsRetract, RetractId);
    ItemsAndRetractsReadBack(f.items, f.retractIds);
  }

  /** Items followed by retracts read back as the items and the ids. */
  lemma ItemsAndRetractsReadBack(items: seq<Itm.Item>, ids: seq<string>)
    ensures EventItems(ItemsXml(items) + RetractsXml(ids)) == items
    ensures RetractIds(ItemsXml(items) + RetractsXml(ids)) == ids
  {
    ItemsWrittenReadBack(items);
    RetractsWrittenReadBack(ids);
    KeepAppend(ItemsXml(items), RetractsXml(ids), Itm.IsItem, Itm.Parse);
    KeepAppend(ItemsXml(items), RetractsXml(ids), IsRetract, RetractId);
  }

  /** Among the written items only items are kept, and they parse back. */
  lemma ItemsWrittenReadBack(items: seq<Itm.Item>)
    ensures EventItems(ItemsXml(items)) == items
    ensures RetractIds(ItemsXml(items)) == []
  {
    var write := ItemWriter(Namespaces.PUBSUB_EVENT);
    forall i | 0 <= i < |items|
      ensures Itm.IsItem(write(items[i])) && Itm.Parse(write(items[i])) == items[i]
    {
      Itm.ParseToXml(items[i], Namespaces.PUBSUB_EVENT);
    }
    KeepAfterMapInverse(items, write, Itm.IsItem, Itm.Parse);
    KeepNone(ItemsXml(items), IsRetract, RetractId);
  }

  /** Among the written retracts only retracts are kept, and their ids read
      back. */
  lemma RetractsWrittenReadBack(ids: seq<string>)
    ensures RetractIds(RetractsXml(ids)) == ids
    ensures EventItems(RetractsXml(ids)) == []
  {
    KeepAfterMapInverse(ids, RetractXml, IsRetract, RetractId);
    KeepNone(RetractsXml(ids), Itm.IsItem, Itm.Parse);
  }

  lemma ItemsRoundTrip(f: EventFields)
    requires f.eventType == Items
    ensures ParseTyped(DEFAULT_EVENT, Items, TypeElement(f)) == CarriedEvent(f)
  {
    NodeAttributesRead(Items, f.node);
    ItemsAndRetractsReadBack(f.items, f.retractIds);
  }

  lemma DeleteRoundTrip(f: EventFields)
    requires f.eventType == Delete
    ensures ParseTyped(DEFAULT_EVENT, Delete, TypeElement(f)) == CarriedEvent(f)
  {
    NodeAttributesRead(Delete, f.node);
    var te := TypeElement(f);
    if f.redirectUri != "" {
      assert te.children[0].tag == "redirect";
      assert Named(te.children, "redirect")[0] == te.children[0] by {
        NamedFirst(te.children, "redirect");
      }
    }
  }

  /** A Delete event writes the items and retract ids it holds, though the
      parser reads neither back for a Delete. */
  lemma DeleteWritesItems(f: EventFields)
    requires f.eventType == Delete
    ensures EventItems(TypeElement(f).children) == f.items
    ensures RetractIds(TypeElement(f).children) == f.retractIds
  {
    var redirect := RedirectXml(f.redirectUri);
    ListsReadBack(f, redirect);
  }

  /** Every event serializeExtensions writes passes isPubSubEvent once
      wrapped in a message, provided the item check accepts the written items
      and a Subscription event holds a subscription. */
  lemma SerializedEventAccepted(f: EventFields, isItemValid: Element -> bool)
    requires f.eventType == Items || f.eventType == Delete ==>
      forall i :: 0 <= i < |f.items| ==> isItemValid(Itm.ToXml(f.items[i], Namespaces.PUBSUB_EVENT))
    requires f.eventType == Subscription ==> f.subscription.Some?
    ensures IsPubSubEvent(MessageOf(SerializeEvent(f)), isItemValid)
  {
    SerializedEventChecks(f, isItemValid);
    match f.eventType
    case Subscription => Sub.ToXmlIsSubscription(f.subscription.value, Namespaces.PUBSUB_EVENT);
    case Items => ListEventAccepted(f, isItemValid);
    case Delete => ListEventAccepted(f, isItemValid);
    case Configuration => NodeAttributesRead(f.eventType, f.node);
    case Purge => NodeAttributesRead(f.eventType, f.node);
  }

  /** The node and content checks pass on a written Items or Delete
      element. */
  lemma ListEventAccepted(f: EventFields, isItemValid: Element -> bool)
    requires f.eventType == Items || f.eventType == Delete
    requires forall i :: 0 <= i < |f.items| ==> isItemValid(Itm.ToXml(f.items[i], Namespaces.PUBSUB_EVENT))
    ensures HasAttribute(TypeElement(f), "node") && ContentAccepted(f.eventType, TypeElement(f), isItemValid)
  {
    NodeAttributesRead(f.eventType, f.node);
    WrittenItemsAccepted(f, isItemValid);
    if f.eventType == Delete && f.redirectUri != "" {
      NamedFirst(TypeElement(f).children, "redirect");
    }
  }

  /** isPubSubEvent on a written event comes down to the node and content
      checks on the written event-type element. */
  lemma SerializedEventChecks(f: EventFields, isItemValid: Element -> bool)
    ensures IsPubSubEvent(MessageOf(SerializeEvent(f)), isItemValid) <==>
      (NeedsNode(f.eventType) ==> HasAttribute(TypeElement(f), "node")) && ContentAccepted(f.eventType, TypeElement(f), isItemValid)
  {
    var stanza := MessageOf(SerializeEvent(f));
    assert EventFrom(stanza.children, 0) == Some(0);
    TypeElementIs(f);
    TypeElementNamesType(f);
  }

  /** The <item/> children of an Items or Delete element are the written
      items, which the check accepts. */
  lemma WrittenItemsAccepted(f: EventFields, isItemValid: Element -> bool)
    requires f.eventType == Items || f.eventType == Delete
    requires forall i :: 0 <= i < |f.items| ==> isItemValid(Itm.ToXml(f.items[i], Namespaces.PUBSUB_EVENT))
    requires f.eventType != Subscription
    ensures ItemsAccepted(TypeElement(f), isItemValid)
  {
    var te := TypeElement(f);
    var redirect := if f.eventType == Delete then RedirectXml(f.redirectUri) else [];
    var items := ItemsXml(f.items);
    var retracts := RetractsXml(f.retractIds);
    assert te.children == redirect + items + retracts;
    forall j | 0 <= j < |te.children|
      ensures te.children[j].tag == "item" ==> isItemValid(te.children[j])
    {
      ConcatIndex(redirect, items, retracts, j);
    }
  }

  lemma ConcatIndex<T>(a: seq<T>, b: seq<T>, c: seq<T>, j: nat)
    requires j < |a| + |b| + |c|
    ensures (a + b + c)[j] == if j < |a| then a[j] else if j < |a| + |b| then b[j - |a|] else c[j - |a| - |b|]
  {
  }

  /** A Subscription event without a subscription is written as an empty
      <subscription/>, which lacks the jid isSubscription demands. */
  lemma SubscriptionEventWithoutSubscriptionRejected(f: EventFields, isItemValid: Element -> bool)
    requires f.eventType == Subscription && f.subscription.None?
    ensures !IsPubSubEvent(MessageOf(SerializeEvent(f)), isItemValid)
  {
    SerializedEventChecks(f, isItemValid);
    assert !HasAttribute(TypeElement(f), "jid");
  }

  /** QXmppPubSubEvent<QXmppPubSubItem>: the event object whose parser
      updates its fields in place. */
  class Event {
    var eventType: EventType
    var node: string
    var retractIds: seq<string>
    var redirectUri: string
    var subscription: Option<Sub.Subscription>
    var items: seq<Itm.Item>

    function Fields(): EventFields
      reads this
    {
      EventFields(eventType, node, retractIds, redirectUri, subscription, items)
    }

    /** QXmppPubSubEventBase(type, node): nothing else set. */
    constructor(t: EventType, node: string)
      ensures Fields() == EventFields(t, node, [], "", None, [])
    {
      eventType := t;
      this.node := node;
      retractIds := [];
      redirectUri := "";
      subscription := None;
      items := [];
    }

    /** parseExtension: an <event/> in the pubsub-event namespace is read
        into the fields, and rejected when its first child names no event
        type; any other extension is handed on untouched. */
    method ParseExtension(e: Element) returns (outcome: Outcome)
      modifies this
      ensures outcome == ExtensionOutcome(e)
      ensures Fields() == ParseExtensionFields(old(Fields()), e)
    {
      if !(e.tag == "event" && e.ns == Namespaces.PUBSUB_EVENT) {
        return Delegated;
      }
      var typeElement := FirstChild(e);
      var parsedType := EventTypeOf(TagOf(typeElement));
      if parsedType.None? {
        return Rejected;
      }
      var t := parsedType.value;
      var te := typeElement.value;
      eventType := t;
      if t != Subscription {
        node := Attribute(te, "node");
      }
      match t {
        case Delete =>
          var redirect := FirstNamed(te, "redirect");
          if redirect.Some? {
            redirectUri := Attribute(redirect.value, "uri");
          }
        case Items =>
          items := AppendKept(items, te.children, Itm.IsItem, Itm.Parse);
          retractIds := AppendKept(retractIds, te.children, IsRetract, RetractId);
        case Subscription =>
          subscription := Some(ParseSubscription(te));
        case Configuration =>
        case Purge =>
      }
      return Parsed;
    }

    /** serializeExtensions: the <event/> element, items and retract ids
        written one by one in order. */
    method SerializeExtensions() returns (event: Element)
      ensures event == SerializeEvent(Fields())
    {
      var ns := Namespaces.PUBSUB_EVENT;
      var child: Element;
      if eventType == Subscription && subscription.Some? {
        child := Sub.ToXml(subscription.value, ns);
      } else {
        var content := WriteContent();
        child := Element(EventTag(eventType), ns, NodeAttributes(eventType, node), content, "");
      }
      event := Element("event", ns, map[], [child], "");
    }

    /** The content of the event-type element: the redirect of a Delete,
        then for a Delete or an Items event each item and each retract id in
        order. */
    method WriteContent() returns (content: seq<Element>)
      ensures content == TypedContent(Fields())
    {
      var ns := Namespaces.PUBSUB_EVENT;
      if eventType == Delete || eventType == Items {
        var written := MapInOrder(items, ItemWriter(ns));
        var retracts := MapInOrder(retractIds, RetractXml);
        if eventType == Delete {
          var redirect: seq<Element> := [];
          if redirectUri != "" {
            redirect := [Leaf("redirect", ns, map["uri" := redirectUri])];
          }
          content := redirect + written + retracts;
        } else {
          content := written + retracts;
        }
      } else {
        content := [];
      }
    }
  }
}

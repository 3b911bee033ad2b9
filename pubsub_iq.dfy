/** A publish-subscribe IQ (XEP-0060): a <pubsub/> element holding one query
    element whose tag and namespace give the query type, with the query's
    jid, node and subscription id, and the affiliations, subscriptions and
    items it carries. */
module PubSubIq {
  import opened Wrappers
  import opened Dom
  import opened StringTable
  import opened Decimal
  import Namespaces
  import Itm = PubSubItem
  import Aff = PubSubAffiliation
  import Sub = PubSubSubscription
  import opened Lists

  datatype QueryType =
    | Affiliations | OwnerAffiliations | Configure | Create | Default | OwnerDefault
    | Delete | Items | Options | Publish | Purge | Retract | Subscribe
    | Subscription | Subscriptions | OwnerSubscriptions | Unsubscribe

  /** PUBSUB_QUERIES, indexed by the enum's numeric value; the owner variants
      share the tag of their user-side counterpart. */
  const QUERIES: seq<string> := [
    "affiliations", "affiliations", "configure", "create", "default", "default",
    "delete", "items", "options", "publish", "purge", "retract", "subscribe",
    "subscription", "subscriptions", "subscriptions", "unsubscribe"]

  function Ordinal(t: QueryType): (i: nat)
    ensures i < |QUERIES|
  {
    match t
    case Affiliations => 0
    case OwnerAffiliations => 1
    case Configure => 2
    case Create => 3
    case Default => 4
    case OwnerDefault => 5
    case Delete => 6
    case Items => 7
    case Options => 8
    case Publish => 9
    case Purge => 10
    case Retract => 11
    case Subscribe => 12
    case Subscription => 13
    case Subscriptions => 14
    case OwnerSubscriptions => 15
    case Unsubscribe => 16
  }

  /** QueryType(index). */
  function FromOrdinal(i: nat): (t: QueryType)
    requires i < |QUERIES|
    ensures Ordinal(t) == i
  {
    [Affiliations, OwnerAffiliations, Configure, Create, Default, OwnerDefault,
     Delete, Items, Options, Publish, Purge, Retract, Subscribe,
     Subscription, Subscriptions, OwnerSubscriptions, Unsubscribe][i]
  }

  lemma FromOrdinalOrdinal(t: QueryType)
    ensures FromOrdinal(Ordinal(t)) == t
  {
  }

  /** The tag the serializer writes for a query type. */
  function QueryTag(t: QueryType): string {
    QUERIES[Ordinal(t)]
  }

  /** The owner variant the owner namespace turns a type into. */
  function OwnerVariant(t: QueryType): QueryType {
    match t
    case Affiliations => OwnerAffiliations
    case Default => OwnerDefault
    case Subscriptions => OwnerSubscriptions
    case _ => t
  }

  /** queryTypeFromDomElement: the first table entry with the tag, moved to
      its owner variant in the pubsub#owner namespace. */
  function QueryTypeOf(tag: string, ns: string): Option<QueryType> {
    match IndexOf(QUERIES, tag)
    case None => None
    case Some(i) =>
      var t := FromOrdinal(i);
      if ns != Namespaces.PUBSUB_OWNER then Some(t) else Some(OwnerVariant(t))
  }

  /** queryTypeIsOwnerIq. */
  predicate IsOwnerIq(t: QueryType) {
    match t
    case OwnerAffiliations | OwnerSubscriptions | OwnerDefault | Configure | Delete | Purge => true
    case _ => false
  }

  /** The namespace the serializer writes for a query type. */
  function QueryNamespace(t: QueryType): string {
    if IsOwnerIq(t) then Namespaces.PUBSUB_OWNER else Namespaces.PUBSUB
  }

  /** The types the owner namespace produces in place of their user-side
      counterpart. */
  predicate IsOwnerVariant(t: QueryType) {
    t == OwnerAffiliations || t == OwnerDefault || t == OwnerSubscriptions
  }

  /** The user-side types that have an owner variant. */
  predicate HasOwnerVariant(t: QueryType) {
    t == Affiliations || t == Default || t == Subscriptions
  }

  /** The user-side type whose tag an owner variant shares. */
  function UserVariant(t: QueryType): QueryType {
    match t
    case OwnerAffiliations => Affiliations
    case OwnerDefault => Default
    case OwnerSubscriptions => Subscriptions
    case _ => t
  }

  /** Within the table, no entry before the user-side variant repeats its
      tag, and the owner variants repeat the tag of their user-side variant. */
  lemma FirstOccurrence(t: QueryType)
    ensures QUERIES[Ordinal(UserVariant(t))] == QueryTag(t)
    ensures forall j :: 0 <= j < Ordinal(UserVariant(t)) ==> QUERIES[j] != QueryTag(t)
  {
  }

  /** The table lookup of a written tag lands on the user-side variant. */
  lemma IndexOfQueryTag(t: QueryType)
    ensures IndexOf(QUERIES, QueryTag(t)) == Some(Ordinal(UserVariant(t)))
  {
    FirstOccurrence(t);
    IndexOfFirst(QUERIES, QueryTag(t), Ordinal(UserVariant(t)));
  }

  /** QueryTypeOf once the table position of the tag is known. */
  lemma QueryTypeAt(tag: string, ns: string, i: nat)
    requires IndexOf(QUERIES, tag) == Some(i)
    ensures QueryTypeOf(tag, ns) == Some(if ns != Namespaces.PUBSUB_OWNER then FromOrdinal(i) else OwnerVariant(FromOrdinal(i)))
  {
  }

  /** The owner namespace undoes UserVariant for the owner types, and the
      other types are their own user-side variant. */
  lemma VariantsInverse(t: QueryType)
    ensures IsOwnerIq(t) ==> OwnerVariant(UserVariant(t)) == t
    ensures !IsOwnerIq(t) ==> UserVariant(t) == t
  {
  }

  /** The tag and namespace the serializer writes parse back to the same
      query type, for all seventeen types. */
  lemma QueryTypeRoundTrip(t: QueryType)
    ensures QueryTypeOf(QueryTag(t), QueryNamespace(t)) == Some(t)
  {
    var u := UserVariant(t);
    IndexOfQueryTag(t);
    QueryTypeAt(QueryTag(t), QueryNamespace(t), Ordinal(u));
    FromOrdinalOrdinal(u);
    VariantsInverse(t);
  }

  /** An unknown tag gives no type; outside the owner namespace the owner
      variants never come out, and inside it their user-side counterparts
      never do. */
  lemma QueryTypeOfRules(tag: string, ns: string)
    ensures QueryTypeOf(tag, ns).None? <==> tag !in QUERIES
    ensures ns != Namespaces.PUBSUB_OWNER && QueryTypeOf(tag, ns).Some? ==>
      !IsOwnerVariant(QueryTypeOf(tag, ns).value)
    ensures QueryTypeOf(tag, Namespaces.PUBSUB_OWNER).Some? ==>
      !HasOwnerVariant(QueryTypeOf(tag, Namespaces.PUBSUB_OWNER).value)
  {
    match IndexOf(QUERIES, tag)
    case None =>
    case Some(i) =>
      QueryTypeAt(tag, ns, i);
      QueryTypeAt(tag, Namespaces.PUBSUB_OWNER, i);
      FirstIndexIsUserSide(tag, i);
      OwnerVariantIsOwnerSide(FromOrdinal(i));
  }

  /** The first table position of a tag is never that of an owner variant. */
  lemma FirstIndexIsUserSide(tag: string, i: nat)
    requires IndexOf(QUERIES, tag) == Some(i)
    ensures !IsOwnerVariant(FromOrdinal(i))
  {
    FirstIndexNotRepeated(tag, i);
    UserSideOrdinals(i);
  }

  lemma FirstIndexNotRepeated(tag: string, i: nat)
    requires IndexOf(QUERIES, tag) == Some(i)
    ensures i != 1 && i != 5 && i != 15
  {
    IndexOfQueryTag(OwnerAffiliations);
    IndexOfQueryTag(OwnerDefault);
    IndexOfQueryTag(OwnerSubscriptions);
  }

  lemma UserSideOrdinals(i: nat)
    requires i < |QUERIES| && i != 1 && i != 5 && i != 15
    ensures !IsOwnerVariant(FromOrdinal(i))
  {
  }

  lemma OwnerVariantIsOwnerSide(t: QueryType)
    ensures !HasOwnerVariant(OwnerVariant(t))
  {
  }

  /** Query types whose query element must carry a node. */
  predicate NeedsNode(t: QueryType) {
    match t
    case OwnerAffiliations | Items | Publish | Retract | Delete | Purge => true
    case _ => false
  }

  /** Query types whose query element must carry a jid. */
  predicate NeedsJid(t: QueryType) {
    match t
    case Options | OwnerSubscriptions | Subscribe | Unsubscribe => true
    case _ => false
  }

  /** Query types that are only valid in the pubsub#owner namespace. */
  predicate NeedsOwnerNamespace(t: QueryType) {
    match t
    case Delete | Purge | Configure => true
    case _ => false
  }

  /** Query types that carry items. */
  predicate CarriesItems(t: QueryType) {
    match t
    case Items | Publish | Retract => true
    case _ => false
  }

  /** Query types that carry a subscription id. */
  predicate CarriesSubId(t: QueryType) {
    match t
    case Items | Unsubscribe | Options => true
    case _ => false
  }

  /** Query types that carry affiliations. */
  predicate CarriesAffiliations(t: QueryType) {
    t == Affiliations || t == OwnerAffiliations
  }

  /** Query types that carry subscriptions. */
  predicate CarriesSubscriptions(t: QueryType) {
    t == Subscriptions || t == OwnerSubscriptions
  }

  /** The common part of isPubSubIq: the first child of the IQ is a <pubsub/>
      in the pubsub or pubsub#owner namespace whose first child is a known
      query carrying the node and jid its type needs.  Gives the query type,
      the query element and whether the namespace is the owner one. */
  function CheckedQuery(iq: Element): Option<(QueryType, Element, bool)> {
    match FirstChild(iq)
    case None => None
    case Some(pubsub) =>
      if pubsub.tag != "pubsub" then None
      else
        var isOwner := pubsub.ns == Namespaces.PUBSUB_OWNER;
        if !isOwner && pubsub.ns != Namespaces.PUBSUB then None
        else match FirstChild(pubsub)
          case None => None
          case Some(query) =>
            match QueryTypeOf(query.tag, query.ns)
            case None => None
            case Some(t) =>
              if NeedsNode(t) && !HasAttribute(query, "node") then None
              else if NeedsJid(t) && !HasAttribute(query, "jid") then None
              else Some((t, query, isOwner))
  }

  /** Every item child passes the validator: the loop over
      firstChildElement("item") / nextSiblingElement("item"). */
  predicate ItemsValid(query: Element, isItemValid: Element -> bool) {
    var named := Named(query.children, "item");
    forall i :: 0 <= i < |named| ==> isItemValid(named[i])
  }

  /** isPubSubIq as written: the Subscription case has no `break`, so after
      the subscription check it falls into the owner-namespace check meant
      for Delete, Purge and Configure. */
  predicate IsPubSubIq(iq: Element, isItemValid: Element -> bool) {
    match CheckedQuery(iq)
    case None => false
    case Some((t, query, isOwner)) =>
      if CarriesItems(t) then ItemsValid(query, isItemValid)
      else if t == Subscription then Sub.IsSubscription(query) && isOwner
      else if NeedsOwnerNamespace(t) then isOwner
      else true
  }

  /** isPubSubIq with a `break` after the subscription check. */
  predicate IsPubSubIqCorrected(iq: Element, isItemValid: Element -> bool) {
    match CheckedQuery(iq)
    case None => false
    case Some((t, query, isOwner)) =>
      if CarriesItems(t) then ItemsValid(query, isItemValid)
      else if t == Subscription then Sub.IsSubscription(query)
      else if NeedsOwnerNamespace(t) then isOwner
      else true
  }

  /** The two differ only on Subscription queries. */
  lemma CorrectedDiffersOnlyOnSubscription(iq: Element, isItemValid: Element -> bool)
    requires CheckedQuery(iq).Some? && CheckedQuery(iq).value.0 != Subscription
    ensures IsPubSubIq(iq, isItemValid) == IsPubSubIqCorrected(iq, isItemValid)
  {
  }

  /** The validation rules isPubSubIq enforces. */
  lemma IsPubSubIqRules(iq: Element, isItemValid: Element -> bool)
    requires IsPubSubIq(iq, isItemValid)
    ensures FirstChild(iq).Some? && FirstChild(iq).value.tag == "pubsub"
    ensures (FirstChild(iq).value.ns == Namespaces.PUBSUB || FirstChild(iq).value.ns == Namespaces.PUBSUB_OWNER)
    ensures FirstChild(FirstChild(iq).value).Some?
    ensures var query := FirstChild(FirstChild(iq).value).value;
      var t := QueryTypeOf(query.tag, query.ns);
      && t.Some?
      && (NeedsNode(t.value) ==> HasAttribute(query, "node"))
      && (NeedsJid(t.value) ==> HasAttribute(query, "jid"))
      && (NeedsOwnerNamespace(t.value) || t.value == Subscription ==> FirstChild(iq).value.ns == Namespaces.PUBSUB_OWNER)
      && (CarriesItems(t.value) ==> ItemsValid(query, isItemValid))
      && (t.value == Subscription ==> Sub.IsSubscription(query))
  {
  }

  /** A validator that accepts more items accepts more IQs. */
  lemma IsPubSubIqMonotone(iq: Element, strict: Element -> bool, lax: Element -> bool)
    requires forall e :: strict(e) ==> lax(e)
    ensures IsPubSubIq(iq, strict) ==> IsPubSubIq(iq, lax)
  {
  }

  /** The state of a PubSub IQ: the private data of the base class plus the
      item list of QXmppPubSubIq<QXmppPubSubItem>.  maxItems is an unsigned
      int. */
  datatype IqFields = IqFields(
    queryType: QueryType,
    queryJid: string,
    queryNode: string,
    subscriptionId: string,
    subscriptions: seq<Sub.Subscription>,
    affiliations: seq<Aff.Affiliation>,
    maxItems: nat,
    items: seq<Itm.Item>)

  /** A default-constructed IQ: an Items query with nothing in it. */
  const DEFAULT_FIELDS := IqFields(Items, "", "", "", [], [], 0, [])

  /** subscription(): the first subscription, if any. */
  function FirstSubscription(f: IqFields): (r: Option<Sub.Subscription>)
    ensures r.Some? <==> |f.subscriptions| > 0
  {
    if |f.subscriptions| == 0 then None else Some(f.subscriptions[0])
  }

  /** The affiliations the parse loop keeps: the valid ones, in order. */
  function ParsedAffiliations(children: seq<Element>): seq<Aff.Affiliation> {
    Keep(children, Aff.IsAffiliation, Aff.Parse)
  }

  /** A subscription element parsed into a default subscription. */
  function ParseSubscription(e: Element): Sub.Subscription {
    Sub.Parse(Sub.DEFAULT_SUBSCRIPTION, e)
  }

  /** The subscriptions the parse loop keeps: the valid ones, each parsed
      into a default subscription, in order. */
  function ParsedSubscriptions(children: seq<Element>): seq<Sub.Subscription> {
    Keep(children, Sub.IsSubscription, ParseSubscription)
  }

  /** parseItems: every <item/> child, parsed, in order. */
  function ParsedItems(itemElements: seq<Element>): seq<Itm.Item> {
    Map(itemElements, Itm.Parse)
  }

  /** The query element: the first child of the first <pubsub/> child. */
  function QueryElement(iq: Element): Option<Element> {
    match FirstNamed(iq, "pubsub")
    case None => None
    case Some(pubsub) => FirstChild(pubsub)
  }

  /** What parseElementFromChild does to the fields once the query type `t`
      of query element `q` is known. */
  function ParseQuery(f: IqFields, t: QueryType, q: Element): IqFields {
    if t == Subscription then
      f.(queryType := t, subscriptions := [ParseSubscription(q)])
    else
      IqFields(t, Attribute(q, "jid"), Attribute(q, "node"),
        if CarriesSubId(t) then Attribute(q, "subid") else f.subscriptionId,
        f.subscriptions + (if CarriesSubscriptions(t) then ParsedSubscriptions(q.children) else []),
        f.affiliations + (if CarriesAffiliations(t) then ParsedAffiliations(q.children) else []),
        if t == Items then ToUInt(Attribute(q, "max_items")).GetOr(0) else f.maxItems,
        f.items + (if CarriesItems(t) then ParsedItems(Named(q.children, "item")) else []))
  }

  /** The query attributes parseElementFromChild reads before the content. */
  function ParseHeader(f: IqFields, t: QueryType, q: Element): IqFields {
    IqFields(t, Attribute(q, "jid"), Attribute(q, "node"),
      if CarriesSubId(t) then Attribute(q, "subid") else f.subscriptionId,
      f.subscriptions, f.affiliations, f.maxItems, f.items)
  }

  /** The content parseElementFromChild reads for the query type. */
  function ParseContent(f: IqFields, t: QueryType, q: Element): IqFields {
    if CarriesAffiliations(t) then
      f.(affiliations := f.affiliations + ParsedAffiliations(q.children))
    else if CarriesItems(t) then
      f.(maxItems := if t == Items then ToUInt(Attribute(q, "max_items")).GetOr(0) else f.maxItems,
         items := f.items + ParsedItems(Named(q.children, "item")))
    else if CarriesSubscriptions(t) then
      f.(subscriptions := f.subscriptions + ParsedSubscriptions(q.children))
    else f
  }

  /** Reading the header and then the content is reading the query: at most
      one list is read for any query type. */
  lemma ParseQuerySplit(f: IqFields, t: QueryType, q: Element)
    requires t != Subscription
    ensures ParseContent(ParseHeader(f, t, q), t, q) == ParseQuery(f, t, q)
  {
  }

  /** parseElementFromChild: nothing changes unless the query element names a
      query type. */
  function ParseFields(f: IqFields, iq: Element): IqFields {
    match QueryElement(iq)
    case None => f
    case Some(q) =>
      match QueryTypeOf(q.tag, q.ns)
      case None => f
      case Some(t) => ParseQuery(f, t, q)
  }

  /** The subscription id changes only for Items, Unsubscribe and Options
      queries, max_items only for Items queries (and only to an unsigned
      int), and the jid and node never for a Subscription query, which
      replaces the subscriptions with the one parsed. */
  lemma ParseFieldRules(f: IqFields, iq: Element)
    ensures var g := ParseFields(f, iq);
      && (g.subscriptionId != f.subscriptionId ==> CarriesSubId(g.queryType))
      && (g.maxItems != f.maxItems ==> g.queryType == Items && g.maxItems < UINT32_LIMIT)
      && (g.queryType == Subscription && g != f ==> g.queryJid == f.queryJid && g.queryNode == f.queryNode && |g.subscriptions| == 1)
  {
    match QueryElement(iq)
    case None =>
    case Some(q) =>
      match QueryTypeOf(q.tag, q.ns)
      case None =>
      case Some(t) => ParseQueryRules(f, t, q);
  }

  lemma ParseQueryRules(f: IqFields, t: QueryType, q: Element)
    ensures var g := ParseQuery(f, t, q);
      && g.queryType == t
      && (g.subscriptionId != f.subscriptionId ==> CarriesSubId(t))
      && (g.maxItems != f.maxItems ==> t == Items && g.maxItems < UINT32_LIMIT)
      && (t == Subscription ==> g.queryJid == f.queryJid && g.queryNode == f.queryNode && |g.subscriptions| == 1)
  {
  }

  /** The attributes of the query element: jid and node when non-empty, subid
      for the types that carry one, max_items for an Items query when it is
      positive. */
  function QueryAttributes(f: IqFields): map<string, string> {
    var located := AddAttribute(AddAttribute(map[], "jid", f.queryJid), "node", f.queryNode);
    var withSubId := if CarriesSubId(f.queryType) then AddAttribute(located, "subid", f.subscriptionId) else located;
    if f.queryType == Items && f.maxItems > 0 then withSubId["max_items" := NatToString(f.maxItems)] else withSubId
  }

  function AffiliationWriter(ns: string): Aff.Affiliation -> Element {
    a => Aff.ToXml(a, ns)
  }

  function ItemWriter(ns: string): Itm.Item -> Element {
    item => Itm.ToXml(item, ns)
  }

  function SubscriptionWriter(ns: string): Sub.Subscription -> Element {
    s => Sub.ToXml(s, ns)
  }

  /** The affiliations written one after the other. */
  function AffiliationsXml(affs: seq<Aff.Affiliation>, ns: string): seq<Element> {
    Map(affs, AffiliationWriter(ns))
  }

  /** serializeItems: the items written one after the other. */
  function ItemsXml(items: seq<Itm.Item>, ns: string): seq<Element> {
    Map(items, ItemWriter(ns))
  }

  /** The subscriptions written one after the other. */
  function SubscriptionsXml(subs: seq<Sub.Subscription>, ns: string): seq<Element> {
    Map(subs, SubscriptionWriter(ns))
  }

  /** The children of the query element. */
  function QueryContent(f: IqFields, ns: string): seq<Element> {
    if CarriesAffiliations(f.queryType) then AffiliationsXml(f.affiliations, ns)
    else if CarriesItems(f.queryType) then ItemsXml(f.items, ns)
    else if CarriesSubscriptions(f.queryType) then SubscriptionsXml(f.subscriptions, ns)
    else []
  }

  /** toXmlElementFromChild: the <pubsub/> element, in the owner namespace
      exactly for the owner query types.  A Subscription query is the
      subscription element itself (a default one when there is none). */
  function SerializeFields(f: IqFields): Element {
    var ns := QueryNamespace(f.queryType);
    if f.queryType == Subscription then
      Element("pubsub", ns, map[], [Sub.ToXml(FirstSubscription(f).GetOr(Sub.DEFAULT_SUBSCRIPTION), ns)], "")
    else
      Element("pubsub", ns, map[], [QueryXml(f)], "")
  }

  /** The IQ element around a payload; its own attributes are not modelled. */
  function IqOf(payload: Element): Element {
    Element("iq", "", map[], [payload], "")
  }

  /** The subid and max_items attributes are written only where the parser
      reads them. */
  lemma SerializedAttributeRules(f: IqFields)
    requires f.queryType != Subscription
    ensures "subid" in QueryAttributes(f) ==> CarriesSubId(f.queryType)
    ensures "max_items" in QueryAttributes(f) <==> f.queryType == Items && f.maxItems > 0
  {
  }

  /** Every Subscription IQ the serializer writes is rejected by isPubSubIq
      as written, although it passes every check before the content check:
      the subscription element is written in the pubsub namespace, and the
      missing `break` sends the Subscription case into the owner-namespace
      check. */
  lemma SubscriptionIqRejected(f: IqFields, isItemValid: Element -> bool)
    requires f.queryType == Subscription
    ensures CheckedQuery(IqOf(SerializeFields(f))).Some?
    ensures Sub.IsSubscription(FirstChild(FirstChild(IqOf(SerializeFields(f))).value).value)
    ensures !IsPubSubIq(IqOf(SerializeFields(f)), isItemValid)
  {
    var query := SerializedHeader(f);
    Sub.ToXmlIsSubscription(FirstSubscription(f).GetOr(Sub.DEFAULT_SUBSCRIPTION), Namespaces.PUBSUB);
  }

  /** With the `break` restored, every IQ the serializer writes passes the
      check, provided it carries the node and jid its type needs and its
      items pass the validator. */
  lemma SerializedIqValid(f: IqFields, isItemValid: Element -> bool)
    requires NeedsNode(f.queryType) ==> f.queryNode != ""
    requires NeedsJid(f.queryType) ==> f.queryJid != ""
    requires CarriesItems(f.queryType) ==>
      forall i :: 0 <= i < |f.items| ==> isItemValid(Itm.ToXml(f.items[i], QueryNamespace(f.queryType)))
    ensures IsPubSubIqCorrected(IqOf(SerializeFields(f)), isItemValid)
  {
    var t := f.queryType;
    var query := SerializedHeader(f);
    var iq := IqOf(SerializeFields(f));
    if t == Subscription {
      Sub.ToXmlIsSubscription(FirstSubscription(f).GetOr(Sub.DEFAULT_SUBSCRIPTION), QueryNamespace(t));
      CorrectedByContent(iq, isItemValid, t, query, false);
    } else if CarriesItems(t) {
      SerializedItemsValid(f, isItemValid, query);
      CorrectedByContent(iq, isItemValid, t, query, false);
    } else {
      CorrectedByContent(iq, isItemValid, t, query, IsOwnerIq(t));
    }
  }

  /** The written items pass the item loop of isPubSubIq. */
  lemma SerializedItemsValid(f: IqFields, isItemValid: Element -> bool, query: Element)
    requires CarriesItems(f.queryType) && query == QueryXml(f)
    requires forall i :: 0 <= i < |f.items| ==> isItemValid(Itm.ToXml(f.items[i], QueryNamespace(f.queryType)))
    ensures ItemsValid(query, isItemValid)
  {
    var ns := QueryNamespace(f.queryType);
    var children := ItemsXml(f.items, ns);
    assert query.children == children;
    ItemChildrenAllNamed(f.items, ns);
    forall i | 0 <= i < |children| ensures isItemValid(children[i]) {
      assert children[i] == Itm.ToXml(f.items[i], ns);
    }
  }

  /** isPubSubIq with the `break` restored, once the checks before the
      content check have passed. */
  lemma CorrectedByContent(iq: Element, isItemValid: Element -> bool, t: QueryType, query: Element, isOwner: bool)
    requires CheckedQuery(iq) == Some((t, query, isOwner))
    requires CarriesItems(t) ==> ItemsValid(query, isItemValid)
    requires t == Subscription ==> Sub.IsSubscription(query)
    requires NeedsOwnerNamespace(t) ==> isOwner
    ensures IsPubSubIqCorrected(iq, isItemValid)
  {
  }

  /** The serialized IQ passes the checks before the content check, with the
      written type and query element, in the namespace the type calls for. */
  lemma SerializedHeader(f: IqFields) returns (query: Element)
    requires NeedsNode(f.queryType) ==> f.queryNode != ""
    requires NeedsJid(f.queryType) ==> f.queryJid != ""
    ensures query == SerializeFields(f).children[0]
    ensures f.queryType != Subscription ==> query == QueryXml(f)
    ensures f.queryType == Subscription ==>
      query == Sub.ToXml(FirstSubscription(f).GetOr(Sub.DEFAULT_SUBSCRIPTION), Namespaces.PUBSUB)
    ensures CheckedQuery(IqOf(SerializeFields(f))) == Some((f.queryType, query, IsOwnerIq(f.queryType)))
  {
    if f.queryType == Subscription {
      query := SubscriptionHeader(f);
    } else {
      query := QueryHeader(f);
    }
  }

  lemma SubscriptionHeader(f: IqFields) returns (query: Element)
    requires f.queryType == Subscription
    ensures query == Sub.ToXml(FirstSubscription(f).GetOr(Sub.DEFAULT_SUBSCRIPTION), Namespaces.PUBSUB)
    ensures SerializeFields(f).children == [query]
    ensures CheckedQuery(IqOf(SerializeFields(f))) == Some((Subscription, query, false))
  {
    query := Sub.ToXml(FirstSubscription(f).GetOr(Sub.DEFAULT_SUBSCRIPTION), Namespaces.PUBSUB);
    var pubsub := SerializeFields(f);
    assert pubsub == Element("pubsub", Namespaces.PUBSUB, map[], [query], "");
    SubscriptionQueryType();
    CheckedQueryOf(IqOf(pubsub), pubsub, query, Subscription);
  }

  /** A <subscription/> in the pubsub namespace is a Subscription query. */
  lemma SubscriptionQueryType()
    ensures QueryTypeOf("subscription", Namespaces.PUBSUB) == Some(Subscription)
  {
    QueryTypeRoundTrip(Subscription);
    SubscriptionTag();
  }

  lemma SubscriptionTag()
    ensures QueryTag(Subscription) == "subscription"
  {
  }

  lemma QueryHeader(f: IqFields) returns (query: Element)
    requires f.queryType != Subscription
    requires NeedsNode(f.queryType) ==> f.queryNode != ""
    requires NeedsJid(f.queryType) ==> f.queryJid != ""
    ensures query == QueryXml(f)
    ensures SerializeFields(f).children == [query]
    ensures CheckedQuery(IqOf(SerializeFields(f))) == Some((f.queryType, query, IsOwnerIq(f.queryType)))
  {
    var t := f.queryType;
    var pubsub := SerializeFields(f);
    query := pubsub.children[0];
    QueryTypeRoundTrip(t);
    QueryAttributesRead(f);
    CheckedQueryOf(IqOf(pubsub), pubsub, query, t);
  }

  /** CheckedQuery once the <pubsub/> element, its query element and the
      query type are known. */
  lemma CheckedQueryOf(iq: Element, pubsub: Element, query: Element, t: QueryType)
    requires FirstChild(iq) == Some(pubsub) && pubsub.tag == "pubsub" && pubsub.ns == QueryNamespace(t)
    requires FirstChild(pubsub) == Some(query) && QueryTypeOf(query.tag, query.ns) == Some(t)
    requires NeedsNode(t) ==> HasAttribute(query, "node")
    requires NeedsJid(t) ==> HasAttribute(query, "jid")
    ensures CheckedQuery(iq) == Some((t, query, IsOwnerIq(t)))
  {
  }

  /** jid and node read back from the query attributes. */
  lemma QueryAttributesRead(f: IqFields)
    ensures "jid" in QueryAttributes(f) <==> f.queryJid != ""
    ensures "node" in QueryAttributes(f) <==> f.queryNode != ""
    ensures Attribute(Leaf("", "", QueryAttributes(f)), "jid") == f.queryJid
    ensures Attribute(Leaf("", "", QueryAttributes(f)), "node") == f.queryNode
    ensures CarriesSubId(f.queryType) ==> Attribute(Leaf("", "", QueryAttributes(f)), "subid") == f.subscriptionId
    ensures f.queryType == Items && f.maxItems > 0 ==> Attribute(Leaf("", "", QueryAttributes(f)), "max_items") == NatToString(f.maxItems)
    ensures !(f.queryType == Items && f.maxItems > 0) ==> "max_items" !in QueryAttributes(f)
  {
    var a1 := AddAttribute(map[], "jid", f.queryJid);
    var a2 := AddAttribute(a1, "node", f.queryNode);
    AddedAttributeReads(Leaf("", "", a1), map[], "jid", f.queryJid);
    AddedAttributeReads(Leaf("", "", a2), a1, "node", f.queryNode);
    if CarriesSubId(f.queryType) {
      AddedAttributeReads(Leaf("", "", AddAttribute(a2, "subid", f.subscriptionId)), a2, "subid", f.subscriptionId);
    }
  }

  /** Serialized items are all <item/> elements, so the item loop visits
      each of them. */
  lemma ItemChildrenAllNamed(items: seq<Itm.Item>, ns: string)
    ensures Named(ItemsXml(items, ns), "item") == ItemsXml(items, ns)
  {
    NamedAll(ItemsXml(items, ns), "item");
  }

  function WithoutExpiryEntry(s: Sub.Subscription): Sub.Subscription {
    s.(expiry := "")
  }

  function OwnerViewEntry(s: Sub.Subscription): Sub.Subscription {
    Sub.DEFAULT_SUBSCRIPTION.(jid := s.jid, state := s.state)
  }

  /** A subscription list without expiry times. */
  function WithoutExpiry(subs: seq<Sub.Subscription>): seq<Sub.Subscription> {
    Map(subs, WithoutExpiryEntry)
  }

  /** A subscription list reduced to the jid and state of each entry. */
  function OwnerView(subs: seq<Sub.Subscription>): seq<Sub.Subscription> {
    Map(subs, OwnerViewEntry)
  }

  /** What survives a trip through the wire: the fields the serializer writes
      for the query type and the parser reads back.  Subscriptions lose their
      expiry in the pubsub namespace and keep only jid and state in the owner
      namespace. */
  function Carried(f: IqFields): IqFields {
    var t := f.queryType;
    if t == Subscription then
      DEFAULT_FIELDS.(queryType := t,
        subscriptions := [FirstSubscription(f).GetOr(Sub.DEFAULT_SUBSCRIPTION).(expiry := "")])
    else
      IqFields(t, f.queryJid, f.queryNode,
        if CarriesSubId(t) then f.subscriptionId else "",
        if t == Subscriptions then WithoutExpiry(f.subscriptions)
        else if t == OwnerSubscriptions then OwnerView(f.subscriptions)
        else [],
        if CarriesAffiliations(t) then f.affiliations else [],
        if t == Items then f.maxItems else 0,
        if CarriesItems(t) then f.items else [])
  }

  /** The lists the serializer writes pass the element checks the parser
      applies: affiliations carry a node (user side) or a jid (owner side),
      owner-side subscriptions carry a state. */
  predicate ListsWellFormed(f: IqFields) {
    && (CarriesAffiliations(f.queryType) ==>
          forall i :: 0 <= i < |f.affiliations| ==> AffiliationWellFormed(f.affiliations[i], QueryNamespace(f.queryType)))
    && (f.queryType == OwnerSubscriptions ==> forall i :: 0 <= i < |f.subscriptions| ==> f.subscriptions[i].state != Sub.Invalid)
  }

  /** Parsing what the serializer wrote into a default IQ gives back every
      field the query type carries. */
  lemma IqRoundTrip(f: IqFields)
    requires f.maxItems < UINT32_LIMIT
    requires ListsWellFormed(f)
    ensures ParseFields(DEFAULT_FIELDS, IqOf(SerializeFields(f))) == Carried(f)
  {
    var t := f.queryType;
    var pubsub := SerializeFields(f);
    if t == Subscription {
      var q := SubscriptionHeader(f);
      SubscriptionQueryType();
      QueryElementOf(pubsub, q);
      Sub.ParseToXml(Sub.DEFAULT_SUBSCRIPTION, FirstSubscription(f).GetOr(Sub.DEFAULT_SUBSCRIPTION));
    } else {
      var q := QueryXml(f);
      QueryTypeRoundTrip(t);
      QueryElementOf(pubsub, q);
      QueryRoundTrip(f);
    }
  }

  /** The query element of an IQ whose only child is a <pubsub/> holding
      one element. */
  lemma QueryElementOf(pubsub: Element, q: Element)
    requires pubsub.tag == "pubsub" && pubsub.children == [q]
    ensures QueryElement(IqOf(pubsub)) == Some(q)
  {
    assert Named(IqOf(pubsub).children, "pubsub") == [pubsub];
  }

  /** The query element the serializer writes for a non-Subscription query. */
  function QueryXml(f: IqFields): Element {
    var ns := QueryNamespace(f.queryType);
    Element(QueryTag(f.queryType), ns, QueryAttributes(f), QueryContent(f, ns), "")
  }

  /** The non-Subscription case of the round trip. */
  lemma QueryRoundTrip(f: IqFields)
    requires f.queryType != Subscription
    requires f.maxItems < UINT32_LIMIT
    requires ListsWellFormed(f)
    ensures ParseQuery(DEFAULT_FIELDS, f.queryType, QueryXml(f)) == Carried(f)
  {
    var g := ParseQuery(DEFAULT_FIELDS, f.queryType, QueryXml(f));
    var c := Carried(f);
    QueryHeaderRoundTrip(f);
    QueryListsRoundTrip(f);
    assert g == IqFields(c.queryType, c.queryJid, c.queryNode, c.subscriptionId,
      c.subscriptions, c.affiliations, c.maxItems, c.items);
  }

  /** The located fields, the subscription id and max_items come back. */
  lemma QueryHeaderRoundTrip(f: IqFields)
    requires f.queryType != Subscription
    requires f.maxItems < UINT32_LIMIT
    ensures var g := ParseQuery(DEFAULT_FIELDS, f.queryType, QueryXml(f));
      && g.queryType == f.queryType
      && g.queryJid == f.queryJid && g.queryNode == f.queryNode
      && g.subscriptionId == Carried(f).subscriptionId
      && g.maxItems == Carried(f).maxItems
  {
    QueryAttributesRead(f);
    MaxItemsRoundTrip(f);
  }

  lemma MaxItemsRoundTrip(f: IqFields)
    requires f.maxItems < UINT32_LIMIT
    ensures f.queryType == Items ==> ToUInt(Attribute(QueryXml(f), "max_items")).GetOr(0) == f.maxItems
  {
    if f.queryType == Items {
      QueryAttributesRead(f);
      if f.maxItems > 0 {
        ToUIntOfNatToString(f.maxItems);
      }
    }
  }

  /** The lists the query type carries come back. */
  lemma QueryListsRoundTrip(f: IqFields)
    requires f.queryType != Subscription
    requires ListsWellFormed(f)
    ensures var g := ParseQuery(DEFAULT_FIELDS, f.queryType, QueryXml(f));
      && g.subscriptions == Carried(f).subscriptions
      && g.affiliations == Carried(f).affiliations
      && g.items == Carried(f).items
  {
    ParseQueryLists(DEFAULT_FIELDS, f.queryType, QueryXml(f));
    AffiliationListRoundTrip(f);
    ItemListRoundTrip(f);
    SubscriptionListRoundTrip(f);
  }

  lemma AffiliationListRoundTrip(f: IqFields)
    requires ListsWellFormed(f)
    ensures (if CarriesAffiliations(f.queryType) then ParsedAffiliations(QueryXml(f).children) else []) == Carried(f).affiliations
  {
    var t := f.queryType;
    if CarriesAffiliations(t) {
      var ns := QueryNamespace(t);
      forall i | 0 <= i < |f.affiliations| ensures Aff.IsAffiliation(Aff.ToXml(f.affiliations[i], ns)) {
        AffiliationReadBack(f.affiliations[i], ns);
      }
      AffiliationsRoundTrip(f.affiliations, ns);
    }
  }

  lemma ItemListRoundTrip(f: IqFields)
    ensures (if CarriesItems(f.queryType) then ParsedItems(Named(QueryXml(f).children, "item")) else []) == Carried(f).items
  {
    var t := f.queryType;
    if CarriesItems(t) {
      var ns := QueryNamespace(t);
      assert QueryXml(f).children == ItemsXml(f.items, ns);
      ItemsRoundTrip(f.items, ns);
      ItemChildrenAllNamed(f.items, ns);
    }
  }

  lemma SubscriptionListRoundTrip(f: IqFields)
    requires f.queryType != Subscription
    requires ListsWellFormed(f)
    ensures (if CarriesSubscriptions(f.queryType) then ParsedSubscriptions(QueryXml(f).children) else []) == Carried(f).subscriptions
  {
    var t := f.queryType;
    if t == Subscriptions {
      SubscriptionsRoundTrip(f.subscriptions);
    } else if t == OwnerSubscriptions {
      OwnerSubscriptionsRoundTrip(f.subscriptions);
    }
  }

  /** The lists a non-Subscription query appends to. */
  lemma ParseQueryLists(f: IqFields, t: QueryType, q: Element)
    requires t != Subscription
    ensures var g := ParseQuery(f, t, q);
      && g.affiliations == f.affiliations + (if CarriesAffiliations(t) then ParsedAffiliations(q.children) else [])
      && g.items == f.items + (if CarriesItems(t) then ParsedItems(Named(q.children, "item")) else [])
      && g.subscriptions == f.subscriptions + (if CarriesSubscriptions(t) then ParsedSubscriptions(q.children) else [])
  {
  }

  /** An affiliation the parse loop keeps when written in namespace `ns`. */
  predicate AffiliationWellFormed(a: Aff.Affiliation, ns: string) {
    if ns == Namespaces.PUBSUB then a.node != "" else a.jid != ""
  }

  /** The affiliation loop reads back every affiliation written, provided
      each written element passes isAffiliation. */
  lemma AffiliationsRoundTrip(affs: seq<Aff.Affiliation>, ns: string)
    requires forall i :: 0 <= i < |affs| ==> Aff.IsAffiliation(Aff.ToXml(affs[i], ns))
    ensures ParsedAffiliations(AffiliationsXml(affs, ns)) == affs
  {
    forall i | 0 <= i < |affs|
      ensures Aff.IsAffiliation(AffiliationWriter(ns)(affs[i])) && Aff.Parse(AffiliationWriter(ns)(affs[i])) == affs[i]
    {
      Aff.ParseToXml(affs[i], ns);
    }
    KeepAfterMapInverse(affs, AffiliationWriter(ns), Aff.IsAffiliation, Aff.Parse);
  }

  /** A well-formed affiliation, written in its list's namespace, passes
      isAffiliation. */
  lemma AffiliationReadBack(a: Aff.Affiliation, ns: string)
    requires ns == Namespaces.PUBSUB || ns == Namespaces.PUBSUB_OWNER
    requires AffiliationWellFormed(a, ns)
    ensures Aff.IsAffiliation(Aff.ToXml(a, ns))
  {
    Aff.ToXmlIsAffiliation(a, ns);
  }

  /** The item loop reads back every item written. */
  lemma ItemsRoundTrip(items: seq<Itm.Item>, ns: string)
    ensures ParsedItems(ItemsXml(items, ns)) == items
  {
    forall i | 0 <= i < |items| ensures Itm.Parse(ItemWriter(ns)(items[i])) == items[i] {
      Itm.ParseToXml(items[i], ns);
    }
    MapAfterMapInverse(items, ItemWriter(ns), Itm.Parse);
  }

  /** The subscription loop reads back every user-side subscription written,
      without its expiry. */
  lemma SubscriptionsRoundTrip(subs: seq<Sub.Subscription>)
    ensures ParsedSubscriptions(SubscriptionsXml(subs, Namespaces.PUBSUB)) == WithoutExpiry(subs)
  {
    var write := SubscriptionWriter(Namespaces.PUBSUB);
    forall i | 0 <= i < |subs|
      ensures Sub.IsSubscription(write(subs[i])) && ParseSubscription(write(subs[i])) == WithoutExpiryEntry(subs[i])
    {
      Sub.ParseToXml(Sub.DEFAULT_SUBSCRIPTION, subs[i]);
      Sub.ToXmlIsSubscription(subs[i], Namespaces.PUBSUB);
    }
    KeepAfterMap(subs, write, Sub.IsSubscription, ParseSubscription, WithoutExpiryEntry);
  }

  /** The subscription loop reads back the jid and state of every owner-side
      subscription written. */
  lemma OwnerSubscriptionsRoundTrip(subs: seq<Sub.Subscription>)
    requires forall i :: 0 <= i < |subs| ==> subs[i].state != Sub.Invalid
    ensures ParsedSubscriptions(SubscriptionsXml(subs, Namespaces.PUBSUB_OWNER)) == OwnerView(subs)
  {
    var write := SubscriptionWriter(Namespaces.PUBSUB_OWNER);
    forall i | 0 <= i < |subs|
      ensures Sub.IsSubscription(write(subs[i])) && ParseSubscription(write(subs[i])) == OwnerViewEntry(subs[i])
    {
      Sub.ParseToXml(Sub.DEFAULT_SUBSCRIPTION, subs[i]);
      Sub.ToXmlIsSubscription(subs[i], Namespaces.PUBSUB_OWNER);
    }
    KeepAfterMap(subs, write, Sub.IsSubscription, ParseSubscription, OwnerViewEntry);
  }

  /** QXmppPubSubIq<QXmppPubSubItem>: the IQ object whose parser and setters
      update its fields in place. */
  class Iq {
    var queryType: QueryType
    var queryJid: string
    var queryNode: string
    var subscriptionId: string
    var subscriptions: seq<Sub.Subscription>
    var affiliations: seq<Aff.Affiliation>
    var maxItems: nat
    var items: seq<Itm.Item>

    /** The fields as one value. */
    function Fields(): IqFields
      reads this
    {
      IqFields(queryType, queryJid, queryNode, subscriptionId, subscriptions, affiliations, maxItems, items)
    }

    /** A default IQ: an Items query with nothing in it. */
    constructor()
      ensures Fields() == DEFAULT_FIELDS
    {
      queryType := Items;
      queryJid := "";
      queryNode := "";
      subscriptionId := "";
      subscriptions := [];
      affiliations := [];
      maxItems := 0;
      items := [];
    }

    /** setSubscription: the list becomes the one subscription given, or
        empty, so that subscription() reads back what was set. */
    method SetSubscription(s: Option<Sub.Subscription>)
      modifies this
      ensures Fields() == old(Fields()).(subscriptions := if s.Some? then [s.value] else [])
      ensures FirstSubscription(Fields()) == s
    {
      if s.Some? {
        subscriptions := [s.value];
      } else {
        subscriptions := [];
      }
    }

    /** parseItems: every <item/> child of the query, parsed and appended in
        document order. */
    method ParseItems(query: Element)
      modifies this
      ensures Fields() == old(Fields()).(items := old(items) + ParsedItems(Named(query.children, "item")))
    {
      var i := 0;
      while i < |query.children|
        invariant 0 <= i <= |query.children|
        invariant items == old(items) + ParsedItems(Named(query.children[..i], "item"))
        invariant queryType == old(queryType) && queryJid == old(queryJid) && queryNode == old(queryNode) && subscriptionId == old(subscriptionId) && subscriptions == old(subscriptions) && affiliations == old(affiliations) && maxItems == old(maxItems)
      {
        var child := query.children[i];
        assert query.children[..i + 1][..i] == query.children[..i];
        if child.tag == "item" {
          MapSnoc(Named(query.children[..i], "item"), child, Itm.Parse);
          items := items + [Itm.Parse(child)];
        }
        i := i + 1;
      }
      assert query.children[..i] == query.children;
    }

    /** The affiliation loop: each valid <affiliation/> child, parsed and
        appended in document order; the others are skipped. */
    method ParseAffiliations(query: Element)
      modifies this
      ensures Fields() == old(Fields()).(affiliations := old(affiliations) + ParsedAffiliations(query.children))
    {
      affiliations := AppendKept(affiliations, query.children, Aff.IsAffiliation, Aff.Parse);
    }

    /** The subscription loop: each valid <subscription/> child, parsed into
        a default subscription and appended in document order. */
    method ParseSubscriptions(query: Element)
      modifies this
      ensures Fields() == old(Fields()).(subscriptions := old(subscriptions) + ParsedSubscriptions(query.children))
    {
      subscriptions := AppendKept(subscriptions, query.children, Sub.IsSubscription, ParseSubscription);
    }

    /** parseElementFromChild: nothing changes unless the first child of the
        <pubsub/> element names a query type; otherwise the fields are read
        as ParseFields says. */
    method ParseElementFromChild(iq: Element)
      modifies this
      ensures Fields() == ParseFields(old(Fields()), iq)
    {
      var query := QueryElement(iq);
      if query.None? {
        return;
      }
      var q := query.value;
      var parsedType := QueryTypeOf(q.tag, q.ns);
      if parsedType.None? {
        return;
      }
      var t := parsedType.value;
      if t == Subscription {
        queryType := t;
        SetSubscription(Some(ParseSubscription(q)));
      } else {
        ParseQueryElement(t, q);
      }
    }

    /** The rest of parseElementFromChild for any query type but
        Subscription: jid and node, the subid for the types that carry one,
        max_items for Items, then the content of the query. */
    method ParseQueryElement(t: QueryType, q: Element)
      requires t != Subscription
      modifies this
      ensures Fields() == ParseQuery(old(Fields()), t, q)
    {
      ghost var prior := Fields();
      queryType := t;
      queryJid := Attribute(q, "jid");
      queryNode := Attribute(q, "node");
      if CarriesSubId(t) {
        subscriptionId := Attribute(q, "subid");
      }
      assert Fields() == ParseHeader(prior, t, q);
      ParseQueryContent(t, q);
      ParseQuerySplit(prior, t, q);
    }

    /** The content switch of parseElementFromChild. */
    method ParseQueryContent(t: QueryType, q: Element)
      modifies this
      ensures Fields() == ParseContent(old(Fields()), t, q)
    {
      if CarriesAffiliations(t) {
        ParseAffiliations(q);
      } else if CarriesItems(t) {
        if t == Items {
          maxItems := ToUInt(Attribute(q, "max_items")).GetOr(0);
        }
        ParseItems(q);
      } else if CarriesSubscriptions(t) {
        ParseSubscriptions(q);
      }
    }

    /** toXmlElementFromChild: the <pubsub/> element written for the fields,
        each list written element by element in order. */
    method ToXmlElementFromChild() returns (pubsub: Element)
      ensures pubsub == SerializeFields(Fields())
    {
      var ns := QueryNamespace(queryType);
      if queryType == Subscription {
        var s := if |subscriptions| == 0 then Sub.DEFAULT_SUBSCRIPTION else subscriptions[0];
        pubsub := Element("pubsub", ns, map[], [Sub.ToXml(s, ns)], "");
      } else {
        var content: seq<Element> := [];
        if CarriesAffiliations(queryType) {
          content := MapInOrder(affiliations, AffiliationWriter(ns));
        } else if CarriesItems(queryType) {
          content := MapInOrder(items, ItemWriter(ns));
        } else if CarriesSubscriptions(queryType) {
          content := MapInOrder(subscriptions, SubscriptionWriter(ns));
        }
        var query := Element(QueryTag(queryType), ns, QueryAttributes(Fields()), content, "");
        pubsub := Element("pubsub", ns, map[], [query], "");
      }
    }
  }
}

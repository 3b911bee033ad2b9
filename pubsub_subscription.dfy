/** A PubSub subscription: who is subscribed to which node, under which
    subscription id, in which state, and whether the service offers (or
    demands) subscription options.  The expiry timestamp is kept as the text
    of its attribute. */
module PubSubSubscription {
  import Wrappers
  import opened Dom
  import opened StringTable
  import Namespaces

  /** The states in the order of SUBSCRIPTION_STATES. */
  datatype State = Invalid | None | Pending | Subscribed | Unconfigured

  /** Ordered: Unavailable < Available < Required. */
  datatype ConfigurationSupport = Unavailable | Available | Required

  datatype Subscription = Subscription(
    jid: string,
    node: string,
    subId: string,
    state: State,
    configurationSupport: ConfigurationSupport,
    expiry: string)

  /** The subscription a default-constructed object holds. */
  const DEFAULT_SUBSCRIPTION := Subscription("", "", "", Invalid, Unavailable, "")

  /** SUBSCRIPTION_STATES: the Invalid state is the null string. */
  const SUBSCRIPTION_STATES: seq<string> := ["", "none", "pending", "subscribed", "unconfigured"]

  function StateOrdinal(s: State): (i: nat)
    ensures i < |SUBSCRIPTION_STATES|
  {
    match s
    case Invalid => 0
    case None => 1
    case Pending => 2
    case Subscribed => 3
    case Unconfigured => 4
  }

  function SupportRank(c: ConfigurationSupport): nat {
    match c
    case Unavailable => 0
    case Available => 1
    case Required => 2
  }

  /** stateToString. */
  function StateToString(s: State): string {
    SUBSCRIPTION_STATES[StateOrdinal(s)]
  }

  /** stateFromString: the table position, Invalid for a name outside it. */
  function StateFromString(str: string): (s: State)
  {
    match IndexOf(SUBSCRIPTION_STATES, str)
    case Some(i) => [Invalid, None, Pending, Subscribed, Unconfigured][i]
    case None => Invalid
  }

  /** Every state survives being written and read back (the Invalid state as
      the empty string), and a name outside the table reads as Invalid. */
  lemma StateCodec(s: State, str: string)
    ensures StateFromString(StateToString(s)) == s
    ensures str !in SUBSCRIPTION_STATES ==> StateFromString(str) == Invalid
  {
    StatesDistinct();
    IndexOfAt(SUBSCRIPTION_STATES, StateOrdinal(s));
  }

  lemma StatesDistinct()
    ensures Distinct(SUBSCRIPTION_STATES)
  {
  }

  /** isConfigurationSupported. */
  predicate IsConfigurationSupported(s: Subscription) {
    SupportRank(s.configurationSupport) > SupportRank(Unavailable)
  }

  /** isConfigurationRequired. */
  predicate IsConfigurationRequired(s: Subscription) {
    s.configurationSupport == Required || s.state == Unconfigured
  }

  /** Options can be required without being offered only through the
      Unconfigured state; a Required service always offers them, and a
      subscription with neither reports neither. */
  lemma ConfigurationPredicates(s: Subscription)
    ensures s.configurationSupport == Required ==> IsConfigurationSupported(s) && IsConfigurationRequired(s)
    ensures IsConfigurationRequired(s) && !IsConfigurationSupported(s) ==> s.state == Unconfigured
    ensures IsConfigurationSupported(s) <==> s.configurationSupport != Unavailable
  {
  }

  /** isSubscription. */
  predicate IsSubscription(e: Element) {
    if e.tag != "subscription" then false
    else if HasAttribute(e, "subscription") && StateFromString(Attribute(e, "subscription")) == Invalid then false
    else if e.ns == Namespaces.PUBSUB || e.ns == Namespaces.PUBSUB_EVENT then HasAttribute(e, "jid")
    else if e.ns == Namespaces.PUBSUB_OWNER then HasAttribute(e, "jid") && HasAttribute(e, "subscription")
    else false
  }

  /** The configuration support a <subscribe-options/> child announces. */
  function SupportFromOptions(options: Wrappers.Option<Element>): ConfigurationSupport {
    match options
    case None => Unavailable
    case Some(o) => if FirstNamed(o, "required").Some? then Required else Available
  }

  /** parse: jid and state always; node and subid in the pubsub and event
      namespaces; the expiry only in the event namespace; the configuration
      support only in the pubsub namespace.  Fields a namespace does not
      carry keep their value from `prior`. */
  function Parse(prior: Subscription, e: Element): Subscription {
    var isPubSub := e.ns == Namespaces.PUBSUB;
    var isPubSubEvent := !isPubSub && e.ns == Namespaces.PUBSUB_EVENT;
    var base := prior.(jid := Attribute(e, "jid"), state := StateFromString(Attribute(e, "subscription")));
    if isPubSub || isPubSubEvent then
      var located := base.(node := Attribute(e, "node"), subId := Attribute(e, "subid"));
      if isPubSubEvent then located.(expiry := Attribute(e, "expiry"))
      else located.(configurationSupport := SupportFromOptions(FirstNamed(e, "subscribe-options")))
    else base
  }

  /** The attributes toXml writes: jid always, the others when non-empty. */
  function ToXmlAttributes(s: Subscription): map<string, string> {
    AddAttribute(AddAttribute(AddAttribute(AddAttribute(map["jid" := s.jid],
      "node", s.node), "subid", s.subId), "subscription", StateToString(s.state)), "expiry", s.expiry)
  }

  /** The <subscribe-options/> child, written when support > Unavailable,
      holding <required/> when support is Required. */
  function OptionsChildren(c: ConfigurationSupport, ns: string): seq<Element> {
    if SupportRank(c) > SupportRank(Unavailable) then
      [Element("subscribe-options", ns, map[], if c == Required then [Leaf("required", ns, map[])] else [], "")]
    else []
  }

  /** toXml in the enclosing namespace `ns`. */
  function ToXml(s: Subscription, ns: string): Element {
    Element("subscription", ns, ToXmlAttributes(s), OptionsChildren(s.configurationSupport, ns), "")
  }

  /** Each attribute reads back as its field, and is present exactly when the
      field is non-empty (the jid always is). */
  lemma ToXmlReads(s: Subscription, ns: string)
    ensures Attribute(ToXml(s, ns), "jid") == s.jid && HasAttribute(ToXml(s, ns), "jid")
    ensures Attribute(ToXml(s, ns), "node") == s.node
    ensures Attribute(ToXml(s, ns), "subid") == s.subId
    ensures Attribute(ToXml(s, ns), "subscription") == StateToString(s.state)
    ensures HasAttribute(ToXml(s, ns), "subscription") <==> s.state != Invalid
    ensures Attribute(ToXml(s, ns), "expiry") == s.expiry
  {
    var a3 := AddAttribute(AddAttribute(map["jid" := s.jid], "node", s.node), "subid", s.subId);
    var a4 := AddAttribute(a3, "subscription", StateToString(s.state));
    LocationReads(s, a3);
    AddedAttributeReads(Leaf("", ns, a4), a3, "subscription", StateToString(s.state));
    AddedAttributeReads(ToXml(s, ns), a4, "expiry", s.expiry);
  }

  /** The jid, node and subid layers of the attributes. */
  lemma LocationReads(s: Subscription, a3: map<string, string>)
    requires a3 == AddAttribute(AddAttribute(map["jid" := s.jid], "node", s.node), "subid", s.subId)
    ensures "jid" in a3 && a3["jid"] == s.jid
    ensures Attribute(Leaf("", "", a3), "node") == s.node
    ensures Attribute(Leaf("", "", a3), "subid") == s.subId
    ensures "subscription" !in a3 && "expiry" !in a3
  {
    var a1 := map["jid" := s.jid];
    var a2 := AddAttribute(a1, "node", s.node);
    AddedAttributeReads(Leaf("", "", a2), a1, "node", s.node);
    AddedAttributeReads(Leaf("", "", a3), a2, "subid", s.subId);
  }

  /** The support announced by the written options is the support held. */
  lemma OptionsRoundTrip(s: Subscription, ns: string)
    ensures SupportFromOptions(FirstNamed(ToXml(s, ns), "subscribe-options")) == s.configurationSupport
  {
    var e := ToXml(s, ns);
    if s.configurationSupport == Unavailable {
      assert e.children == [];
    } else {
      assert Named(e.children, "subscribe-options") == e.children;
    }
  }

  /** Parsing what toXml wrote, starting from any prior value: in the pubsub
      namespace everything but the expiry comes back; in the event namespace
      everything but the configuration support; in the owner namespace only
      the jid and the state. */
  lemma ParseToXml(prior: Subscription, s: Subscription)
    ensures Parse(prior, ToXml(s, Namespaces.PUBSUB)) == s.(expiry := prior.expiry)
    ensures Parse(prior, ToXml(s, Namespaces.PUBSUB_EVENT)) == s.(configurationSupport := prior.configurationSupport)
    ensures Parse(prior, ToXml(s, Namespaces.PUBSUB_OWNER)) == prior.(jid := s.jid, state := s.state)
  {
    StateCodec(s.state, "");
    ToXmlReads(s, Namespaces.PUBSUB);
    ToXmlReads(s, Namespaces.PUBSUB_EVENT);
    ToXmlReads(s, Namespaces.PUBSUB_OWNER);
    OptionsRoundTrip(s, Namespaces.PUBSUB);
  }

  /** What toXml writes is a valid subscription in the pubsub and event
      namespaces, and in the owner namespace exactly when the state is not
      Invalid; in any other namespace it never is. */
  lemma ToXmlIsSubscription(s: Subscription, ns: string)
    ensures ns == Namespaces.PUBSUB || ns == Namespaces.PUBSUB_EVENT ==> IsSubscription(ToXml(s, ns))
    ensures ns == Namespaces.PUBSUB_OWNER ==> (IsSubscription(ToXml(s, ns)) <==> s.state != Invalid)
    ensures ns != Namespaces.PUBSUB && ns != Namespaces.PUBSUB_EVENT && ns != Namespaces.PUBSUB_OWNER ==> !IsSubscription(ToXml(s, ns))
  {
    ToXmlReads(s, ns);
    StateCodec(s.state, "");
  }
}

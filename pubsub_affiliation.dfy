/** A PubSub affiliation: its type, the node (user-side lists in the pubsub
    namespace) and the JID (owner-side lists in the pubsub#owner namespace). */
module PubSubAffiliation {
  import Wrappers
  import opened Dom
  import opened StringTable
  import Namespaces

  datatype AffiliationType = None | Member | Outcast | Owner | Publisher | PublishOnly

  datatype Affiliation = Affiliation(affType: AffiliationType, node: string, jid: string)

  /** PUBSUB_AFFILIATIONS, indexed by the enum's numeric value. */
  const AFFILIATIONS: seq<string> := ["none", "member", "outcast", "owner", "publisher", "publish-only"]

  /** The enum's numeric value. */
  function Ordinal(t: AffiliationType): (i: nat)
    ensures i < |AFFILIATIONS|
  {
    match t
    case None => 0
    case Member => 1
    case Outcast => 2
    case Owner => 3
    case Publisher => 4
    case PublishOnly => 5
  }

  /** Affiliation(typeIndex): the enum value with that numeric value. */
  function FromOrdinal(i: nat): (t: AffiliationType)
    requires i < |AFFILIATIONS|
    ensures Ordinal(t) == i
  {
    [None, Member, Outcast, Owner, Publisher, PublishOnly][i]
  }

  /** PUBSUB_AFFILIATIONS.at(int(type)). */
  function TypeToString(t: AffiliationType): string {
    AFFILIATIONS[Ordinal(t)]
  }

  /** The enum value named by `s`: indexOf, with -1 read as None. */
  function TypeFromString(s: string): (t: AffiliationType)
  {
    match IndexOf(AFFILIATIONS, s)
    case Some(i) => FromOrdinal(i)
    case None => None
  }

  /** Every affiliation type survives being written and read back, and a name
      outside the table reads as None. */
  lemma TypeCodec(t: AffiliationType, s: string)
    ensures TypeFromString(TypeToString(t)) == t
    ensures s !in AFFILIATIONS ==> TypeFromString(s) == None
  {
    AffiliationsDistinct();
    IndexOfAt(AFFILIATIONS, Ordinal(t));
  }

  lemma AffiliationsDistinct()
    ensures Distinct(AFFILIATIONS)
  {
  }

  /** isAffiliation: an <affiliation/> with a known type, carrying a node in
      the pubsub namespace or a JID in the pubsub#owner namespace. */
  predicate IsAffiliation(e: Element) {
    if e.tag != "affiliation" || Attribute(e, "affiliation") !in AFFILIATIONS then false
    else if e.ns == Namespaces.PUBSUB then HasAttribute(e, "node")
    else if e.ns == Namespaces.PUBSUB_OWNER then HasAttribute(e, "jid")
    else false
  }

  /** parse: every field is read; an unknown type name gives None. */
  function Parse(e: Element): Affiliation {
    Affiliation(TypeFromString(Attribute(e, "affiliation")), Attribute(e, "node"), Attribute(e, "jid"))
  }

  /** toXml: the type always, node and jid only when non-empty, in the
      enclosing namespace `ns`. */
  function ToXml(a: Affiliation, ns: string): Element {
    Leaf("affiliation", ns,
      AddAttribute(AddAttribute(map["affiliation" := TypeToString(a.affType)], "node", a.node), "jid", a.jid))
  }

  /** The attributes toXml writes read back as the fields. */
  lemma ToXmlReads(a: Affiliation, ns: string)
    ensures Attribute(ToXml(a, ns), "affiliation") == TypeToString(a.affType)
    ensures Attribute(ToXml(a, ns), "node") == a.node && (HasAttribute(ToXml(a, ns), "node") <==> a.node != "")
    ensures Attribute(ToXml(a, ns), "jid") == a.jid && (HasAttribute(ToXml(a, ns), "jid") <==> a.jid != "")
  {
    var first := map["affiliation" := TypeToString(a.affType)];
    var second := AddAttribute(first, "node", a.node);
    AddedAttributeReads(Leaf("affiliation", ns, second), first, "node", a.node);
    AddedAttributeReads(ToXml(a, ns), second, "jid", a.jid);
    assert Attribute(ToXml(a, ns), "node") == Attribute(Leaf("affiliation", ns, second), "node");
  }

  /** Parsing what toXml wrote gives the affiliation back. */
  lemma ParseToXml(a: Affiliation, ns: string)
    ensures Parse(ToXml(a, ns)) == a
  {
    ToXmlReads(a, ns);
    TypeCodec(a.affType, "");
  }

  /** What toXml writes passes isAffiliation exactly when the field the
      namespace calls for is non-empty: the node for the user-side list, the
      JID for the owner-side list; in any other namespace it never does. */
  lemma ToXmlIsAffiliation(a: Affiliation, ns: string)
    ensures ns == Namespaces.PUBSUB ==> (IsAffiliation(ToXml(a, ns)) <==> a.node != "")
    ensures ns == Namespaces.PUBSUB_OWNER ==> (IsAffiliation(ToXml(a, ns)) <==> a.jid != "")
    ensures ns != Namespaces.PUBSUB && ns != Namespaces.PUBSUB_OWNER ==> !IsAffiliation(ToXml(a, ns))
  {
    ToXmlReads(a, ns);
    assert TypeToString(a.affType) in AFFILIATIONS;
  }
}

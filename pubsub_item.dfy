/** A PubSub item: an id and a publisher.  The payload hooks
    (parsePayload / serializePayload) are empty in the base class and are
    left to subclasses, so the model of the base item has no payload. */
module PubSubItem {
  import opened Wrappers
  import opened Dom

  datatype Item = Item(id: string, publisher: string)

  /** isItem(element): the tag is "item", whatever the namespace. */
  predicate IsItem(e: Element) {
    e.tag == "item"
  }

  /** isItem(element, isPayloadValid): an item whose first child element, if
      there is one, passes the payload check. */
  function IsItemWith(e: Element, isPayloadValid: Element -> bool): bool {
    if !IsItem(e) then false
    else match FirstChild(e)
      case Some(payload) => isPayloadValid(payload)
      case None => true
  }

  /** Without a payload check the two overloads agree. */
  lemma IsItemWithAnyPayload(e: Element)
    ensures IsItemWith(e, _ => true) == IsItem(e)
  {
  }

  /** An element the payload-checking overload accepts is an item, and the
      check is consulted exactly when there is a child element. */
  lemma IsItemWithDecides(e: Element, isPayloadValid: Element -> bool)
    ensures IsItemWith(e, isPayloadValid) ==> IsItem(e)
    ensures IsItem(e) && |e.children| == 0 ==> IsItemWith(e, isPayloadValid)
    ensures IsItem(e) && |e.children| > 0 ==> (IsItemWith(e, isPayloadValid) <==> isPayloadValid(e.children[0]))
  {
  }

  /** A weaker payload check accepts at least the same items. */
  lemma IsItemWithMonotone(e: Element, strict: Element -> bool, lax: Element -> bool)
    requires forall p :: strict(p) ==> lax(p)
    ensures IsItemWith(e, strict) ==> IsItemWith(e, lax)
  {
  }

  /** parse: the id and publisher attributes, empty when missing. */
  function Parse(e: Element): Item {
    Item(Attribute(e, "id"), Attribute(e, "publisher"))
  }

  /** toXml: an <item/> in the enclosing namespace `ns`, with id and publisher
      written only when non-empty. */
  function ToXml(item: Item, ns: string): Element {
    Leaf("item", ns, AddAttribute(AddAttribute(map[], "id", item.id), "publisher", item.publisher))
  }

  /** Serialization carries exactly the non-empty fields, and the result is an
      item with no payload. */
  lemma ToXmlShape(item: Item, ns: string)
    ensures IsItem(ToXml(item, ns)) && ToXml(item, ns).children == []
    ensures HasAttribute(ToXml(item, ns), "id") <==> item.id != ""
    ensures HasAttribute(ToXml(item, ns), "publisher") <==> item.publisher != ""
    ensures ToXml(item, ns).attrs.Keys <= {"id", "publisher"}
  {
  }

  /** Parsing what toXml wrote gives the item back. */
  lemma ParseToXml(item: Item, ns: string)
    ensures Parse(ToXml(item, ns)) == item
  {
    var e := ToXml(item, ns);
    var inner := AddAttribute(map[], "id", item.id);
    AddedAttributeReads(Leaf("item", ns, inner), map[], "id", item.id);
    AddedAttributeReads(e, inner, "publisher", item.publisher);
    assert Attribute(e, "id") == Attribute(Leaf("item", ns, inner), "id");
  }
}

/** The part of a QDomElement the PubSub, upload and stanza code looks at: the
    tag name, the namespace URI, the attributes, the child elements in
    document order and the text content.  A missing element (a null
    QDomElement) is None.  The same record stands for what a QXmlStreamWriter
    writes, so that parsing can be applied to serialized output. */
module Dom {
  import opened Wrappers

  datatype Element = Element(tag: string, ns: string, attrs: map<string, string>, children: seq<Element>, text: string)

  /** An element with only a tag, a namespace and attributes. */
  function Leaf(tag: string, ns: string, attrs: map<string, string>): Element {
    Element(tag, ns, attrs, [], "")
  }

  /** QDomElement::attribute: the empty string when the attribute is missing. */
  function Attribute(e: Element, name: string): (v: string)
    ensures name in e.attrs ==> v == e.attrs[name]
    ensures name !in e.attrs ==> v == ""
  {
    if name in e.attrs then e.attrs[name] else ""
  }

  predicate HasAttribute(e: Element, name: string) {
    name in e.attrs
  }

  /** helperToXmlAddAttribute: the attribute is written only when its value is
      not empty. */
  function AddAttribute(attrs: map<string, string>, name: string, value: string): (r: map<string, string>)
    ensures name in r <==> name in attrs || value != ""
    ensures forall k :: k != name ==> (k in r <==> k in attrs)
    ensures forall k :: k in r && k != name ==> r[k] == attrs[k]
  {
    if value == "" then attrs else attrs[name := value]
  }

  /** An attribute added by helperToXmlAddAttribute reads back as the value. */
  lemma AddedAttributeReads(e: Element, attrs: map<string, string>, name: string, value: string)
    requires e.attrs == AddAttribute(attrs, name, value)
    requires name !in attrs
    ensures Attribute(e, name) == value
    ensures HasAttribute(e, name) <==> value != ""
  {
  }

  /** QDomElement::firstChildElement(): the first child element, if any. */
  function FirstChild(e: Element): Option<Element> {
    if |e.children| == 0 then None else Some(e.children[0])
  }

  /** The tag of a possibly missing element; a null QDomElement has an empty
      tag name. */
  function TagOf(e: Option<Element>): string {
    if e.Some? then e.value.tag else ""
  }

  /** The namespace of a possibly missing element. */
  function NsOf(e: Option<Element>): string {
    if e.Some? then e.value.ns else ""
  }

  /** The elements with tag `tag`, in document order: what the loop
      `firstChildElement(tag)` ... `nextSiblingElement(tag)` visits. */
  function Named(children: seq<Element>, tag: string): (r: seq<Element>)
    ensures |r| <= |children|
    ensures forall i :: 0 <= i < |r| ==> r[i].tag == tag && r[i] in children
    decreases |children|
  {
    if |children| == 0 then []
    else
      var init := Named(children[..|children| - 1], tag);
      var last := children[|children| - 1];
      if last.tag == tag then init + [last] else init
  }

  /** Every element with the tag is visited. */
  lemma {:induction false} NamedComplete(children: seq<Element>, tag: string, x: Element)
    requires x in children && x.tag == tag
    ensures x in Named(children, tag)
    decreases |children|
  {
    var n := |children|;
    if children[n - 1] != x {
      assert x in children[..n - 1] by {
        var i :| 0 <= i < n && children[i] == x;
        assert children[..n - 1][i] == x;
      }
      NamedComplete(children[..n - 1], tag, x);
    }
  }

  /** The elements of a list that all carry the tag are visited unchanged. */
  lemma {:induction false} NamedAll(children: seq<Element>, tag: string)
    requires forall i :: 0 <= i < |children| ==> children[i].tag == tag
    ensures Named(children, tag) == children
    decreases |children|
  {
    if |children| > 0 {
      NamedAll(children[..|children| - 1], tag);
    }
  }

  /** A first child with the tag is the first one visited. */
  lemma {:induction false} NamedFirst(children: seq<Element>, tag: string)
    requires |children| > 0 && children[0].tag == tag
    ensures |Named(children, tag)| > 0 && Named(children, tag)[0] == children[0]
    decreases |children|
  {
    if |children| > 1 {
      var init := children[..|children| - 1];
      assert init[0] == children[0];
      NamedFirst(init, tag);
    }
  }

  /** QDomElement::firstChildElement(tag). */
  function FirstNamed(e: Element, tag: string): (r: Option<Element>)
    ensures r.Some? ==> r.value.tag == tag && r.value in e.children
    ensures r.None? ==> forall i :: 0 <= i < |e.children| ==> e.children[i].tag != tag
  {
    var named := Named(e.children, tag);
    if |named| == 0 then
      assert forall i :: 0 <= i < |e.children| ==> e.children[i].tag != tag by {
        forall i | 0 <= i < |e.children| ensures e.children[i].tag != tag {
          if e.children[i].tag == tag { NamedComplete(e.children, tag, e.children[i]); }
        }
      }
      None
    else Some(named[0])
  }

  /** QDomNode::hasChildNodes: child elements or text. */
  predicate HasChildNodes(e: Element) {
    |e.children| > 0 || e.text != ""
  }
}

/** The stanza base class: the stanza error of section 8.3 of RFC 6120 (its
    type codec, its defaults, when it is written and how it is read), the
    extended addresses of XEP-0033 and how parsing keeps only valid ones, and
    the generator of stanza identifiers. */
module Stanza {
  import opened Wrappers
  import opened Dom
  import Decimal
  import Lists
  import Namespaces

  /** QXmppStanza::Error::Type. */
  datatype ErrorType = Cancel | Continue | Modify | Auth | Wait

  /** getTypeStr.  None is the sentinel type (the cast of -1), whose name is
      empty. */
  function TypeToString(t: Option<ErrorType>): string {
    match t
    case None => ""
    case Some(Cancel) => "cancel"
    case Some(Continue) => "continue"
    case Some(Modify) => "modify"
    case Some(Auth) => "auth"
    case Some(Wait) => "wait"
  }

  /** setTypeFromStr: any string that names no type sets the sentinel. */
  function TypeFromString(s: string): Option<ErrorType> {
    if s == "cancel" then Some(Cancel)
    else if s == "continue" then Some(Continue)
    else if s == "modify" then Some(Modify)
    else if s == "auth" then Some(Auth)
    else if s == "wait" then Some(Wait)
    else None
  }

  /** Every type, the sentinel included, is restored from its name, and only
      the sentinel has the empty name. */
  lemma TypeRoundTrip(t: Option<ErrorType>)
    ensures TypeFromString(TypeToString(t)) == t
    ensures TypeToString(t) == "" <==> t.None?
  {
  }

  /** A string reads as a type exactly when it is that type's name, and as
      the sentinel exactly when it names no type. */
  lemma TypeNames(t: ErrorType, s: string)
    ensures TypeFromString(s) == Some(t) <==> s == TypeToString(Some(t))
    ensures TypeFromString(s).None? <==> forall u :: TypeToString(Some(u)) != s
  {
    forall u: ErrorType
      ensures TypeFromString(TypeToString(Some(u))) == Some(u)
    {
    }
  }

  /** QXmppStanza::Error.  The condition is held as the name
      getConditionStr gives it, the empty string for the sentinel condition;
      `code` is a signed int. */
  datatype Error = Error(code: int, errorType: Option<ErrorType>, condition: string, text: string)

  /** Error(): code 0, the sentinel type and condition, no text. */
  const DEFAULT_ERROR := Error(0, None, "", "")

  /** The condition child toXml writes, named after the condition. */
  function ConditionElement(condition: string): Element {
    Leaf(condition, Namespaces.STANZA, map[])
  }

  /** The <text/> child toXml writes. */
  function TextElement(text: string): Element {
    Element("text", Namespaces.STANZA, map["xml:lang" := "en"], [], text)
  }

  /** Error::toXml.  None when nothing is written.  The <error/> element is
      written without a namespace of its own (it takes the enclosing
      stanza's), shown as the empty namespace. */
  function ErrorToXml(e: Error): (r: Option<Element>)
    ensures r.None? <==> e.condition == "" && e.errorType.None?
    ensures r.Some? ==> r.value.tag == "error"
    ensures r.Some? ==> ("type" in r.value.attrs <==> e.errorType.Some?)
    ensures r.Some? ==> ("code" in r.value.attrs <==> e.code > 0)
  {
    var t := TypeToString(e.errorType);
    TypeRoundTrip(e.errorType);
    if e.condition == "" && t == "" then None
    else
      var typed := AddAttribute(map[], "type", t);
      var attrs := if e.code > 0 then AddAttribute(typed, "code", Decimal.NatToString(e.code)) else typed;
      Some(Element("error", "", attrs, ErrorChildren(e.condition, e.text), ""))
  }

  /** A default error is never written. */
  lemma DefaultErrorWritesNothing()
    ensures ErrorToXml(DEFAULT_ERROR).None?
    ensures DEFAULT_ERROR.code == 0 && TypeToString(DEFAULT_ERROR.errorType) == ""
  {
  }

  /** The text of the last <text/> child, the empty string when there is
      none: what the parse loop leaves in `text`. */
  function LastText(children: seq<Element>): string
    decreases |children|
  {
    if |children| == 0 then ""
    else if children[|children| - 1].tag == "text" then children[|children| - 1].text
    else LastText(children[..|children| - 1])
  }

  /** The tag of the last child other than <text/> in the stanza-error
      namespace, the empty string when there is none: what the parse loop
      leaves in `cond`. */
  function LastCondition(children: seq<Element>): string
    decreases |children|
  {
    if |children| == 0 then ""
    else
      var last := children[|children| - 1];
      if last.tag != "text" && last.ns == Namespaces.STANZA then last.tag
      else LastCondition(children[..|children| - 1])
  }

  /** Error::parse: the code is read with toInt (0 when it is missing or not
      a number) and every other field is set from the element. */
  function ErrorFromElement(e: Element): Error {
    Error(Decimal.ToInt(Attribute(e, "code")).GetOr(0), TypeFromString(Attribute(e, "type")),
      LastCondition(e.children), LastText(e.children))
  }

  /** Error::parse, with its loop over the child elements. */
  method ParseError(element: Element) returns (err: Error)
    ensures err == ErrorFromElement(element)
  {
    var children := element.children;
    var text := "";
    var cond := "";
    var i := 0;
    while i < |children|
      invariant 0 <= i <= |children|
      invariant text == LastText(children[..i])
      invariant cond == LastCondition(children[..i])
    {
      assert children[..i + 1][..i] == children[..i];
      if children[i].tag == "text" {
        text := children[i].text;
      } else if children[i].ns == Namespaces.STANZA {
        cond := children[i].tag;
      }
      i := i + 1;
    }
    assert children[..i] == children;
    err := Error(Decimal.ToInt(Attribute(element, "code")).GetOr(0), TypeFromString(Attribute(element, "type")), cond, text);
  }

  /** The children toXml writes for a condition and a text. */
  function ErrorChildren(condition: string, text: string): seq<Element> {
    (if condition != "" then [ConditionElement(condition)] else []) + (if text != "" then [TextElement(text)] else [])
  }

  /** The parse loop reads back the condition and the text from the
      children toXml writes, unless the condition is named "text". */
  lemma ErrorChildrenRead(condition: string, text: string)
    requires condition != "text"
    ensures LastText(ErrorChildren(condition, text)) == text
    ensures LastCondition(ErrorChildren(condition, text)) == condition
  {
    var conditionChild := if condition != "" then [ConditionElement(condition)] else [];
    var children := ErrorChildren(condition, text);
    assert LastCondition(conditionChild) == condition;
    if text != "" {
      assert children[..|children| - 1] == conditionChild;
    } else {
      assert children == conditionChild;
    }
  }

  /** Reading back a written error gives the error, except that a code that
      is not positive is not written and reads back as 0.  A condition named
      "text" would read back as text, so it is excluded. */
  lemma ErrorRoundTrip(e: Error)
    requires ErrorToXml(e).Some?
    requires e.condition != "text"
    requires e.code <= Decimal.INT32_MAX
    ensures ErrorFromElement(ErrorToXml(e).value) == e.(code := if e.code > 0 then e.code else 0)
  {
    var x := ErrorToXml(e).value;
    TypeRoundTrip(e.errorType);
    assert Attribute(x, "type") == TypeToString(e.errorType);
    assert x.children == ErrorChildren(e.condition, e.text);
    ErrorChildrenRead(e.condition, e.text);
    if e.code > 0 {
      Decimal.ToIntOfNatToString(e.code);
      assert Attribute(x, "code") == Decimal.NatToString(e.code);
    } else {
      assert Attribute(x, "code") == "";
    }
  }

  /** QXmppExtendedAddress. */
  datatype ExtendedAddress = ExtendedAddress(delivered: bool, description: string, jid: string, addressType: string)

  /** A default-constructed address: not delivered, every text empty. */
  const DEFAULT_ADDRESS := ExtendedAddress(false, "", "", "")

  /** isValid: both the type and the JID are non-empty. */
  predicate IsValid(a: ExtendedAddress) {
    a.addressType != "" && a.jid != ""
  }

  /** QXmppExtendedAddress::parse: delivered only when the attribute is
      exactly "true"; missing attributes give empty texts. */
  function ParseAddress(e: Element): ExtendedAddress {
    ExtendedAddress(Attribute(e, "delivered") == "true", Attribute(e, "desc"), Attribute(e, "jid"), Attribute(e, "type"))
  }

  /** QXmppExtendedAddress::toXml: `delivered` only when true, `desc` only
      when not empty, `jid` and `type` always. */
  function AddressToXml(a: ExtendedAddress): Element {
    var delivered: map<string, string> := if a.delivered then map["delivered" := "true"] else map[];
    var described := if a.description != "" then delivered["desc" := a.description] else delivered;
    Leaf("address", "", described["jid" := a.jid]["type" := a.addressType])
  }

  /** Every address is read back from what toXml writes, and a default
      address is not valid. */
  lemma AddressRoundTrip(a: ExtendedAddress)
    ensures ParseAddress(AddressToXml(a)) == a
    ensures !IsValid(DEFAULT_ADDRESS)
  {
    var x := AddressToXml(a);
    assert Attribute(x, "delivered") == "true" <==> a.delivered;
    assert Attribute(x, "desc") == a.description;
  }

  /** The <address/> children of the stanza's first <addresses/> child, in
      document order; none when there is no <addresses/>. */
  function AddressElements(stanza: Element): seq<Element> {
    match FirstNamed(stanza, "addresses")
    case None => []
    case Some(list) => Named(list.children, "address")
  }

  predicate ValidAddressElement(e: Element) {
    IsValid(ParseAddress(e))
  }

  /** The addresses stanza parsing appends: the valid ones, in document
      order. */
  function ParsedAddresses(stanza: Element): seq<ExtendedAddress> {
    Lists.Keep(AddressElements(stanza), ValidAddressElement, ParseAddress)
  }

  /** Parsing keeps exactly the valid addresses: each kept address is valid
      and read from an <address/> child, and each <address/> child that
      reads as a valid address is kept. */
  lemma ParsedAddressesValid(stanza: Element)
    ensures forall a :: a in ParsedAddresses(stanza) ==> IsValid(a)
    ensures forall a :: a in ParsedAddresses(stanza) ==> exists e :: e in AddressElements(stanza) && ParseAddress(e) == a
    ensures forall e :: e in AddressElements(stanza) && IsValid(ParseAddress(e)) ==> ParseAddress(e) in ParsedAddresses(stanza)
  {
    var xs := AddressElements(stanza);
    Lists.KeepMembers(xs, ValidAddressElement, ParseAddress);
    forall a | a in ParsedAddresses(stanza)
      ensures IsValid(a) && exists e :: e in xs && ParseAddress(e) == a
    {
      var k :| 0 <= k < |xs| && ValidAddressElement(xs[k]) && a == ParseAddress(xs[k]);
      assert xs[k] in xs;
    }
  }

  /** extensionsToXml, its address part: an <addresses/> element holding
      every address, written only when there is at least one. */
  function AddressesToXml(addresses: seq<ExtendedAddress>): Option<Element> {
    if |addresses| == 0 then None
    else Some(Element("addresses", Namespaces.EXTENDED_ADDRESSING, map[], Lists.Map(addresses, AddressToXml), ""))
  }

  /** Valid addresses written by extensionsToXml are read back, in order,
      by a stanza whose first <addresses/> child is what was written. */
  lemma AddressesRoundTrip(addresses: seq<ExtendedAddress>, stanza: Element)
    requires forall i :: 0 <= i < |addresses| ==> IsValid(addresses[i])
    requires AddressesToXml(addresses).Some?
    requires FirstNamed(stanza, "addresses") == AddressesToXml(addresses)
    ensures ParsedAddresses(stanza) == addresses
  {
    var written := Lists.Map(addresses, AddressToXml);
    NamedAll(written, "address");
    forall i | 0 <= i < |addresses|
      ensures ValidAddressElement(AddressToXml(addresses[i])) && ParseAddress(AddressToXml(addresses[i])) == addresses[i]
    {
      AddressRoundTrip(addresses[i]);
    }
    Lists.KeepAfterMapInverse(addresses, AddressToXml, ValidAddressElement, ParseAddress);
  }

  /** The stanza state the model tracks (the extension elements are not
      part of it). */
  datatype StanzaFields = StanzaFields(
    to: string,
    from: string,
    id: string,
    lang: string,
    error: Error,
    extendedAddresses: seq<ExtendedAddress>)

  /** QXmppStanza::parse: the addressing attributes are replaced, the error
      is read when there is an <error/> child and kept otherwise, and the
      valid extended addresses are appended to those already held. */
  function ParseStanza(prior: StanzaFields, element: Element): StanzaFields {
    var errorElement := FirstNamed(element, "error");
    StanzaFields(
      Attribute(element, "to"),
      Attribute(element, "from"),
      Attribute(element, "id"),
      Attribute(element, "lang"),
      if errorElement.Some? then ErrorFromElement(errorElement.value) else prior.error,
      prior.extendedAddresses + ParsedAddresses(element))
  }

  /** Parsing adds only valid addresses, so a stanza whose addresses are all
      valid keeps them all valid, and what it held before comes first. */
  lemma ParseStanzaKeepsValid(prior: StanzaFields, element: Element)
    requires forall i :: 0 <= i < |prior.extendedAddresses| ==> IsValid(prior.extendedAddresses[i])
    ensures forall i :: 0 <= i < |ParseStanza(prior, element).extendedAddresses| ==> IsValid(ParseStanza(prior, element).extendedAddresses[i])
    ensures ParseStanza(prior, element).extendedAddresses[..|prior.extendedAddresses|] == prior.extendedAddresses
  {
    ParsedAddressesValid(element);
    var added := ParsedAddresses(element);
    var all := prior.extendedAddresses + added;
    forall i | |prior.extendedAddresses| <= i < |all|
      ensures IsValid(all[i])
    {
      assert all[i] == added[i - |prior.extendedAddresses|];
      assert all[i] in added;
    }
  }

  /** The identifier generateAndSetNextId gives for counter value `n`. */
  function IdFor(n: nat): string {
    "qxmpp" + Decimal.NatToString(n)
  }

  /** Two counter values give the same identifier only when they are equal. */
  lemma IdsDistinct(n: nat, m: nat)
    ensures IdFor(n) == IdFor(m) <==> n == m
  {
    if IdFor(n) == IdFor(m) {
      assert IdFor(n)[5..] == Decimal.NatToString(n);
      assert IdFor(m)[5..] == Decimal.NatToString(m);
    }
  }

  /** The counter value after `k` calls starting from `start`: an unsigned
      int, so it wraps to 0 after 2^32 - 1. */
  function CountAfter(start: nat, k: nat): (r: nat)
    ensures r < Decimal.UINT32_LIMIT
  {
    (start + k) % Decimal.UINT32_LIMIT
  }

  /** One more call moves the counter one step on, with wrap-around. */
  lemma CountAfterStep(start: nat, k: nat)
    ensures CountAfter(start, k + 1) == (CountAfter(start, k) + 1) % Decimal.UINT32_LIMIT
  {
  }

  /** The identifiers of calls `i` and `j` coincide exactly when the calls
      are a multiple of 2^32 apart: successive identifiers are distinct
      until the counter wraps. */
  lemma SuccessiveIdsDistinct(start: nat, i: nat, j: nat)
    requires i < j
    ensures IdFor(CountAfter(start, i)) == IdFor(CountAfter(start, j)) <==> (j - i) % Decimal.UINT32_LIMIT == 0
  {
    var L := Decimal.UINT32_LIMIT;
    var a, b := CountAfter(start, i), CountAfter(start, j);
    var qa, qb := (start + i) / L, (start + j) / L;
    assert start + i == qa * L + a && start + j == qb * L + b;
    assert j - i == (qb - qa) * L + (b - a);
    if (j - i) % L == 0 {
      var k := (j - i) / L;
      assert b - a == (k - qb + qa) * L;
    }
    IdsDistinct(a, b);
  }

  /** s_uniqeIdNo: the counter behind generateAndSetNextId, shared by every
      stanza. */
  class IdCounter {
    var count: nat

    predicate Valid()
      reads this
    {
      count < Decimal.UINT32_LIMIT
    }

    constructor()
      ensures count == 0 && Valid()
    {
      count := 0;
    }
  }

  class Stanza {
    var to: string
    var from: string
    var id: string
    var lang: string
    var error: Error
    var extendedAddresses: seq<ExtendedAddress>

    function Fields(): StanzaFields
      reads this
    {
      StanzaFields(to, from, id, lang, error, extendedAddresses)
    }

    /** QXmppStanza(from, to): no identifier, language, error or
        addresses. */
    constructor(from: string, to: string)
      ensures Fields() == StanzaFields(to, from, "", "", DEFAULT_ERROR, [])
    {
      this.to := to;
      this.from := from;
      id := "";
      lang := "";
      error := DEFAULT_ERROR;
      extendedAddresses := [];
    }

    /** generateAndSetNextId: the counter is incremented, with unsigned
        wrap-around, and the identifier becomes "qxmpp" followed by its new
        value; nothing else changes. */
    method GenerateAndSetNextId(counter: IdCounter)
      requires counter.Valid()
      modifies this, counter
      ensures counter.count == (old(counter.count) + 1) % Decimal.UINT32_LIMIT && counter.Valid()
      ensures Fields() == old(Fields()).(id := IdFor(counter.count))
    {
      counter.count := (counter.count + 1) % Decimal.UINT32_LIMIT;
      id := IdFor(counter.count);
    }

    /** QXmppStanza::parse. */
    method Parse(element: Element)
      modifies this
      ensures Fields() == ParseStanza(old(Fields()), element)
    {
      from := Attribute(element, "from");
      to := Attribute(element, "to");
      id := Attribute(element, "id");
      lang := Attribute(element, "lang");
      var errorElement := FirstNamed(element, "error");
      if errorElement.Some? {
        error := ParseError(errorElement.value);
      }
      extendedAddresses := Lists.AppendKept(extendedAddresses, AddressElements(element), ValidAddressElement, ParseAddress);
    }
  }
}

/** The upload slot of XEP-0363 (HTTP File Upload): the URL to PUT the file
    to, the URL it will be served from, and the header fields the PUT request
    must carry.  Only the Authorization, Cookie and Expires headers are ever
    kept.  URLs are kept as their encoded text. */
module HttpUpload {
  import opened Wrappers
  import opened Dom

  /** The header names a slot may ask the client to send. */
  predicate IsAllowedHeader(name: string) {
    name == "Authorization" || name == "Cookie" || name == "Expires"
  }

  /** The headers of `headers` whose names are allowed, with their values. */
  function Whitelisted(headers: map<string, string>): map<string, string> {
    map name | name in headers && IsAllowedHeader(name) :: headers[name]
  }

  /** Only allowed names survive, each keeping its value; an allowed name
      present in the input is always kept; filtering twice is filtering once. */
  lemma WhitelistedProperties(headers: map<string, string>)
    ensures forall name :: name in Whitelisted(headers) ==> IsAllowedHeader(name) && name in headers
    ensures forall name :: name in headers && IsAllowedHeader(name) ==>
      name in Whitelisted(headers) && Whitelisted(headers)[name] == headers[name]
    ensures Whitelisted(Whitelisted(headers)) == Whitelisted(headers)
  {
  }

  /** Headers that are all allowed pass the filter unchanged. */
  lemma WhitelistedAllowed(headers: map<string, string>)
    requires forall name :: name in headers ==> IsAllowedHeader(name)
    ensures Whitelisted(headers) == headers
  {
  }

  /** The headers the <header/> children of <put/> name, in document order: a
      later header of the same name replaces an earlier one. */
  function CollectHeaders(headers: seq<Element>): map<string, string>
    decreases |headers|
  {
    if |headers| == 0 then map[]
    else
      var last := headers[|headers| - 1];
      CollectHeaders(headers[..|headers| - 1])[Attribute(last, "name") := last.text]
  }

  /** The position of the last header child named `name`. */
  function LastHeader(headers: seq<Element>, name: string): (r: Option<nat>)
    ensures r.Some? ==> r.value < |headers| && Attribute(headers[r.value], "name") == name
    ensures r.Some? ==> forall j :: r.value < j < |headers| ==> Attribute(headers[j], "name") != name
    ensures r.None? ==> forall j :: 0 <= j < |headers| ==> Attribute(headers[j], "name") != name
    decreases |headers|
  {
    if |headers| == 0 then None
    else if Attribute(headers[|headers| - 1], "name") == name then Some(|headers| - 1)
    else LastHeader(headers[..|headers| - 1], name)
  }

  /** A name is collected exactly when some header child carries it, and it
      takes the text of the last one that does. */
  lemma {:induction false} CollectHeadersReads(headers: seq<Element>, name: string)
    ensures name in CollectHeaders(headers) <==> LastHeader(headers, name).Some?
    ensures name in CollectHeaders(headers) ==> CollectHeaders(headers)[name] == headers[LastHeader(headers, name).value].text
    decreases |headers|
  {
    if |headers| > 0 {
      var init := headers[..|headers| - 1];
      CollectHeadersReads(init, name);
      if Attribute(headers[|headers| - 1], "name") != name && LastHeader(init, name).Some? {
        assert headers[LastHeader(init, name).value] == init[LastHeader(init, name).value];
      }
    }
  }

  /** The state of a slot IQ the model tracks. */
  datatype SlotFields = SlotFields(putUrl: string, getUrl: string, putHeaders: map<string, string>)

  /** The <put/> element of an IQ's <slot/>, if both exist. */
  function PutElement(iq: Element): Option<Element> {
    match FirstNamed(iq, "slot")
    case None => None
    case Some(slot) => FirstNamed(slot, "put")
  }

  /** The url attribute of the named child of the IQ's <slot/>; empty when
      either is missing. */
  function SlotUrl(iq: Element, child: string): string {
    match FirstNamed(iq, "slot")
    case None => ""
    case Some(slot) =>
      match FirstNamed(slot, child)
      case None => ""
      case Some(e) => Attribute(e, "url")
  }

  /** parseElementFromChild: both URLs are read; the headers are replaced by
      the allowed ones among the <header/> children only when <put/> has
      child nodes, and kept otherwise. */
  function ParseSlot(prior: SlotFields, iq: Element): SlotFields {
    var put := PutElement(iq);
    var headers :=
      if put.Some? && HasChildNodes(put.value) then Whitelisted(CollectHeaders(Named(put.value.children, "header")))
      else prior.putHeaders;
    SlotFields(SlotUrl(iq, "put"), SlotUrl(iq, "get"), headers)
  }

  /** Parsing keeps every stored header name allowed. */
  lemma ParseSlotAllowed(prior: SlotFields, iq: Element)
    requires forall name :: name in prior.putHeaders ==> IsAllowedHeader(name)
    ensures forall name :: name in ParseSlot(prior, iq).putHeaders ==> IsAllowedHeader(name)
  {
    var put := PutElement(iq);
    if put.Some? && HasChildNodes(put.value) {
      WhitelistedProperties(CollectHeaders(Named(put.value.children, "header")));
    }
  }

  class SlotIq {
    var putUrl: string
    var getUrl: string
    var putHeaders: map<string, string>

    function Fields(): SlotFields
      reads this
    {
      SlotFields(putUrl, getUrl, putHeaders)
    }

    /** Every stored header name is allowed. */
    predicate Valid()
      reads this
    {
      forall name :: name in putHeaders ==> IsAllowedHeader(name)
    }

    constructor()
      ensures Fields() == SlotFields("", "", map[])
      ensures Valid()
    {
      putUrl := "";
      getUrl := "";
      putHeaders := map[];
    }

    /** setPutHeaders: the stored headers are cleared, then every allowed
        header of `headers` is inserted. */
    method SetPutHeaders(headers: map<string, string>)
      modifies this
      ensures Fields() == old(Fields()).(putHeaders := Whitelisted(headers))
      ensures Valid()
      ensures old(Valid()) && headers == old(putHeaders) ==> Fields() == old(Fields())
    {
      putHeaders := map[];
      var remaining := headers.Keys;
      while remaining != {}
        invariant remaining <= headers.Keys
        invariant forall name :: name in putHeaders <==> name in headers && name !in remaining && IsAllowedHeader(name)
        invariant forall name :: name in putHeaders ==> putHeaders[name] == headers[name]
        invariant putUrl == old(putUrl) && getUrl == old(getUrl)
        decreases remaining
      {
        var name :| name in remaining;
        if IsAllowedHeader(name) {
          putHeaders := putHeaders[name := headers[name]];
        }
        remaining := remaining - {name};
      }
      assert putHeaders == Whitelisted(headers);
      if old(Valid()) && headers == old(putHeaders) {
        WhitelistedAllowed(headers);
      }
    }

    /** The header loop of parseElementFromChild: every <header/> child of
        <put/> in document order, its name mapped to its text. */
    static method CollectHeaderElements(put: Element) returns (headers: map<string, string>)
      ensures headers == CollectHeaders(Named(put.children, "header"))
    {
      var named := Named(put.children, "header");
      headers := map[];
      var i := 0;
      while i < |named|
        invariant 0 <= i <= |named|
        invariant headers == CollectHeaders(named[..i])
      {
        assert named[..i + 1][..i] == named[..i];
        headers := headers[Attribute(named[i], "name") := named[i].text];
        i := i + 1;
      }
      assert named[..i] == named;
    }

    /** parseElementFromChild. */
    method ParseElementFromChild(iq: Element)
      modifies this
      ensures Fields() == ParseSlot(old(Fields()), iq)
      ensures old(Valid()) ==> Valid()
    {
      getUrl := SlotUrl(iq, "get");
      putUrl := SlotUrl(iq, "put");
      var put := PutElement(iq);
      if put.Some? && HasChildNodes(put.value) {
        var headers := CollectHeaderElements(put.value);
        SetPutHeaders(headers);
      }
    }
  }
}

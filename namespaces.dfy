/** The XML namespaces the modelled code compares against, as the XMPP
    standards define them (XEP-0060 Publish-Subscribe, XEP-0004 Data Forms,
    XEP-0033 Extended Stanza Addressing, XEP-0363 HTTP File Upload, and
    section 8.3 of RFC 6120 for stanza errors). */
module Namespaces {
  const PUBSUB := "http://jabber.org/protocol/pubsub"
  const PUBSUB_OWNER := "http://jabber.org/protocol/pubsub#owner"
  const PUBSUB_EVENT := "http://jabber.org/protocol/pubsub#event"
  const DATA := "jabber:x:data"
  const EXTENDED_ADDRESSING := "http://jabber.org/protocol/address"
  const HTTP_UPLOAD := "urn:xmpp:http:upload:0"
  const STANZA := "urn:ietf:params:xml:ns:xmpp-stanzas"
}

# QXmpp core: SASL negotiation, PubSub codecs, data-form binding, upload slots and stanzas

This project is a Dafny model of a core of QXmpp, a Qt-based XMPP library, with proofs about that model.

**SASL (`QXmppSasl.cpp`).** The client and server mechanisms that authenticate an XMPP stream:
- PLAIN (RFC 4616) and ANONYMOUS (RFC 4505);
- DIGEST-MD5 (RFC 2831), with its attribute-list codec;
- SCRAM-SHA-1 and SCRAM-SHA-256 (RFC 5802), with the PBKDF2 key derivation of RFC 8018 section 5.2 written out;
- X-FACEBOOK-PLATFORM, X-OAUTH2 and X-MESSENGER-OAUTH2;
- the registries that create a mechanism from its name.

Each mechanism is a class with a step counter. Its `Respond` method states the outcome of every step and the new state.

**PubSub (XEP-0060).**
- The IQ: query-type table, owner-namespace remapping, validity check, parsing and serialization.
- The event message: type table, validity check, `parseExtension` and `serializeExtensions`.
- Items, subscriptions and affiliations: validators, string tables and element codecs.
- Node-configuration enum codecs and the form-type guard of `fromDataForm`.
- Subscribe options: the presence-state flag codec, the defaults and the subscription type and depth fields.

**Data-form binding (XEP-0004).** The binding `QXmppDataFormBased` provides between an object and a form of typed fields:
- a hidden FORM_TYPE field;
- one field descriptor per member, each with parse and serialize hooks and a required flag.

**HTTP upload slot (XEP-0363).** The PUT-header whitelist.

**Stanza (RFC 6120 and XEP-0033).**
- The error type codec.
- The error element's writer and parser.
- Extended addresses and their validity.
- Stanza parsing.
- Identifier generation from a shared counter.

**How state is modelled.**
- Objects whose methods update fields in place are classes. Their methods are proved against functions over a value of their fields (`Fields()`).
- Value types (Item, Subscription, Affiliation, Error, ExtendedAddress, data forms) are datatypes.
- DOM elements are records of tag, namespace, attribute map, child elements and text (`Dom.Element`).
- The hash, HMAC, base64 decoding and URL-query functions of Qt are function-valued fields of `Crypto.Primitives`. Two validity conditions are assumed of them: `DigestsValid` (digests are octet strings of the algorithm's length), and, in `Valid`, that decoding undoes the base64 encoding of every octet string. `Crypto.ValidPrimitivesExist` shows that both can hold at once. Hex and base64 encoding are written out, and so is a base64 decoder.

## Model

| member | source | states |
|---|---|---|
| Crypto.DeriveKeyPbkdf2 | src/base/QXmppSasl.cpp:55-81 | returns exactly dkLen octets for any iteration count; the key is the first dkLen octets of T_1, T_2, …, with T_i the XOR of the chained HMACs started from salt followed by the big-endian block number i (counting from 1) |
| Crypto.XorRounds | src/base/QXmppSasl.cpp:69-76 | the inner loop yields the block T_i: U_1 xor-ed with every further chained HMAC while the round is below the iteration count |
| Crypto.Pbkdf2Prefix | src/base/QXmppSasl.cpp:55-81 | a shorter key is a prefix of a longer one: the length requested only cuts the block sequence |
| Crypto.Pbkdf2SingleBlock | src/base/QXmppSasl.cpp:63-68 | with one iteration and one digest length, the key is the single HMAC of salt followed by the block number 1 |
| Crypto.GenerateNonce | src/base/QXmppSasl.cpp:83-93 | the forced nonce when one is set; otherwise base64 of the random octets, 4·⌈n/3⌉ characters with no comma |
| Crypto.Base64OfGs2Header | src/base/QXmppSasl.cpp:600 | the channel-binding value written for the GS2 header "n,," is "biws" |
| Crypto.Base64RoundTrip | src/base/QXmppSasl.cpp:593-620 | decoding gives back every octet string that `toBase64` wrote, so the salt and the signature travel through base64 unchanged |
| Crypto.Base64EncodeInjective | src/base/QXmppSasl.cpp:612-620 | two octet strings with the same base64 writing are equal |
| Crypto.ValidPrimitivesExist | src/base/QXmppSasl.cpp:593-620 | the conditions put on the Qt digest and base64 functions can all be met at once |
| Crypto.ToHexInjective | src/base/QXmppSasl.cpp:47-50 | two octet strings with the same hex writing are equal octet by octet, so comparing hex digests compares the digests |
| Gs2.ParseGs2 | src/base/QXmppSasl.cpp:95-104 | the loop over the comma-separated parts builds the map the `Attributes` function gives |
| Gs2.LastAttributeWins | src/base/QXmppSasl.cpp:95-104 | a name maps to the value of the last part `k=…` that carries it |
| Gs2.AbsentAttribute | src/base/QXmppSasl.cpp:98-100 | a name that no part of the form `k=…` carries is absent from the map |
| Gs2.ParseWrittenAttributes | src/base/QXmppSasl.cpp:95-104 | attributes written with distinct names and comma-free values are all read back, each with its value |
| SaslRegistry.CreateClient | src/base/QXmppSasl.cpp:282-303 | a created client reports the mechanism name it was created for |
| SaslRegistry.ClientRegistryAgrees | src/base/QXmppSasl.cpp:273-303 | a client can be created exactly for the names availableMechanisms lists, and it reports that name |
| SaslRegistry.EveryClientAdvertised | src/base/QXmppSasl.cpp:273-280 | every client mechanism is advertised, and its name creates that mechanism |
| SaslRegistry.CreateServer | src/base/QXmppSasl.cpp:675-686 | a created server reports the mechanism name it was created for |
| SaslRegistry.ServerRegistry | src/base/QXmppSasl.cpp:675-686 | a server can be created exactly for PLAIN, DIGEST-MD5 and ANONYMOUS, each also a client mechanism |
| SaslClient.PlainMessage | src/base/QXmppSasl.cpp:549 | the PLAIN message is NUL, user name, NUL, password: two NULs at the positions that separate the fields |
| SaslClient.AnonymousClient.constructor | src/base/QXmppSasl.cpp:361-365 | a new client is at step 0 |
| SaslClient.AnonymousClient.Respond | src/base/QXmppSasl.cpp:372-383 | one empty response at step 0, then refusal with the step and the buffer unchanged |
| SaslClient.PlainClient.constructor | src/base/QXmppSasl.cpp:534-538 | a new client has no credentials and is at step 0 |
| SaslClient.PlainClient.Respond | src/base/QXmppSasl.cpp:545-556 | step 0 answers NUL user NUL password and advances; any later call fails with nothing changed |
| SaslClient.GoogleClient.constructor | src/base/QXmppSasl.cpp:509-513 | a new client has no credentials and is at step 0 |
| SaslClient.GoogleClient.Respond | src/base/QXmppSasl.cpp:520-532 | X-OAUTH2 sends the PLAIN message (the token as password) once, then fails with nothing changed |
| SaslClient.WindowsLiveClient.constructor | src/base/QXmppSasl.cpp:628-632 | a new client has no credentials and is at step 0 |
| SaslClient.WindowsLiveClient.Respond | src/base/QXmppSasl.cpp:639-660 | X-MESSENGER-OAUTH2 sends the base64-decoded password once, then fails with nothing changed |
| SaslClient.FacebookClient.constructor | src/base/QXmppSasl.cpp:464-468 | a new client has no credentials and is at step 0 |
| SaslClient.FacebookClient.Respond | src/base/QXmppSasl.cpp:475-507 | an empty first response; then success exactly when the challenge names a method and a nonce, answered with both, the access token and the application key; afterwards refusal; failure changes nothing |
| SaslClient.DigestMd5Client.constructor | src/base/QXmppSasl.cpp:385-391 | the client nonce is generated once, and the nonce counter is 00000001 |
| SaslClient.DigestMd5Client.Respond | src/base/QXmppSasl.cpp:398-462 | step 1 goes on exactly when the challenge has a nonce and offers qop "auth"; it then sends the RFC 2831 response map with the AUTHENTICATE digest. Step 2 succeeds exactly when rspauth is the digest with an empty method. Every failure leaves the step, nonce, secret and buffer unchanged |
| SaslClient.DigestMd5Client.RespondToChallenge | src/base/QXmppSasl.cpp:413-445 | the challenge step: the acceptance condition, the stored nonce and secret, and the response map it serializes |
| SaslClient.DigestMd5Client.ComposeResponse | src/base/QXmppSasl.cpp:431-444 | the response is the serialization of the response map, the realm present only when non-empty |
| SaslClient.BuildResponseMap | src/base/QXmppSasl.cpp:431-442 | the map the client fills one assignment at a time is the response map |
| SaslClient.ScramClient.constructor | src/base/QXmppSasl.cpp:558-573 | the mechanism name follows the hash (SCRAM-SHA-256 or SCRAM-SHA-1), the key length is the digest length, and the nonce is generated once |
| SaslClient.ScramClient.Respond | src/base/QXmppSasl.cpp:580-626 | step 0 sends `n,,n=user,r=nonce`. Step 1 goes on exactly when the server nonce extends the client nonce, the salt is non-empty and the count is at least 1; it sends `c=biws,r=…,p=` and the base64 ClientProof, and stores the ServerSignature. Step 2 always advances and succeeds exactly when the decoded `v` equals the stored signature |
| SaslClient.ScramClient.RespondToServerFirst | src/base/QXmppSasl.cpp:588-617 | the server-first step: acceptance condition, final message with proof, and the server signature kept for step 2 |
| SaslClient.ClientProof | src/base/QXmppSasl.cpp:605-610 | the proof is one digest length long |
| SaslServer.AnonymousServer.constructor | src/base/QXmppSasl.cpp:744-748 | a new server is at step 0 |
| SaslServer.AnonymousServer.Respond | src/base/QXmppSasl.cpp:755-766 | the first request succeeds with an empty response; any later one fails with nothing changed |
| SaslServer.PlainServer.constructor | src/base/QXmppSasl.cpp:837-841 | a new server has no credentials and is at step 0 |
| SaslServer.PlainServer.Respond | src/base/QXmppSasl.cpp:848-871 | an empty request asks for credentials without advancing. A request that splits on NUL into exactly three fields sets user name and password from fields 2 and 3 and needs input. Any other request fails. Credentials change only on the input-needed outcome |
| SaslServer.DigestMd5Server.constructor | src/base/QXmppSasl.cpp:768-773 | the server nonce is generated once and nothing else is set |
| SaslServer.DigestMd5Server.Respond | src/base/QXmppSasl.cpp:780-835 | step 0 sends the challenge map (nonce, qop auth, charset, md5-sess, realm only when set). Step 1 fails unless qop is exactly "auth", and needs input while neither password nor digest is known. It succeeds with rspauth exactly when the client response equals the AUTHENTICATE digest. Step 2 concludes |
| SaslServer.DigestMd5Server.BuildChallengeMap | src/base/QXmppSasl.cpp:787-797 | the map filled one assignment at a time is the challenge map |
| SaslServer.DigestMd5Server.CheckResponse | src/base/QXmppSasl.cpp:803-832 | the response step on the parsed request: qop check, user name, input-needed case, digest check and rspauth |
| SaslServer.DigestMd5Server.CheckDigest | src/base/QXmppSasl.cpp:813-832 | nc and cnonce are stored; the secret comes from the password when known, else from the stored digest; the outcome is a challenge exactly when the digests agree |
| SaslServer.DigestMd5Server.UserSecret | src/base/QXmppSasl.cpp:816-822 | the secret is MD5(user:realm:password) when the password is known, the stored digest otherwise |
| SaslServer.DigestMd5Server.RspAuthMessage | src/base/QXmppSasl.cpp:826-830 | the final challenge is the single pair rspauth |
| DigestMd5Codec.SerializeMessage | src/base/QXmppSasl.cpp:923-952 | the loop writes `key=value` pairs in key order, joined by commas |
| DigestMd5Codec.ContainsSeparator | src/base/QXmppSasl.cpp:930-939 | a value is quoted exactly when it contains one of the separators `()<>@,;:\"/[]?={}`, space or tab |
| DigestMd5Codec.EncodeValueMethod | src/base/QXmppSasl.cpp:940-946 | a quoted value has `\` escaped and then `"` escaped; others are written as they are |
| DigestMd5Codec.ParseMessage | src/base/QXmppSasl.cpp:878-921 | the parse loop yields the map of the round-by-round parse function `ParseFrom`, which keeps keys ordered |
| DigestMd5Codec.ParseRound | src/base/QXmppSasl.cpp:883-919 | one round finds the `=`, then the closing quote or the next comma; it stops when no `=` follows or a quote is not closed |
| DigestMd5Codec.FindClosingQuote | src/base/QXmppSasl.cpp:895-900 | the closing quote is the first `"` not preceded by a backslash |
| DigestMd5Codec.ParseSerializeRoundTrip | src/base/QXmppSasl.cpp:878-952 | parsing a serialized map gives the map back, for token keys and backslash-free values |
| DigestMd5Codec.TrailingBackslashLost | src/base/QXmppSasl.cpp:895-900 | the map k ↦ `\` is written as `k="\\"` and parses back to the empty map |
| DigestMd5Exchange.ServerChallengeRoundTrips | src/base/QXmppSasl.cpp:787-797 | the server's first challenge parses back to itself |
| DigestMd5Exchange.ClientReadsServerChallenge | src/base/QXmppSasl.cpp:413-420 | the client accepts the server's challenge and reads its nonce and realm |
| DigestMd5Exchange.ClientResponseRoundTrips | src/base/QXmppSasl.cpp:431-444 | the client's response map parses back to itself when no value holds a backslash |
| DigestMd5Exchange.ServerReadsClientResponse | src/base/QXmppSasl.cpp:803-821 | the server reads qop auth, user, realm, nc, cnonce, digest-uri and response as the client wrote them |
| DigestMd5Exchange.RspAuthReadBack | src/base/QXmppSasl.cpp:451-456 | a lone rspauth pair is read back by the client |
| DigestMd5Exchange.DigestMutualAuthentication | src/base/QXmppSasl.cpp:42-53 | with the same password on both sides, the server computes the digest the client sent, and the client reads in rspauth the digest it expects |
| SaslExchange.PlainServerReadsClient | src/base/QXmppSasl.cpp:857-862 | the server's NUL split of the client's PLAIN message gives an empty authorization identity, the user name and the password |
| SaslExchange.ScramProofRecoversClientKey | src/base/QXmppSasl.cpp:605-612 | XOR of the proof with the ClientSignature gives the ClientKey, whose hash is the StoredKey (RFC 5802 section 3) |
| SaslExchange.ScramServerFirstAccepted | src/base/QXmppSasl.cpp:588-600 | a server-first message for the client's nonce, with a non-empty octet-string salt and a count ≥ 1, is accepted, and nonce, salt and count are read back |
| SaslExchange.ScramServerFinalAccepted | src/base/QXmppSasl.cpp:618-622 | the server-final `v=` message for an octet-string signature, such as an HMAC, gives the client back exactly the signature it checks |
| PubSubItem.IsItemWithAnyPayload | src/base/QXmppPubSubItem.cpp:131-134 | with a check that accepts every payload, the two isItem overloads agree |
| PubSubItem.IsItemWithDecides | src/base/QXmppPubSubItem.cpp:174-185 | a non-item is rejected; an item without a child is accepted without the check; otherwise the check on the first child decides |
| PubSubItem.IsItemWithMonotone | src/base/QXmppPubSubItem.cpp:174-185 | a laxer payload check accepts at least the same items |
| PubSubItem.ToXmlShape | src/base/QXmppPubSubItem.cpp:116-125 | the written element is an item; id and publisher are present exactly when non-empty, and nothing else is written |
| PubSubItem.ParseToXml | src/base/QXmppPubSubItem.cpp:108-125 | parsing what toXml wrote gives id and publisher back |
| PubSubAffiliation.TypeCodec | src/base/QXmppPubSubAffiliation.cpp:119-136 | every affiliation type reads back from its name; a name outside the table reads as None |
| PubSubAffiliation.ToXmlReads | src/base/QXmppPubSubAffiliation.cpp:133-141 | the type is always written; node and jid are present exactly when non-empty, and read back |
| PubSubAffiliation.ParseToXml | src/base/QXmppPubSubAffiliation.cpp:119-141 | parsing what toXml wrote gives the affiliation back |
| PubSubAffiliation.ToXmlIsAffiliation | src/base/QXmppPubSubAffiliation.cpp:105-116 | a written affiliation is valid in the pubsub namespace exactly when it has a node, and in the owner namespace exactly when it has a jid; in any other namespace it never is |
| PubSubSubscription.StateCodec | src/base/QXmppPubSubSubscription.cpp:62-76 | every state reads back from its name; a name outside the table reads as Invalid |
| PubSubSubscription.ConfigurationPredicates | src/base/QXmppPubSubSubscription.cpp:178-190 | supported exactly when support is above Unavailable; Required implies both predicates; required-but-unsupported only in the Unconfigured state |
| PubSubSubscription.ToXmlReads | src/base/QXmppPubSubSubscription.cpp:246-257 | jid is always written; every attribute reads back as its field; the state is present exactly when it is not Invalid |
| PubSubSubscription.OptionsRoundTrip | src/base/QXmppPubSubSubscription.cpp:232-265 | the subscribe-options child written for a support level is read back as that level |
| PubSubSubscription.ParseToXml | src/base/QXmppPubSubSubscription.cpp:218-268 | pubsub namespace: everything but the expiry returns. Event namespace: everything but the configuration support. Owner namespace: only jid and state |
| PubSubSubscription.ToXmlIsSubscription | src/base/QXmppPubSubSubscription.cpp:195-215 | a written subscription is valid in the pubsub and event namespaces, in the owner namespace exactly when its state is not Invalid, and nowhere else |
| PubSubIq.FromOrdinalOrdinal | src/base/QXmppPubSubIq.cpp:79-97 | the query-type enumeration and its table positions are inverse |
| PubSubIq.QueryTypeRoundTrip | src/base/QXmppPubSubIq.cpp:537-589 | for all seventeen query types, the tag and namespace the serializer writes parse back to that type |
| PubSubIq.QueryTypeOfRules | src/base/QXmppPubSubIq.cpp:537-563 | an unknown tag gives no type; the owner variants come only from the owner namespace, and their user-side counterparts never do |
| PubSubIq.VariantsInverse | src/base/QXmppPubSubIq.cpp:549-589 | the owner remapping undoes the user-side mapping exactly for the owner query types |
| PubSubIq.IsPubSubIqRules | src/base/QXmppPubSubIq.cpp:297-381 | an accepted IQ has a pubsub child in the pubsub or owner namespace, a known query with the node and jid its type needs, owner-only types in the owner namespace, and valid items |
| PubSubIq.IsPubSubIqMonotone | src/base/QXmppPubSubIq.cpp:343-355 | a laxer item validator accepts at least the same IQs |
| PubSubIq.CorrectedDiffersOnlyOnSubscription | src/base/QXmppPubSubIq.cpp:357-365 | the check as written and the check with the missing break restored differ only on Subscription queries |
| PubSubIq.SubscriptionIqRejected | src/base/QXmppPubSubIq.cpp:357-365 | every Subscription IQ the serializer writes passes all earlier checks and holds a valid subscription, yet the check as written rejects it |
| PubSubIq.SerializedIqValid | src/base/QXmppPubSubIq.cpp:297-381 | with the break restored, every serialized IQ that carries the node and jid its type needs and valid items is accepted |
| PubSubIq.FirstSubscription | src/base/QXmppPubSubIq.cpp:237-248 | subscription() is present exactly when the list is non-empty |
| PubSubIq.ParseFieldRules | src/base/QXmppPubSubIq.cpp:383-468 | parsing changes the subid only for Items, Unsubscribe and Options, and max_items only for Items (to an unsigned int). A Subscription query keeps jid and node and leaves one subscription |
| PubSubIq.SerializedAttributeRules | src/base/QXmppPubSubIq.cpp:485-505 | subid is written only for the types the parser reads it for; max_items exactly for Items with a positive count |
| PubSubIq.IqRoundTrip | src/base/QXmppPubSubIq.cpp:383-535 | parsing what the serializer wrote, into a default IQ, gives back every field the query type carries |
| PubSubIq.MaxItemsRoundTrip | src/base/QXmppPubSubIq.cpp:407-416 | a max_items written for an Items query reads back as the same unsigned value |
| PubSubIq.AffiliationsRoundTrip | src/base/QXmppPubSubIq.cpp:424-432 | the affiliation loop reads back every written affiliation that passes isAffiliation, in order |
| PubSubIq.ItemsRoundTrip | src/base/QXmppPubSubIq.cpp:418-422 | the item loop reads back every written item, in order |
| PubSubIq.SubscriptionsRoundTrip | src/base/QXmppPubSubIq.cpp:440-448 | the user-side subscription list reads back without expiry times |
| PubSubIq.OwnerSubscriptionsRoundTrip | src/base/QXmppPubSubIq.cpp:440-448 | the owner-side subscription list reads back the jid and state of each entry |
| PubSubIq.Iq.constructor | src/base/QXmppPubSubIq.cpp:113-130 | a new IQ is an Items query with nothing in it |
| PubSubIq.Iq.SetSubscription | src/base/QXmppPubSubIq.cpp:237-256 | the list becomes the one subscription given, or empty, and subscription() reads back what was set; nothing else changes |
| PubSubIq.Iq.ParseItems | src/base/QXmppPubSubIq.cpp:418-422 | every item child is parsed and appended in document order |
| PubSubIq.Iq.ParseAffiliations | src/base/QXmppPubSubIq.cpp:424-432 | each valid affiliation child is appended in document order; the others are skipped |
| PubSubIq.Iq.ParseSubscriptions | src/base/QXmppPubSubIq.cpp:440-448 | each valid subscription child is parsed into a default subscription and appended in order |
| PubSubIq.Iq.ParseElementFromChild | src/base/QXmppPubSubIq.cpp:383-468 | the fields after parsing are those the parse function gives, which the rule and round-trip lemmas describe |
| PubSubIq.Iq.ParseQueryElement | src/base/QXmppPubSubIq.cpp:400-416 | for a non-Subscription query: jid, node, subid for the types that carry it, max_items for Items, then the content |
| PubSubIq.Iq.ParseQueryContent | src/base/QXmppPubSubIq.cpp:417-467 | the content switch reads the list its type carries |
| PubSubIq.Iq.ToXmlElementFromChild | src/base/QXmppPubSubIq.cpp:470-535 | the written pubsub element is the serialization function applied to the fields, each list written in order |
| PubSubEvent.EventTypeCodec | src/base/QXmppPubSubEvent.cpp:56-62 | a tag names an event type exactly when it is that type's table entry; a tag outside the table names none |
| PubSubEvent.EventFrom | src/base/QXmppPubSubEvent.cpp:226-238 | the event element used is the first event child in the pubsub-event namespace |
| PubSubEvent.IsPubSubEventRules | src/base/QXmppPubSubEvent.cpp:224-288 | an accepted stanza is a message with an event whose first child names a type. Delete, Items and Purge carry a node; a Delete redirect carries a uri; Items pass the item check; a Subscription event holds a valid subscription |
| PubSubEvent.IsPubSubEventMonotone | src/base/QXmppPubSubEvent.cpp:264-276 | a laxer item check accepts at least the same events |
| PubSubEvent.ParseExtensionRules | src/base/QXmppPubSubEvent.cpp:290-359 | a parsed event takes the type its element names and keeps the node only for a Subscription event; a rejected or handed-on element changes nothing |
| PubSubEvent.EventRoundTrip | src/base/QXmppPubSubEvent.cpp:290-423 | serializing an event and parsing it into a default event gives back every field its type carries, retract ids in order |
| PubSubEvent.DeleteWritesItems | src/base/QXmppPubSubEvent.cpp:385-405 | a Delete falls through and writes its items and retract ids, though the parser reads neither back for a Delete |
| PubSubEvent.SerializedEventAccepted | src/base/QXmppPubSubEvent.cpp:224-288 | every serialized event whose items pass the check, and whose Subscription event holds a subscription, is accepted |
| PubSubEvent.SubscriptionEventWithoutSubscriptionRejected | src/base/QXmppPubSubEvent.cpp:278-283 | a Subscription event without a subscription is written as an element that the check rejects |
| PubSubEvent.Event.constructor | src/base/QXmppPubSubEvent.cpp:78-96 | a new event has the given type and node and nothing else |
| PubSubEvent.Event.ParseExtension | src/base/QXmppPubSubEvent.cpp:290-359 | the outcome and the new fields are those of the parse function, about which ParseExtensionRules and EventRoundTrip hold |
| PubSubEvent.Event.SerializeExtensions | src/base/QXmppPubSubEvent.cpp:361-423 | the written event element is the serialization function applied to the fields |
| PubSubEvent.Event.WriteContent | src/base/QXmppPubSubEvent.cpp:383-405 | a Delete redirect, then for Delete and Items each item and each retract id in order |
| PubSubNodeConfig.AccessModelCodec | src/base/QXmppPubSubNodeConfig.cpp:66-96 | a name reads as exactly the access model it names, and as none when it names none |
| PubSubNodeConfig.PublishModelCodec | src/base/QXmppPubSubNodeConfig.cpp:98-120 | the same for publish models (Anyone is "open") |
| PubSubNodeConfig.ChildAssociationPolicyCodec | src/base/QXmppPubSubNodeConfig.cpp:122-144 | the same for child-association policies |
| PubSubNodeConfig.ItemPublisherCodec | src/base/QXmppPubSubNodeConfig.cpp:146-164 | the same for item publishers |
| PubSubNodeConfig.NodeTypeCodec | src/base/QXmppPubSubNodeConfig.cpp:166-184 | the same for node types |
| PubSubNodeConfig.NotificationTypeCodec | src/base/QXmppPubSubNodeConfig.cpp:186-204 | the same for notification types |
| PubSubNodeConfig.SendLastItemTypeCodec | src/base/QXmppPubSubNodeConfig.cpp:206-228 | the same for send-last-item types |
| PubSubNodeConfig.FromDataForm | src/base/QXmppPubSubNodeConfig.cpp:230-241 | a form of another type gives no configuration; a configuration returned is the one the descriptor loop read |
| PubSubNodeConfig.FromDataFormRefuses | src/base/QXmppPubSubNodeConfig.cpp:230-241 | a node-configuration form is refused exactly when some required descriptor finds no field |
| PubSubNodeConfig.ToDataFormReadBack | src/base/QXmppPubSubNodeConfig.cpp:230-241 | a configuration written by toDataForm is accepted back whenever every required field was written |
| PubSubSubscribeOptions.PresenceStatesFromStringList | src/base/QXmppPubSubSubscribeOptions.cpp:55-69 | the accumulating loop yields the flags of the known names in the list |
| PubSubSubscribeOptions.PresenceStatesToStringList | src/base/QXmppPubSubSubscribeOptions.cpp:71-85 | the appending loop yields the names of the flags set |
| PubSubSubscribeOptions.StatesFromNamesHas | src/base/QXmppPubSubSubscribeOptions.cpp:55-69 | a flag is read exactly when the list holds its name, and no bit outside the five flags is ever set |
| PubSubSubscribeOptions.StatesFromNamesIgnores | src/base/QXmppPubSubSubscribeOptions.cpp:55-69 | unknown and repeated names change nothing; the empty list gives Unset |
| PubSubSubscribeOptions.NamesOfHas | src/base/QXmppPubSubSubscribeOptions.cpp:71-85 | the written list names exactly the flags set and nothing else |
| PubSubSubscribeOptions.NamesOfOrdered | src/base/QXmppPubSubSubscribeOptions.cpp:71-85 | names follow the order away, chat, dnd, online, xa, so each appears at most once |
| PubSubSubscribeOptions.PresenceStatesRoundTrip | src/base/QXmppPubSubSubscribeOptions.cpp:55-85 | every combination of the five flags survives writing and reading back |
| PubSubSubscribeOptions.TypeAndDepthCodec | src/base/QXmppPubSubSubscribeOptions.cpp:235-282 | a set type or depth is written as text its parser reads back whatever the prior value; an unset one writes nothing; other text leaves the prior value |
| PubSubSubscribeOptions.DefaultBodyIndeterminate | src/base/QXmppPubSubSubscribeOptions.cpp:45-53 | as written, the include_body field of a default object depends on the uninitialised member |
| PubSubSubscribeOptions.DefaultsWritten | src/base/QXmppPubSubSubscribeOptions.cpp:45-53 | with the member initialised, a default object writes include_body as false, and reading an empty form keeps the defaults |
| PubSubSubscribeOptions.FormRoundTrip | src/base/QXmppPubSubSubscribeOptions.cpp:178-284 | options written to a form and read back give the options (expiry, type and depth that were not written keep the blank's value) |
| DataFormBased.ToDataForm | src/base/QXmppDataFormBased.cpp:96-121 | the loop builds the form the serialization function gives, about which CollectedFieldsShape holds |
| DataFormBased.CollectedFieldsShape | src/base/QXmppDataFormBased.cpp:100-116 | FORM_TYPE comes first exactly when the form type is non-empty; then, in descriptor order, exactly the fields of the descriptors that write a value |
| DataFormBased.KeptFields | src/base/QXmppDataFormBased.cpp:107-116 | each kept field comes from a descriptor that writes a value, and every such descriptor's field is kept |
| DataFormBased.FindField | src/base/QXmppDataFormBased.cpp:130-134 | the index found is the first field with an equal key and the descriptor's type or the hidden type; none exactly when no such field exists |
| DataFormBased.FromDataForm | src/base/QXmppDataFormBased.cpp:123-145 | the loop with early return gives the success flag and the object of the read-back function |
| DataFormBased.FromDataFormFails | src/base/QXmppDataFormBased.cpp:123-145 | fromDataForm fails exactly when some required descriptor has no matching field, whatever the hooks do |
| DataFormBased.NothingToRead | src/base/QXmppDataFormBased.cpp:130-144 | with only optional descriptors that find nothing, reading succeeds and leaves the object unchanged |
| DataFormBased.BaseDefaults | src/base/QXmppDataFormBased.cpp:147-169 | the base class writes an empty Form and accepts any form unchanged |
| DataFormBased.ToDataFormNamesFormType | src/base/QXmppDataFormBased.cpp:100-105 | a written form names the type's form type |
| DataFormBased.ToDataFormAccepted | src/base/QXmppDataFormBased.cpp:96-145 | reading back what toDataForm wrote succeeds whenever every required descriptor writes a value |
| DataFormBased.ToDataFormReadBack | src/base/QXmppDataFormBased.cpp:96-145 | with distinct keys, reading back what toDataForm wrote parses each written field with its own descriptor |
| DataFormBased.SerializeString | src/base/QXmppDataFormBased.h:100-106 | the field gets a value exactly when the string is not null (or it already had one) |
| DataFormBased.SerializeStringList | src/base/QXmppDataFormBased.h:111-116 | the field gets a value exactly when the list is non-empty (or it already had one) |
| DataFormBased.ParseOptionalBool | src/base/QXmppDataFormBased.h:118-121 | the optional is always engaged |
| DataFormBased.SerializeOptionalBool | src/base/QXmppDataFormBased.h:122-127 | the field gets a value exactly when the optional has one (or it already had one) |
| DataFormBased.SerializeOptionalUInt | src/base/QXmppDataFormBased.h:137-142 | the field gets a value exactly when the optional has one (or it already had one) |
| DataFormBased.ParseOptionalUIntAsWritten | src/base/QXmppDataFormBased.h:129-136 | as written: a signed 32-bit reading stored in an unsigned 32-bit value; none when the text is not such a number |
| DataFormBased.WrapUInt32 | src/base/QXmppDataFormBased.h:132 | storing a signed 32-bit value in a `quint32` keeps non-negative values and adds 2^32 to negative ones |
| DataFormBased.ParseOptionalUInt | src/base/QXmppDataFormBased.h:129-136 | the unsigned reading, always below 2^32 |
| DataFormBased.HookRoundTrips | src/base/QXmppDataFormBased.h:96-127 | each parse hook reads back what its serialize hook wrote, and an absent value writes nothing |
| DataFormBased.OptionalUIntRoundTrip | src/base/QXmppDataFormBased.h:129-142 | the unsigned reader reads back every unsigned 32-bit value written |
| DataFormBased.OptionalUIntAsWrittenSmall | src/base/QXmppDataFormBased.h:129-142 | the reader as written agrees up to 2^31 - 1 |
| DataFormBased.OptionalUIntAsWrittenLosesLarge | src/base/QXmppDataFormBased.h:129-142 | the reader as written loses every value from 2^31 to 2^32 - 1 |
| DataFormBased.OptionalUIntAsWrittenWrapsNegative | src/base/QXmppDataFormBased.h:129-136 | the reader as written reads "-1" as 4294967295, which the unsigned reader refuses |
| DataForm.ToCountOfText | src/base/QXmppPubSubSubscribeOptions.cpp:203 | `toUInt` on a string agrees with `QString::toUInt` where that accepts; a number of up to 64 bits wraps modulo 2^32 without being refused; anything else gives 0 |
| DataForm.ToCountOfNumber | src/base/QXmppPubSubSubscribeOptions.cpp:203 | a decimal number of up to 64 bits reads back modulo 2^32 (4294967296 as 0) |
| DataForm.FlagTextRoundTrip | src/base/QXmppDataFormBased.h:118-127 | a boolean written as a value and read as text converts back to itself |
| HttpUpload.WhitelistedProperties | src/base/QXmppHttpUploadIq.cpp:189-196 | only Authorization, Cookie and Expires survive; each allowed input key keeps its value; filtering twice is filtering once |
| HttpUpload.WhitelistedAllowed | src/base/QXmppHttpUploadIq.cpp:189-196 | headers that are all allowed pass unchanged |
| HttpUpload.SlotIq.constructor | src/base/QXmppHttpUploadIq.cpp:138-141 | a new slot has empty URLs and no headers |
| HttpUpload.SlotIq.SetPutHeaders | src/base/QXmppHttpUploadIq.cpp:189-196 | the stored headers are replaced by the allowed ones of the argument (old ones are dropped, not merged); every stored name stays allowed; setting the current headers changes nothing |
| HttpUpload.CollectHeadersReads | src/base/QXmppHttpUploadIq.cpp:214-221 | a name is collected exactly when some header child carries it, with the text of the last such child |
| HttpUpload.SlotIq.CollectHeaderElements | src/base/QXmppHttpUploadIq.cpp:214-221 | the header loop yields the collected map of the header children in document order |
| HttpUpload.SlotIq.ParseElementFromChild | src/base/QXmppHttpUploadIq.cpp:208-225 | both URLs are read; the headers are replaced by the allowed collected ones only when put has child nodes; the allowed-names invariant is kept |
| HttpUpload.ParseSlotAllowed | src/base/QXmppHttpUploadIq.cpp:208-225 | parsing keeps every stored header name allowed |
| Stanza.TypeRoundTrip | src/base/QXmppStanza.cpp:228-266 | every error type, the sentinel included, reads back from its name; only the sentinel has the empty name |
| Stanza.TypeNames | src/base/QXmppStanza.cpp:252-266 | a string reads as a type exactly when it is that type's name, and as the sentinel exactly when it names none |
| Stanza.ErrorToXml | src/base/QXmppStanza.cpp:296-335 | nothing is written exactly when both condition and type are empty; otherwise an error element with type exactly when set and code exactly when positive |
| Stanza.DefaultErrorWritesNothing | src/base/QXmppStanza.cpp:163-168 | a default error (code 0, sentinel type and condition) is never written |
| Stanza.ParseError | src/base/QXmppStanza.cpp:273-294 | the loop over the children yields the error the parse function gives: the last text child's text and the last stanza-namespace condition |
| Stanza.ErrorRoundTrip | src/base/QXmppStanza.cpp:273-335 | reading back a written error gives the error, except that a code that is not positive comes back as 0 |
| Stanza.AddressRoundTrip | src/base/QXmppStanza.cpp:136-160 | every address reads back from what toXml writes, and a default address is not valid |
| Stanza.ParsedAddressesValid | src/base/QXmppStanza.cpp:515-524 | parsing keeps exactly the valid addresses: each kept one is valid and read from an address child, and each valid one is kept |
| Stanza.AddressesRoundTrip | src/base/QXmppStanza.cpp:515-536 | valid addresses written by extensionsToXml are read back in order |
| Stanza.ParseStanzaKeepsValid | src/base/QXmppStanza.cpp:505-525 | parsing appends only valid addresses after those already held |
| Stanza.IdsDistinct | src/base/QXmppStanza.cpp:498-503 | two counter values give the same identifier exactly when they are equal |
| Stanza.CountAfterStep | src/base/QXmppStanza.cpp:498-503 | one more call moves the unsigned counter one step, wrapping to 0 after 2^32 - 1 |
| Stanza.SuccessiveIdsDistinct | src/base/QXmppStanza.cpp:498-503 | the identifiers of two calls coincide exactly when the calls are a multiple of 2^32 apart |
| Stanza.IdCounter.constructor | src/base/QXmppStanza.cpp:35 | the shared counter starts at 0 |
| Stanza.Stanza.constructor | src/base/QXmppStanza.cpp:346-351 | a new stanza has the given sender and recipient and no id, language, error or addresses |
| Stanza.Stanza.GenerateAndSetNextId | src/base/QXmppStanza.cpp:498-503 | the counter advances with unsigned wrap-around and the id becomes "qxmpp" followed by its new value; nothing else changes |
| Stanza.Stanza.Parse | src/base/QXmppStanza.cpp:505-525 | the new fields are those of the parse function: addressing attributes replaced, the error read only when there is one, valid addresses appended |

## Left out

- The XML classes `QXmppSaslAuth`, `QXmppSaslChallenge`, `QXmppSaslFailure`, `QXmppSaslResponse` and `QXmppSaslSuccess` only move values between DOM and setters.
- The process-wide `forcedNonce` and `QXmppSaslDigestMd5::setNonce` are global state for tests. The forced nonce is a constructor parameter here, and the random octets are a parameter too.
- `warning(...)` logging has no effect on the outcome.
- MD5, SHA-1, SHA-256, HMAC, base64 decoding and `QUrlQuery` are Qt library code. They are function-valued parameters and are not defined. Digests are assumed to be octet strings of the algorithm's length. `QByteArray::fromBase64` is assumed to undo `toBase64` on octet strings; its handling of malformed text is not modelled.
- Strings and byte arrays are both sequences of characters. UTF-8 conversion of user names and passwords is not modelled.
- `QVariant` conversions (`toString`, `toStringList`, `toBool`, `toUInt`) are written as Qt 5 defines them for the kinds of value the data-form types store. `toUInt` on a string reads it with `toULongLong` and casts the result to `uint` (`DataForm.ToCount`).
- `QXmppDataForm::formType` is taken to be the value of the hidden FORM_TYPE field. `QXmppDataForm.cpp` is not part of this model.
- Field descriptors hold parse and serialize hooks as functions on a value of the object, not closures that mutate it.
- The `.h` helpers return their result instead of writing an out-parameter.
- The node-configuration descriptor table, `QXmppPubSubMetadata` and `QXmppPubSubSubAuthorization` are accessor boilerplate and are not modelled.
- Dates: subscription expiry and the subscribe-options expiry are kept as text. QDateTime conversion and validity are not modelled.
- URLs of the upload slot are kept as their encoded text. `QUrl` parsing is not modelled.
- `hasChildNodes` is approximated by "has child elements or text".
- `isHttpUploadSlotIq`, the slot's `toXmlElementFromChild` and the upload request IQ are not modelled.
- The order of the Subscription state and ConfigurationSupport enumerations is taken from the state table and from the `> Unavailable` comparison; their header is not part of this model.
- Namespace constants are the XEP-0060, XEP-0033, XEP-0363 and RFC 6120 values; `QXmppConstants_p.h` is not part of this model.
- `helperToXmlAddAttribute` is taken to write an attribute only when its value is non-empty. Its source is not part of this model.
- Item payload hooks (`parsePayload`, `serializePayload`) are the base class's, which read and write nothing.
- The configuration form of a Configuration event is not modelled.
- The `QXmppMessage` base parsing that `parseExtension` hands other elements to is not modelled.
- Stanza error conditions are held by name. `strFromCondition` and `conditionFromStr` are not part of this model, so an unknown condition name is not mapped to the sentinel.
- The `Error(type, condition, text)` constructors and the accessors are not modelled. `setTypeFromStr` is a function whose result the parser assigns.
- The error element takes the enclosing stanza's namespace when written; the model shows it as the empty namespace.
- Stanza extensions (`QXmppElementList`), `isXmppStanza` and the stanza's own `toXml` are not modelled.
- The static counter `s_uniqeIdNo` is an `IdCounter` object passed to `GenerateAndSetNextId`. Threads sharing it are not modelled.
- DigestMd5Codec.ParseSerializeRoundTrip: holds only for values without a backslash. A value ending in a backslash is lost (TrailingBackslashLost), and the source's codec is modelled as written, with no corrected version.
- Stanza.ErrorRoundTrip: excludes a condition named "text", which the parser would read as the text child, and codes above 2^31 - 1, which `toInt` does not read.
- MD5 digests are compared as hex text, as the source does. No property of the hash itself is assumed.
- The DOM model drops comments and processing instructions, and holds one text per element.

## Findings

| source | as written | input that shows it | evidently intended | confidence | as-written member | corrected member |
|---|---|---|---|---|---|---|
| src/base/QXmppDataFormBased.h:129-136 | `parseOptionalUInt` reads the text with `toInt` and stores the result in a `quint32` | the text "-1" gives 4294967295; the value 2147483648 is written as "2147483648" and read back as no value | read the text as an unsigned 32-bit number, the inverse of `serializeOptionalUInt` | not executed | DataFormBased.OptionalUIntAsWrittenWrapsNegative | DataFormBased.OptionalUIntRoundTrip |
| src/base/QXmppPubSubSubscribeOptions.cpp:45-53 | the private-data constructor initialises every member except `bodyIncluded` | a default-constructed object written to a form: its pubsub#include_body field holds whatever the uninitialised member holds | `bodyIncluded(false)`, so a default object writes include_body as false | not executed | PubSubSubscribeOptions.DefaultBodyIndeterminate | PubSubSubscribeOptions.DefaultsWritten |
| src/base/QXmppPubSubIq.cpp:357-365 | the `Subscription` case of `isPubSubIq` has no `break`, so it falls into the owner-namespace check for Delete, Purge and Configure | any Subscription IQ the serializer writes: a `<subscription/>` in the pubsub namespace with a jid, which `isPubSubIq` rejects | a `break` after the subscription check | not executed | PubSubIq.SubscriptionIqRejected | PubSubIq.SerializedIqValid |

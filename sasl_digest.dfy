/** The DIGEST-MD5 messages of RFC 2831 as QXmppSaslClientDigestMd5 and
    QXmppSaslServerDigestMd5 build them: the maps each side fills before
    serializing, and the values both sides derive. */
module SaslDigestMd5 {
  import opened Wrappers
  import opened ByteText
  import opened AttrMap
  import opened Crypto

  const DIGEST_NC: Bytes := "00000001"

  /** The digest-uri of the client: "serviceType/host". */
  function DigestUri(serviceType: string, host: string): Bytes {
    serviceType + "/" + host
  }

  /** H(username:realm:password), the secret both sides derive. */
  function DigestSecret(p: Primitives, username: Bytes, realm: Bytes, password: Bytes): Bytes {
    p.hash(Md5, username + ":" + realm + ":" + password)
  }

  /** The client goes on with a challenge that has a nonce and offers the
      "auth" quality of protection (the default when qop is absent). */
  predicate AcceptsChallenge(input: Entries) {
    Lookup(input, "nonce").Some? && "auth" in Split(ValueOr(input, "qop", "auth"), ',')
  }

  /** The assignments of the client's second step, in the order of the
      source; the realm only when it is not empty. */
  function ClientResponsePairs(username: Bytes, realm: Bytes, nonce: Bytes, cnonce: Bytes, digestUri: Bytes,
                               response: Bytes): Entries {
    [("username", username)] + (if |realm| > 0 then [("realm", realm)] else [])
    + [("nonce", nonce), ("qop", "auth"), ("cnonce", cnonce), ("nc", DIGEST_NC), ("digest-uri", digestUri),
       ("response", response), ("charset", "utf-8")]
  }

  /** The response map of the client's second step. */
  function ClientResponseMap(username: Bytes, realm: Bytes, nonce: Bytes, cnonce: Bytes, digestUri: Bytes,
                             response: Bytes): (m: Entries)
    ensures Sorted(m)
  {
    InsertAll([], ClientResponsePairs(username, realm, nonce, cnonce, digestUri, response))
  }

  /** The assignments of the server's first challenge, in the order of the
      source; the realm only when one is set. */
  function ServerChallengePairs(nonce: Bytes, realm: Bytes): Entries {
    [("nonce", nonce)] + (if |realm| > 0 then [("realm", realm)] else [])
    + [("qop", "auth"), ("charset", "utf-8"), ("algorithm", "md5-sess")]
  }

  /** The map of the server's first challenge. */
  function ServerChallengeMap(nonce: Bytes, realm: Bytes): (m: Entries)
    ensures Sorted(m)
  {
    InsertAll([], ServerChallengePairs(nonce, realm))
  }
}

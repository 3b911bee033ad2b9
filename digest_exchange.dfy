/** DIGEST-MD5 (RFC 2831) as QXmppSaslClientDigestMd5 and
    QXmppSaslServerDigestMd5 see each other: each side reads back the map
    the other serialized, and with the same password the digests agree. */
module DigestMd5Exchange {
  import opened Wrappers
  import opened ByteText
  import opened AttrMap
  import opened Crypto
  import opened DigestMd5Codec
  import opened SaslDigestMd5

  /** A word of lower-case letters and dashes from index `i` on, as every
      key both sides write is. */
  predicate LowerFrom(k: Bytes, i: nat)
    decreases |k| - i
  {
    i >= |k| || ((('a' <= k[i] <= 'z') || k[i] == '-') && LowerFrom(k, i + 1))
  }

  predicate LowerWord(k: Bytes) {
    LowerFrom(k, 0)
  }

  /** No character of such a word is a separator or a space. */
  lemma {:induction false} LowerFromToken(k: Bytes, i: nat)
    requires LowerFrom(k, i)
    ensures forall j :: i <= j < |k| ==> k[j] !in SEPARATORS && !IsSpace(k[j])
    decreases |k| - i
  {
    if i < |k| {
      LowerFromToken(k, i + 1);
      LowerNotSeparator(k[i]);
    }
  }

  lemma LowerNotSeparator(c: char)
    requires ('a' <= c <= 'z') || c == '-'
    ensures c !in SEPARATORS && !IsSpace(c)
  {
  }

  /** Such a word is a token, so it is written and read back unquoted. */
  lemma LowerWordToken(k: Bytes)
    requires LowerWord(k)
    ensures IsToken(k)
  {
    LowerFromToken(k, 0);
  }

  /** Assignments of lower-case keys and backslash-free values. */
  predicate PairsRoundTrip(pairs: Entries) {
    forall e :: e in pairs ==> LowerWord(e.0) && '\\' !in e.1
  }

  /** A map filled from such assignments is read back exactly. */
  lemma FilledMapRoundTrips(pairs: Entries)
    requires PairsRoundTrip(pairs)
    ensures ParseFrom(Serialize(InsertAll([], pairs)), 0, []) == InsertAll([], pairs)
  {
    var m := InsertAll([], pairs);
    InsertAllEntries([], pairs);
    forall i | 0 <= i < |m| ensures IsToken(m[i].0) && '\\' !in m[i].1 {
      assert m[i] in pairs;
      LowerWordToken(m[i].0);
    }
    ParseSerializeRoundTrip(m);
  }

  /** The realm is assigned only when it is not empty. */
  function WithRealm(m: Entries, realm: Bytes): (r: Entries)
    requires Sorted(m)
    ensures Sorted(r)
  {
    if |realm| > 0 then Insert(m, "realm", realm) else m
  }

  /** The server's challenge map, spelled out as its assignments. */
  lemma ServerChallengeChain(nonce: Bytes, realm: Bytes)
    ensures ServerChallengeMap(nonce, realm)
      == Insert(Insert(Insert(WithRealm(Insert([], "nonce", nonce), realm), "qop", "auth"), "charset", "utf-8"),
                "algorithm", "md5-sess")
  {
    var rest := ServerChallengePairs(nonce, realm);
    var m := [];
    InsertAllStep(m, rest);
    m := Insert(m, "nonce", nonce);
    rest := rest[1..];
    if |realm| > 0 {
      InsertAllStep(m, rest);
      m := Insert(m, "realm", realm);
      rest := rest[1..];
    }
    assert rest == [("qop", "auth"), ("charset", "utf-8"), ("algorithm", "md5-sess")];
    InsertAllStep(m, rest);
    m := Insert(m, "qop", "auth");
    rest := rest[1..];
    InsertAllStep(m, rest);
    m := Insert(m, "charset", "utf-8");
    rest := rest[1..];
    InsertAllStep(m, rest);
    m := Insert(m, "algorithm", "md5-sess");
    rest := rest[1..];
  }

  /** The first assignments of the server's challenge. */
  lemma ChallengeHead(nonce: Bytes, realm: Bytes)
    ensures var m := WithRealm(Insert([], "nonce", nonce), realm);
      Lookup(m, "nonce") == Some(nonce) && ValueOr(m, "realm", []) == realm
  {
    var m := Insert([], "nonce", nonce);
    InsertLookup([], "nonce", nonce, "realm");
    if |realm| > 0 {
      InsertLookup(m, "realm", realm, "nonce");
      InsertLookup(m, "realm", realm, "realm");
    }
  }

  /** The last assignments of the server's challenge. */
  lemma ChallengeTail(m0: Entries)
    requires Sorted(m0)
    ensures var m := Insert(Insert(Insert(m0, "qop", "auth"), "charset", "utf-8"), "algorithm", "md5-sess");
      Lookup(m, "qop") == Some("auth") && Lookup(m, "charset") == Some("utf-8") &&
      Lookup(m, "algorithm") == Some("md5-sess") &&
      Lookup(m, "nonce") == Lookup(m0, "nonce") && Lookup(m, "realm") == Lookup(m0, "realm")
  {
    var m1 := Insert(m0, "qop", "auth");
    var m2 := Insert(m1, "charset", "utf-8");
    var m3 := Insert(m2, "algorithm", "md5-sess");
    InsertLookup(m0, "qop", "auth", "nonce");
    InsertLookup(m0, "qop", "auth", "realm");
    InsertLookup(m1, "charset", "utf-8", "nonce");
    InsertLookup(m1, "charset", "utf-8", "realm");
    InsertLookup(m1, "charset", "utf-8", "qop");
    InsertLookup(m2, "algorithm", "md5-sess", "nonce");
    InsertLookup(m2, "algorithm", "md5-sess", "realm");
    InsertLookup(m2, "algorithm", "md5-sess", "qop");
    InsertLookup(m2, "algorithm", "md5-sess", "charset");
  }

  /** What the server's first challenge holds. */
  lemma ServerChallengeLookups(nonce: Bytes, realm: Bytes)
    ensures var m := ServerChallengeMap(nonce, realm);
      Lookup(m, "nonce") == Some(nonce) && ValueOr(m, "realm", []) == realm && Lookup(m, "qop") == Some("auth")
      && Lookup(m, "charset") == Some("utf-8") && Lookup(m, "algorithm") == Some("md5-sess")
  {
    ServerChallengeChain(nonce, realm);
    ChallengeHead(nonce, realm);
    ChallengeTail(WithRealm(Insert([], "nonce", nonce), realm));
  }

  /** The assignments of the server's challenge can be read back. */
  lemma ServerChallengePairsRoundTrip(nonce: Bytes, realm: Bytes)
    requires '\\' !in nonce && '\\' !in realm
    ensures PairsRoundTrip(ServerChallengePairs(nonce, realm))
  {
    var head := [("nonce", nonce)] + (if |realm| > 0 then [("realm", realm)] else []);
    var tail := [("qop", "auth"), ("charset", "utf-8"), ("algorithm", "md5-sess")];
    RealmHeadRoundTrips("nonce", nonce, realm);
    ChallengeTailRoundTrips();
    assert ServerChallengePairs(nonce, realm) == head + tail;
    PairsConcat(head, tail);
  }

  lemma RealmHeadRoundTrips(key: Bytes, value: Bytes, realm: Bytes)
    requires LowerWord(key) && '\\' !in value && '\\' !in realm
    ensures PairsRoundTrip([(key, value)] + (if |realm| > 0 then [("realm", realm)] else []))
  {
    assert LowerWord("realm");
  }

  lemma ChallengeTailRoundTrips()
    ensures PairsRoundTrip([("qop", "auth"), ("charset", "utf-8"), ("algorithm", "md5-sess")])
  {
    assert LowerWord("qop") && LowerWord("charset") && LowerWord("algorithm");
  }

  lemma PairsConcat(a: Entries, b: Entries)
    requires PairsRoundTrip(a) && PairsRoundTrip(b)
    ensures PairsRoundTrip(a + b)
  {
  }

  /** The server's first challenge is read back exactly. */
  lemma ServerChallengeRoundTrips(nonce: Bytes, realm: Bytes)
    requires '\\' !in nonce && '\\' !in realm
    ensures ParseFrom(Serialize(ServerChallengeMap(nonce, realm)), 0, []) == ServerChallengeMap(nonce, realm)
  {
    ServerChallengePairsRoundTrip(nonce, realm);
    FilledMapRoundTrips(ServerChallengePairs(nonce, realm));
  }

  /** The client reads the server's first challenge: it goes on, and sees
      the server's nonce and realm. */
  lemma ClientReadsServerChallenge(nonce: Bytes, realm: Bytes)
    requires '\\' !in nonce && '\\' !in realm
    ensures var input := ParseFrom(Serialize(ServerChallengeMap(nonce, realm)), 0, []);
      AcceptsChallenge(input) && ValueOr(input, "nonce", []) == nonce && ValueOr(input, "realm", []) == realm
  {
    ServerChallengeRoundTrips(nonce, realm);
    ServerChallengeLookups(nonce, realm);
    var input := ParseFrom(Serialize(ServerChallengeMap(nonce, realm)), 0, []);
    assert ValueOr(input, "qop", "auth") == "auth";
    AuthOffered();
  }

  /** A qop of "auth" alone offers "auth". */
  lemma AuthOffered()
    ensures "auth" in Split("auth", ',')
  {
    SplitJoin(["auth"], ',');
  }

  /** The first assignments of the client's response. */
  function ResponseHead(username: Bytes, realm: Bytes): (m: Entries)
    ensures Sorted(m)
  {
    WithRealm(Insert([], "username", username), realm)
  }

  /** The middle assignments of the client's response. */
  function ResponseMiddle(m: Entries, nonce: Bytes, cnonce: Bytes): (r: Entries)
    requires Sorted(m)
    ensures Sorted(r)
  {
    Insert(Insert(Insert(m, "nonce", nonce), "qop", "auth"), "cnonce", cnonce)
  }

  /** The last assignments of the client's response. */
  function ResponseTail(m: Entries, digestUri: Bytes, response: Bytes): (r: Entries)
    requires Sorted(m)
    ensures Sorted(r)
  {
    Insert(Insert(Insert(Insert(m, "nc", DIGEST_NC), "digest-uri", digestUri), "response", response), "charset", "utf-8")
  }

  /** The client's response map, spelled out as its assignments. */
  lemma ClientResponseChain(username: Bytes, realm: Bytes, nonce: Bytes, cnonce: Bytes, digestUri: Bytes,
                            response: Bytes)
    ensures ClientResponseMap(username, realm, nonce, cnonce, digestUri, response)
      == ResponseTail(ResponseMiddle(ResponseHead(username, realm), nonce, cnonce), digestUri, response)
  {
    var rest := ClientResponsePairs(username, realm, nonce, cnonce, digestUri, response);
    var m := [];
    InsertAllStep(m, rest);
    m := Insert(m, "username", username);
    rest := rest[1..];
    if |realm| > 0 {
      InsertAllStep(m, rest);
      m := Insert(m, "realm", realm);
      rest := rest[1..];
    }
    assert m == ResponseHead(username, realm);
    assert rest == [("nonce", nonce), ("qop", "auth"), ("cnonce", cnonce), ("nc", DIGEST_NC), ("digest-uri", digestUri),
                    ("response", response), ("charset", "utf-8")];
    InsertAllStep(m, rest);
    m := Insert(m, "nonce", nonce);
    rest := rest[1..];
    InsertAllStep(m, rest);
    m := Insert(m, "qop", "auth");
    rest := rest[1..];
    InsertAllStep(m, rest);
    m := Insert(m, "cnonce", cnonce);
    rest := rest[1..];
    InsertAllStep(m, rest);
    m := Insert(m, "nc", DIGEST_NC);
    rest := rest[1..];
    InsertAllStep(m, rest);
    m := Insert(m, "digest-uri", digestUri);
    rest := rest[1..];
    InsertAllStep(m, rest);
    m := Insert(m, "response", response);
    rest := rest[1..];
    InsertAllStep(m, rest);
    m := Insert(m, "charset", "utf-8");
    rest := rest[1..];
  }

  lemma ResponseHeadLookups(username: Bytes, realm: Bytes)
    ensures Lookup(ResponseHead(username, realm), "username") == Some(username)
    ensures ValueOr(ResponseHead(username, realm), "realm", []) == realm
  {
    var m := Insert([], "username", username);
    InsertLookup([], "username", username, "realm");
    if |realm| > 0 {
      InsertLookup(m, "realm", realm, "username");
      InsertLookup(m, "realm", realm, "realm");
    }
  }

  lemma ResponseMiddleLookups(m: Entries, nonce: Bytes, cnonce: Bytes)
    requires Sorted(m)
    ensures var r := ResponseMiddle(m, nonce, cnonce);
      Lookup(r, "nonce") == Some(nonce) && Lookup(r, "qop") == Some("auth") && Lookup(r, "cnonce") == Some(cnonce) &&
      Lookup(r, "username") == Lookup(m, "username") && Lookup(r, "realm") == Lookup(m, "realm")
  {
    var m1 := Insert(m, "nonce", nonce);
    var m2 := Insert(m1, "qop", "auth");
    InsertLookup(m, "nonce", nonce, "username");
    InsertLookup(m, "nonce", nonce, "realm");
    InsertLookup(m1, "qop", "auth", "username");
    InsertLookup(m1, "qop", "auth", "realm");
    InsertLookup(m1, "qop", "auth", "nonce");
    InsertLookup(m2, "cnonce", cnonce, "username");
    InsertLookup(m2, "cnonce", cnonce, "realm");
    InsertLookup(m2, "cnonce", cnonce, "nonce");
    InsertLookup(m2, "cnonce", cnonce, "qop");
  }

  lemma ResponseTailLookups(m: Entries, digestUri: Bytes, response: Bytes)
    requires Sorted(m)
    ensures var r := ResponseTail(m, digestUri, response);
      Lookup(r, "nc") == Some(DIGEST_NC) && Lookup(r, "digest-uri") == Some(digestUri) &&
      Lookup(r, "response") == Some(response) && Lookup(r, "charset") == Some("utf-8")
  {
    var m1 := Insert(m, "nc", DIGEST_NC);
    var m2 := Insert(m1, "digest-uri", digestUri);
    var m3 := Insert(m2, "response", response);
    InsertLookup(m1, "digest-uri", digestUri, "nc");
    InsertLookup(m2, "response", response, "nc");
    InsertLookup(m2, "response", response, "digest-uri");
    InsertLookup(m3, "charset", "utf-8", "nc");
    InsertLookup(m3, "charset", "utf-8", "digest-uri");
    InsertLookup(m3, "charset", "utf-8", "response");
  }

  lemma ResponseTailKeeps(m: Entries, digestUri: Bytes, response: Bytes, k: Bytes)
    requires Sorted(m)
    requires k != "nc" && k != "digest-uri" && k != "response" && k != "charset"
    ensures Lookup(ResponseTail(m, digestUri, response), k) == Lookup(m, k)
  {
    var m1 := Insert(m, "nc", DIGEST_NC);
    var m2 := Insert(m1, "digest-uri", digestUri);
    var m3 := Insert(m2, "response", response);
    InsertLookup(m, "nc", DIGEST_NC, k);
    InsertLookup(m1, "digest-uri", digestUri, k);
    InsertLookup(m2, "response", response, k);
    InsertLookup(m3, "charset", "utf-8", k);
  }

  /** What the client's response holds. */
  lemma ClientResponseLookups(username: Bytes, realm: Bytes, nonce: Bytes, cnonce: Bytes, digestUri: Bytes,
                              response: Bytes)
    ensures var m := ClientResponseMap(username, realm, nonce, cnonce, digestUri, response);
      Lookup(m, "username") == Some(username) && ValueOr(m, "realm", []) == realm &&
      Lookup(m, "nonce") == Some(nonce) && Lookup(m, "qop") == Some("auth") &&
      Lookup(m, "cnonce") == Some(cnonce) && Lookup(m, "nc") == Some(DIGEST_NC) &&
      Lookup(m, "digest-uri") == Some(digestUri) && Lookup(m, "response") == Some(response) &&
      Lookup(m, "charset") == Some("utf-8")
  {
    ClientResponseChain(username, realm, nonce, cnonce, digestUri, response);
    var head := ResponseHead(username, realm);
    var middle := ResponseMiddle(head, nonce, cnonce);
    ResponseHeadLookups(username, realm);
    ResponseMiddleLookups(head, nonce, cnonce);
    ResponseTailLookups(middle, digestUri, response);
    ResponseTailKeeps(middle, digestUri, response, "username");
    ResponseTailKeeps(middle, digestUri, response, "realm");
    ResponseTailKeeps(middle, digestUri, response, "nonce");
    ResponseTailKeeps(middle, digestUri, response, "qop");
    ResponseTailKeeps(middle, digestUri, response, "cnonce");
  }

  /** The assignments of the client's response can be read back. */
  lemma ClientResponsePairsRoundTrip(username: Bytes, realm: Bytes, nonce: Bytes, cnonce: Bytes, digestUri: Bytes,
                                     response: Bytes)
    requires '\\' !in username && '\\' !in realm && '\\' !in nonce && '\\' !in cnonce
    requires '\\' !in digestUri && '\\' !in response
    ensures PairsRoundTrip(ClientResponsePairs(username, realm, nonce, cnonce, digestUri, response))
  {
    var head := [("username", username)] + (if |realm| > 0 then [("realm", realm)] else []);
    var middle := [("nonce", nonce), ("qop", "auth"), ("cnonce", cnonce)];
    var tail := [("nc", DIGEST_NC), ("digest-uri", digestUri), ("response", response), ("charset", "utf-8")];
    assert LowerWord("username");
    RealmHeadRoundTrips("username", username, realm);
    ResponseMiddleRoundTrips(nonce, cnonce);
    ResponseTailRoundTrips(digestUri, response);
    assert ClientResponsePairs(username, realm, nonce, cnonce, digestUri, response) == head + middle + tail;
    PairsConcat(head, middle);
    PairsConcat(head + middle, tail);
  }

  lemma ResponseMiddleRoundTrips(nonce: Bytes, cnonce: Bytes)
    requires '\\' !in nonce && '\\' !in cnonce
    ensures PairsRoundTrip([("nonce", nonce), ("qop", "auth"), ("cnonce", cnonce)])
  {
    assert LowerWord("nonce") && LowerWord("qop") && LowerWord("cnonce");
  }

  lemma ResponseTailRoundTrips(digestUri: Bytes, response: Bytes)
    requires '\\' !in digestUri && '\\' !in response
    ensures PairsRoundTrip([("nc", DIGEST_NC), ("digest-uri", digestUri), ("response", response), ("charset", "utf-8")])
  {
    assert LowerWord("nc") && LowerWord("digest-uri") && LowerWord("response") && LowerWord("charset");
    assert '\\' !in DIGEST_NC;
  }

  /** The client's response is read back exactly when none of its values
      holds a backslash. */
  lemma ClientResponseRoundTrips(username: Bytes, realm: Bytes, nonce: Bytes, cnonce: Bytes, digestUri: Bytes,
                                 response: Bytes)
    requires '\\' !in username && '\\' !in realm && '\\' !in nonce && '\\' !in cnonce
    requires '\\' !in digestUri && '\\' !in response
    ensures var m := ClientResponseMap(username, realm, nonce, cnonce, digestUri, response);
      ParseFrom(Serialize(m), 0, []) == m
  {
    ClientResponsePairsRoundTrip(username, realm, nonce, cnonce, digestUri, response);
    FilledMapRoundTrips(ClientResponsePairs(username, realm, nonce, cnonce, digestUri, response));
  }

  /** The server reads the client's response: "auth", the user name, the
      realm (empty when the client sent none), the nonce counter, the
      client nonce, the digest-uri and the response digest. */
  lemma ServerReadsClientResponse(username: Bytes, realm: Bytes, nonce: Bytes, cnonce: Bytes, digestUri: Bytes,
                                  response: Bytes)
    requires '\\' !in username && '\\' !in realm && '\\' !in nonce && '\\' !in cnonce
    requires '\\' !in digestUri && '\\' !in response
    ensures var input := ParseFrom(Serialize(ClientResponseMap(username, realm, nonce, cnonce, digestUri, response)), 0, []);
      ValueOr(input, "qop", []) == "auth" && ValueOr(input, "username", []) == username &&
      ValueOr(input, "realm", []) == realm && ValueOr(input, "nc", []) == DIGEST_NC &&
      ValueOr(input, "cnonce", []) == cnonce && ValueOr(input, "digest-uri", []) == digestUri &&
      ValueOr(input, "response", []) == response
  {
    ClientResponseRoundTrips(username, realm, nonce, cnonce, digestUri, response);
    ClientResponseLookups(username, realm, nonce, cnonce, digestUri, response);
  }

  /** Lower-case hex holds no backslash. */
  lemma HexHasNoBackslash(s: Bytes)
    requires IsLowerHex(s)
    ensures '\\' !in s
  {
  }

  /** A lone rspauth pair is read back. */
  lemma RspAuthReadBack(rspauth: Bytes)
    requires '\\' !in rspauth
    ensures ValueOr(ParseFrom(Serialize([("rspauth", rspauth)]), 0, []), "rspauth", []) == rspauth
  {
    assert LowerWord("rspauth");
    LowerWordToken("rspauth");
    ParseSerializeRoundTrip([("rspauth", rspauth)]);
  }

  /** Mutual authentication: when the client answers the server's challenge
      with the password the server holds, the server finds the response
      digest it expects, and the client finds in the server's rspauth the
      digest it expects. */
  lemma DigestMutualAuthentication(p: Primitives, username: Bytes, realm: Bytes, password: Bytes,
                                   nonce: Bytes, cnonce: Bytes, digestUri: Bytes)
    requires '\\' !in username && '\\' !in realm && '\\' !in nonce && '\\' !in cnonce && '\\' !in digestUri
    ensures var secret := DigestSecret(p, username, realm, password);
      var sent := ClientResponseMap(username, realm, nonce, cnonce, digestUri,
                                    CalculateDigest(p, "AUTHENTICATE", digestUri, secret, nonce, cnonce, DIGEST_NC));
      var input := ParseFrom(Serialize(sent), 0, []);
      var serverSecret := DigestSecret(p, ValueOr(input, "username", []), ValueOr(input, "realm", []), password);
      ValueOr(input, "qop", []) == "auth" &&
      ValueOr(input, "response", [])
        == CalculateDigest(p, "AUTHENTICATE", ValueOr(input, "digest-uri", []), serverSecret, nonce,
                           ValueOr(input, "cnonce", []), ValueOr(input, "nc", [])) &&
      var rspauth := CalculateDigest(p, [], ValueOr(input, "digest-uri", []), serverSecret, nonce,
                                     ValueOr(input, "cnonce", []), ValueOr(input, "nc", []));
      ValueOr(ParseFrom(Serialize([("rspauth", rspauth)]), 0, []), "rspauth", [])
        == CalculateDigest(p, [], digestUri, secret, nonce, cnonce, DIGEST_NC)
  {
    var secret := DigestSecret(p, username, realm, password);
    var response := CalculateDigest(p, "AUTHENTICATE", digestUri, secret, nonce, cnonce, DIGEST_NC);
    HexHasNoBackslash(response);
    ServerReadsClientResponse(username, realm, nonce, cnonce, digestUri, response);
    var rspauth := CalculateDigest(p, [], digestUri, secret, nonce, cnonce, DIGEST_NC);
    HexHasNoBackslash(rspauth);
    RspAuthReadBack(rspauth);
  }
}

/** The client side of SASL (QXmppSaslClient and its subclasses).  Each
    mechanism is a class whose `step` field counts the exchanges so far.
    `Respond` answers a server challenge: it returns whether the exchange may
    go on, and the response it writes, or None when it leaves the caller's
    response buffer untouched.  Text (QString) and octets (QByteArray) are
    both character sequences; toUtf8 and toLatin1 are the identity. */
module SaslClient {
  import opened Wrappers
  import opened ByteText
  import opened AttrMap
  import opened Crypto
  import opened Decimal
  import opened DigestMd5Codec
  import opened Gs2
  import opened SaslDigestMd5

  const NUL: char := 0 as char

  /** The PLAIN message of RFC 4616 (and of X-OAUTH2): an empty
      authorization identity, the user name and the password, each preceded
      by a NUL octet. */
  function PlainMessage(username: string, password: string): (r: Bytes)
    ensures |r| == |username| + |password| + 2 && r[0] == NUL && r[|username| + 1] == NUL
  {
    [NUL] + username + [NUL] + password
  }

  /** QXmppSaslClientAnonymous. */
  class AnonymousClient {
    var step: nat

    constructor()
      ensures step == 0
    {
      step := 0;
    }

    /** One empty response, then refusal. */
    method Respond(challenge: Bytes) returns (ok: bool, response: Option<Bytes>)
      modifies this
      ensures ok <==> old(step) == 0
      ensures ok ==> response == Some([]) && step == 1
      ensures !ok ==> response.None? && step == old(step)
    {
      if step == 0 {
        response := Some([]);
        step := step + 1;
        ok := true;
      } else {
        response := None;
        ok := false;
      }
    }
  }

  /** QXmppSaslClientPlain. */
  class PlainClient {
    var username: string
    var password: string
    var step: nat

    constructor()
      ensures username == [] && password == [] && step == 0
    {
      username, password, step := [], [], 0;
    }

    /** The credentials in the first response, then refusal. */
    method Respond(challenge: Bytes) returns (ok: bool, response: Option<Bytes>)
      modifies this`step
      ensures ok <==> old(step) == 0
      ensures ok ==> response == Some(PlainMessage(username, password)) && step == 1
      ensures !ok ==> response.None? && step == old(step)
    {
      if step == 0 {
        response := Some([NUL] + username + [NUL] + password);
        step := step + 1;
        ok := true;
      } else {
        response := None;
        ok := false;
      }
    }
  }

  /** QXmppSaslClientGoogle (X-OAUTH2): the access token travels in the
      password field of a PLAIN message. */
  class GoogleClient {
    var username: string
    var password: string
    var step: nat

    constructor()
      ensures username == [] && password == [] && step == 0
    {
      username, password, step := [], [], 0;
    }

    method Respond(challenge: Bytes) returns (ok: bool, response: Option<Bytes>)
      modifies this`step
      ensures ok <==> old(step) == 0
      ensures ok ==> response == Some(PlainMessage(username, password)) && step == 1
      ensures !ok ==> response.None? && step == old(step)
    {
      if step == 0 {
        response := Some([NUL] + username + [NUL] + password);
        step := step + 1;
        ok := true;
      } else {
        response := None;
        ok := false;
      }
    }
  }

  /** QXmppSaslClientWindowsLive (X-MESSENGER-OAUTH2): the password holds a
      base64 token, which is sent decoded. */
  class WindowsLiveClient {
    const crypto: Primitives
    var username: string
    var password: string
    var step: nat

    constructor(crypto: Primitives)
      ensures this.crypto == crypto && username == [] && password == [] && step == 0
    {
      this.crypto := crypto;
      username, password, step := [], [], 0;
    }

    method Respond(challenge: Bytes) returns (ok: bool, response: Option<Bytes>)
      modifies this`step
      ensures ok <==> old(step) == 0
      ensures ok ==> response == Some(crypto.fromBase64(password)) && step == 1
      ensures !ok ==> response.None? && step == old(step)
    {
      if step == 0 {
        response := Some(crypto.fromBase64(password));
        step := step + 1;
        ok := true;
      } else {
        response := None;
        ok := false;
      }
    }
  }

  /** QUrlQuery, which X-FACEBOOK-PLATFORM uses to read the challenge and to
      write the response: a parser into (name, value) items and the inverse
      writer. */
  datatype UrlQuery = UrlQuery(parse: Bytes -> Entries, build: Entries -> Bytes)

  /** The items of the X-FACEBOOK-PLATFORM response, in the order they are
      added. */
  function FacebookItems(accessToken: string, apiKey: string, callMethod: Bytes, nonce: Bytes): Entries {
    [("access_token", accessToken), ("api_key", apiKey), ("call_id", []),
     ("method", callMethod), ("nonce", nonce), ("v", "1.0")]
  }

  /** QXmppSaslClientFacebook. */
  class FacebookClient {
    const query: UrlQuery
    var username: string
    var password: string
    var step: nat

    constructor(query: UrlQuery)
      ensures this.query == query && username == [] && password == [] && step == 0
    {
      this.query := query;
      username, password, step := [], [], 0;
    }

    /** No initial response; then the challenge must name a method and a
        nonce, which the response echoes beside the access token (the
        password) and the application key (the user name). */
    method Respond(challenge: Bytes) returns (ok: bool, response: Option<Bytes>)
      modifies this`step
      ensures old(step) == 0 ==> ok && response == Some([]) && step == 1
      ensures old(step) == 1 ==>
        var items := query.parse(challenge);
        (ok <==> Lookup(items, "method").Some? && Lookup(items, "nonce").Some?) &&
        (ok ==> step == 2 && response == Some(query.build(FacebookItems(password, username,
                  Lookup(items, "method").value, Lookup(items, "nonce").value))))
      ensures old(step) >= 2 ==> !ok
      ensures !ok ==> response.None? && step == old(step)
    {
      if step == 0 {
        response := Some([]);
        step := step + 1;
        ok := true;
      } else if step == 1 {
        var request := query.parse(challenge);
        var callMethod := Lookup(request, "method");
        var nonce := Lookup(request, "nonce");
        if callMethod.None? || nonce.None? {
          return false, None;
        }
        response := Some(query.build(FacebookItems(password, username, callMethod.value, nonce.value)));
        step := step + 1;
        ok := true;
      } else {
        response := None;
        ok := false;
      }
    }
  }

  // DIGEST-MD5 (RFC 2831)

  /** The response map as the client fills it, one assignment at a time. */
  method BuildResponseMap(username: Bytes, realm: Bytes, nonce: Bytes, cnonce: Bytes, digestUri: Bytes,
                          response: Bytes) returns (output: Entries)
    ensures output == ClientResponseMap(username, realm, nonce, cnonce, digestUri, response)
  {
    ghost var rest := ClientResponsePairs(username, realm, nonce, cnonce, digestUri, response);
    output := [];
    InsertAllStep(output, rest);
    output := Insert(output, "username", username);
    rest := rest[1..];
    if |realm| > 0 {
      InsertAllStep(output, rest);
      output := Insert(output, "realm", realm);
      rest := rest[1..];
    }
    assert rest == [("nonce", nonce), ("qop", "auth"), ("cnonce", cnonce), ("nc", DIGEST_NC), ("digest-uri", digestUri),
                    ("response", response), ("charset", "utf-8")];
    InsertAllStep(output, rest);
    output := Insert(output, "nonce", nonce);
    rest := rest[1..];
    InsertAllStep(output, rest);
    output := Insert(output, "qop", "auth");
    rest := rest[1..];
    InsertAllStep(output, rest);
    output := Insert(output, "cnonce", cnonce);
    rest := rest[1..];
    InsertAllStep(output, rest);
    output := Insert(output, "nc", DIGEST_NC);
    rest := rest[1..];
    InsertAllStep(output, rest);
    output := Insert(output, "digest-uri", digestUri);
    rest := rest[1..];
    InsertAllStep(output, rest);
    output := Insert(output, "response", response);
    rest := rest[1..];
    InsertAllStep(output, rest);
    output := Insert(output, "charset", "utf-8");
    rest := rest[1..];
  }

  /** QXmppSaslClientDigestMd5.  The client nonce is generated once, at
      construction. */
  class DigestMd5Client {
    const crypto: Primitives
    const cnonce: Bytes
    const nc: Bytes
    var host: string
    var serviceType: string
    var username: string
    var password: string
    var nonce: Bytes
    var secret: Bytes
    var step: nat

    constructor(crypto: Primitives, forcedNonce: Bytes, random: Bytes)
      ensures this.crypto == crypto && cnonce == GenerateNonce(forcedNonce, random) && nc == DIGEST_NC
      ensures host == [] && serviceType == [] && username == [] && password == []
      ensures nonce == [] && secret == [] && step == 0
    {
      this.crypto := crypto;
      cnonce := GenerateNonce(forcedNonce, random);
      nc := DIGEST_NC;
      host, serviceType, username, password := [], [], [], [];
      nonce, secret, step := [], [], 0;
    }

    /** Step 0 sends nothing.  Step 1 reads the challenge and answers with
        the digest of RFC 2831 section 2.1.2.1.  Step 2 checks the server's
        rspauth.  Any failure leaves the state and the buffer as they were. */
    method Respond(challenge: Bytes) returns (ok: bool, response: Option<Bytes>)
      modifies this`step, this`nonce, this`secret
      ensures old(step) == 0 ==> ok && response == Some([]) && nonce == old(nonce) && secret == old(secret)
      ensures old(step) == 1 ==>
        var input := ParseFrom(challenge, 0, []);
        var realm := ValueOr(input, "realm", []);
        var uri := DigestUri(serviceType, host);
        (ok <==> AcceptsChallenge(input)) &&
        (ok ==> nonce == ValueOr(input, "nonce", []) && secret == DigestSecret(crypto, username, realm, password) &&
                response == Some(Serialize(ClientResponseMap(username, realm, nonce, cnonce, uri,
                                   CalculateDigest(crypto, "AUTHENTICATE", uri, secret, nonce, cnonce, nc)))))
      ensures old(step) == 2 ==>
        (ok <==> ValueOr(ParseFrom(challenge, 0, []), "rspauth", [])
                   == CalculateDigest(crypto, [], DigestUri(serviceType, host), secret, nonce, cnonce, nc)) &&
        (ok ==> response == Some([]) && nonce == old(nonce) && secret == old(secret))
      ensures old(step) >= 3 ==> !ok
      ensures ok ==> step == old(step) + 1
      ensures !ok ==> response.None? && step == old(step) && nonce == old(nonce) && secret == old(secret)
    {
      var digestUri := serviceType + "/" + host;
      if step == 0 {
        response := Some([]);
        step := step + 1;
        ok := true;
      } else if step == 1 {
        var input := ParseMessage(challenge);
        ok, response := RespondToChallenge(input, digestUri);
      } else if step == 2 {
        var input := ParseMessage(challenge);
        if ValueOr(input, "rspauth", []) != CalculateDigest(crypto, [], digestUri, secret, nonce, cnonce, nc) {
          return false, None;
        }
        response := Some([]);
        step := step + 1;
        ok := true;
      } else {
        response := None;
        ok := false;
      }
    }

    /** The serialized response map of the second step. */
    method ComposeResponse(realm: Bytes, digestUri: Bytes) returns (ba: Bytes)
      ensures ba == Serialize(ClientResponseMap(username, realm, nonce, cnonce, digestUri,
                                CalculateDigest(crypto, "AUTHENTICATE", digestUri, secret, nonce, cnonce, nc)))
    {
      var output := BuildResponseMap(username, realm, nonce, cnonce, digestUri,
                                     CalculateDigest(crypto, "AUTHENTICATE", digestUri, secret, nonce, cnonce, nc));
      ba := SerializeMessage(output);
    }

    /** The second step of Respond. */
    method RespondToChallenge(input: Entries, digestUri: Bytes) returns (ok: bool, response: Option<Bytes>)
      requires step == 1 && digestUri == DigestUri(serviceType, host)
      modifies this`step, this`nonce, this`secret
      ensures var realm := ValueOr(input, "realm", []);
        (ok <==> AcceptsChallenge(input)) &&
        (ok ==> nonce == ValueOr(input, "nonce", []) && secret == DigestSecret(crypto, username, realm, password) &&
                response == Some(Serialize(ClientResponseMap(username, realm, nonce, cnonce, digestUri,
                                   CalculateDigest(crypto, "AUTHENTICATE", digestUri, secret, nonce, cnonce, nc)))))
      ensures ok ==> step == 2
      ensures !ok ==> response.None? && step == 1 && nonce == old(nonce) && secret == old(secret)
    {
      if Lookup(input, "nonce").None? {
        return false, None;
      }
      var realm := ValueOr(input, "realm", []);
      var qops := Split(ValueOr(input, "qop", "auth"), ',');
      if "auth" !in qops {
        return false, None;
      }
      nonce := ValueOr(input, "nonce", []);
      secret := crypto.hash(Md5, username + ":" + realm + ":" + password);
      var ba := ComposeResponse(realm, digestUri);
      response := Some(ba);
      step := step + 1;
      ok := true;
    }
  }

  // SCRAM (RFC 5802)

  /** SaltedPassword := Hi(password, salt, i), with Hi the PBKDF2 of RFC 2898
      cut to the digest length. */
  function SaltedPassword(p: Primitives, alg: Algorithm, password: Bytes, salt: Bytes, iterations: int, dkLen: nat): Bytes
    requires p.DigestsValid()
  {
    Pbkdf2(p, alg, password, salt, iterations, dkLen)
  }

  /** ClientKey := HMAC(SaltedPassword, "Client Key"). */
  function ClientKey(p: Primitives, alg: Algorithm, salted: Bytes): Bytes {
    p.hmac(alg, salted, "Client Key")
  }

  /** StoredKey := H(ClientKey). */
  function StoredKey(p: Primitives, alg: Algorithm, clientKey: Bytes): Bytes {
    p.hash(alg, clientKey)
  }

  /** ClientSignature := HMAC(StoredKey, AuthMessage). */
  function ClientSignature(p: Primitives, alg: Algorithm, storedKey: Bytes, authMessage: Bytes): Bytes {
    p.hmac(alg, storedKey, authMessage)
  }

  /** ClientProof := ClientSignature XOR ClientKey. */
  function ClientProof(p: Primitives, alg: Algorithm, salted: Bytes, authMessage: Bytes): (r: Bytes)
    requires p.DigestsValid()
    ensures |r| == DigestLength(alg)
  {
    var clientKey := ClientKey(p, alg, salted);
    Xor(ClientSignature(p, alg, StoredKey(p, alg, clientKey), authMessage), clientKey)
  }

  /** ServerSignature := HMAC(HMAC(SaltedPassword, "Server Key"), AuthMessage). */
  function ServerSignature(p: Primitives, alg: Algorithm, salted: Bytes, authMessage: Bytes): Bytes {
    p.hmac(alg, p.hmac(alg, salted, "Server Key"), authMessage)
  }

  /** The attribute `name` of a SCRAM message. */
  function ScramAttribute(message: Bytes, name: char): Bytes {
    Value(Attributes(Split(message, ',')), name)
  }

  /** The iteration count as read: QByteArray::toInt gives 0 for text that is
      not a 32-bit integer. */
  function ScramIterations(serverFirst: Bytes): int {
    ToInt(ScramAttribute(serverFirst, 'i')).GetOr(0)
  }

  /** The client's final message without proof:
      "c=" base64(gs2-header) ",r=" server-nonce. */
  function ClientFinalBare(gs2Header: Bytes, serverNonce: Bytes): Bytes {
    "c=" + Base64Encode(gs2Header) + ",r=" + serverNonce
  }

  /** What the client checks of the server's first message: its nonce
      extends the client nonce, the salt is not empty, and at least one
      iteration is asked for. */
  predicate AcceptsServerFirst(p: Primitives, clientNonce: Bytes, serverFirst: Bytes) {
    StartsWith(ScramAttribute(serverFirst, 'r'), clientNonce)
    && |p.fromBase64(ScramAttribute(serverFirst, 's'))| > 0
    && ScramIterations(serverFirst) >= 1
  }

  /** AuthMessage := client-first-message-bare "," server-first-message ","
      client-final-message-without-proof. */
  function AuthMessage(clientFirstBare: Bytes, serverFirst: Bytes, gs2Header: Bytes): Bytes {
    clientFirstBare + "," + serverFirst + "," + ClientFinalBare(gs2Header, ScramAttribute(serverFirst, 'r'))
  }

  /** The salted password the client derives from the server's first message. */
  function ScramSalted(p: Primitives, alg: Algorithm, dkLen: nat, password: Bytes, serverFirst: Bytes): Bytes
    requires p.DigestsValid()
  {
    SaltedPassword(p, alg, password, p.fromBase64(ScramAttribute(serverFirst, 's')), ScramIterations(serverFirst), dkLen)
  }

  lemma HmacLength(p: Primitives, alg: Algorithm, key: Bytes, data: Bytes)
    requires p.DigestsValid()
    ensures |p.hmac(alg, key, data)| == DigestLength(alg)
  {
  }

  /** QXmppSaslClientScram for SHA-1 or SHA-256. */
  class ScramClient {
    const crypto: Primitives
    const algorithm: Algorithm
    const dkLen: nat
    const mechanism: string
    const nonce: Bytes
    var username: string
    var password: string
    var gs2Header: Bytes
    var clientFirstMessageBare: Bytes
    var serverSignature: Bytes
    var step: nat

    constructor(crypto: Primitives, algorithm: Algorithm, forcedNonce: Bytes, random: Bytes)
      requires algorithm == Sha1 || algorithm == Sha256
      ensures this.crypto == crypto && this.algorithm == algorithm && nonce == GenerateNonce(forcedNonce, random)
      ensures dkLen == DigestLength(algorithm)
      ensures mechanism == if algorithm == Sha256 then "SCRAM-SHA-256" else "SCRAM-SHA-1"
      ensures username == [] && password == [] && gs2Header == [] && clientFirstMessageBare == []
      ensures serverSignature == [] && step == 0
    {
      this.crypto := crypto;
      this.algorithm := algorithm;
      nonce := GenerateNonce(forcedNonce, random);
      if algorithm == Sha256 {
        dkLen := 32;
        mechanism := "SCRAM-SHA-256";
      } else {
        dkLen := 20;
        mechanism := "SCRAM-SHA-1";
      }
      username, password, gs2Header, clientFirstMessageBare := [], [], [], [];
      serverSignature, step := [], 0;
    }

    /** Step 0 sends the client-first message, step 1 the client-final
        message with the proof, and step 2 checks the server signature. */
    method Respond(challenge: Bytes) returns (ok: bool, response: Option<Bytes>)
      requires crypto.DigestsValid()
      modifies this`step, this`gs2Header, this`clientFirstMessageBare, this`serverSignature
      ensures old(step) == 0 ==>
        ok && gs2Header == "n,," && clientFirstMessageBare == "n=" + username + ",r=" + nonce &&
        response == Some(gs2Header + clientFirstMessageBare) && serverSignature == old(serverSignature)
      ensures old(step) == 1 ==>
        var salted := ScramSalted(crypto, algorithm, dkLen, password, challenge);
        var authMessage := AuthMessage(clientFirstMessageBare, challenge, gs2Header);
        (ok <==> AcceptsServerFirst(crypto, nonce, challenge)) &&
        (ok ==> response == Some(ClientFinalBare(gs2Header, ScramAttribute(challenge, 'r')) + ",p="
                                 + Base64Encode(ClientProof(crypto, algorithm, salted, authMessage))) &&
                serverSignature == ServerSignature(crypto, algorithm, salted, authMessage))
      ensures old(step) == 1 ==> gs2Header == old(gs2Header) && clientFirstMessageBare == old(clientFirstMessageBare)
      ensures old(step) == 2 ==>
        (ok <==> crypto.fromBase64(ScramAttribute(challenge, 'v')) == serverSignature) &&
        response == Some([]) && step == 3 && serverSignature == old(serverSignature) &&
        gs2Header == old(gs2Header) && clientFirstMessageBare == old(clientFirstMessageBare)
      ensures old(step) >= 3 ==> !ok
      ensures ok ==> step == old(step) + 1
      ensures !ok && old(step) != 2 ==>
        response.None? && step == old(step) && serverSignature == old(serverSignature) &&
        gs2Header == old(gs2Header) && clientFirstMessageBare == old(clientFirstMessageBare)
    {
      if step == 0 {
        gs2Header := "n,,";
        clientFirstMessageBare := "n=" + username + ",r=" + nonce;
        response := Some(gs2Header + clientFirstMessageBare);
        step := step + 1;
        ok := true;
      } else if step == 1 {
        ok, response := RespondToServerFirst(challenge);
      } else if step == 2 {
        var input := ParseGs2(challenge);
        response := Some([]);
        step := step + 1;
        ok := crypto.fromBase64(Value(input, 'v')) == serverSignature;
      } else {
        response := None;
        ok := false;
      }
    }

    /** The second step of Respond. */
    method RespondToServerFirst(challenge: Bytes) returns (ok: bool, response: Option<Bytes>)
      requires crypto.DigestsValid() && step == 1
      modifies this`step, this`serverSignature
      ensures var salted := ScramSalted(crypto, algorithm, dkLen, password, challenge);
        var authMessage := AuthMessage(clientFirstMessageBare, challenge, gs2Header);
        (ok <==> AcceptsServerFirst(crypto, nonce, challenge)) &&
        (ok ==> response == Some(ClientFinalBare(gs2Header, ScramAttribute(challenge, 'r')) + ",p="
                                 + Base64Encode(ClientProof(crypto, algorithm, salted, authMessage))) &&
                serverSignature == ServerSignature(crypto, algorithm, salted, authMessage) && step == 2)
      ensures !ok ==> response.None? && step == 1 && serverSignature == old(serverSignature)
    {
      var input := ParseGs2(challenge);
      var serverNonce := Value(input, 'r');
      var salt := crypto.fromBase64(Value(input, 's'));
      var iterations := ToInt(Value(input, 'i')).GetOr(0);
      if !StartsWith(serverNonce, nonce) || |salt| == 0 || iterations < 1 {
        return false, None;
      }
      var clientFinalMessageBare := "c=" + Base64Encode(gs2Header) + ",r=" + serverNonce;
      var saltedPassword := DeriveKeyPbkdf2(crypto, algorithm, password, salt, iterations, dkLen);
      var clientKey := crypto.hmac(algorithm, saltedPassword, "Client Key");
      var storedKey := crypto.hash(algorithm, clientKey);
      var authMessage := clientFirstMessageBare + "," + challenge + "," + clientFinalMessageBare;
      var clientProof := crypto.hmac(algorithm, storedKey, authMessage);
      HmacLength(crypto, algorithm, storedKey, authMessage);
      HmacLength(crypto, algorithm, saltedPassword, "Client Key");
      clientProof := Xor(clientProof, clientKey);
      var serverKey := crypto.hmac(algorithm, saltedPassword, "Server Key");
      serverSignature := crypto.hmac(algorithm, serverKey, authMessage);
      response := Some(clientFinalMessageBare + ",p=" + Base64Encode(clientProof));
      step := step + 1;
      ok := true;
    }
  }
}

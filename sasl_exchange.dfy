/** What each mechanism's client and server sides make of each other's
    messages: the server reads back what the client wrote, and the values
    each side derives agree when both hold the same credentials. */
module SaslExchange {
  import opened Wrappers
  import opened ByteText
  import opened Crypto
  import opened Decimal
  import opened Gs2
  import SaslClient
  import SaslServer

  // PLAIN (RFC 4616)

  /** The server's split of the client's PLAIN message gives an empty
      authorization identity, the user name and the password, as long as
      neither holds a NUL octet. */
  lemma PlainServerReadsClient(username: string, password: string)
    requires SaslClient.NUL !in username && SaslClient.NUL !in password
    ensures Split(SaslClient.PlainMessage(username, password), SaslServer.NUL) == ["", username, password]
  {
    var parts := ["", username, password];
    assert Join(parts, SaslServer.NUL) == SaslClient.PlainMessage(username, password) by {
      assert parts[1..][1..] == [password];
      assert Join(parts[1..], SaslServer.NUL) == username + [SaslServer.NUL] + password;
      assert Join(parts, SaslServer.NUL) == [] + [SaslServer.NUL] + (username + [SaslServer.NUL] + password);
    }
    SplitJoin(parts, SaslServer.NUL);
  }

  // SCRAM (RFC 5802, section 3)

  /** The server, which keeps StoredKey, recovers ClientKey from the proof by
      XOR with the ClientSignature it computes itself, and its hash is
      StoredKey again. */
  lemma ScramProofRecoversClientKey(p: Primitives, alg: Algorithm, salted: Bytes, authMessage: Bytes)
    requires p.DigestsValid()
    ensures var clientKey := SaslClient.ClientKey(p, alg, salted);
      var storedKey := SaslClient.StoredKey(p, alg, clientKey);
      var signature := SaslClient.ClientSignature(p, alg, storedKey, authMessage);
      |signature| == |SaslClient.ClientProof(p, alg, salted, authMessage)| &&
      Xor(signature, SaslClient.ClientProof(p, alg, salted, authMessage)) == clientKey &&
      SaslClient.StoredKey(p, alg, Xor(signature, SaslClient.ClientProof(p, alg, salted, authMessage))) == storedKey
  {
    var clientKey := SaslClient.ClientKey(p, alg, salted);
    var storedKey := SaslClient.StoredKey(p, alg, clientKey);
    var signature := SaslClient.ClientSignature(p, alg, storedKey, authMessage);
    XorCancelsLeft(signature, clientKey);
  }

  /** Base64 text holds no comma, so it is a value a SCRAM attribute can
      carry. */
  lemma Base64HasNoComma(b: Bytes)
    ensures ',' !in Base64Encode(b)
  {
  }

  /** The server-final message "v=" base64(ServerSignature) gives the client
      back exactly the signature it expects.  A signature is an HMAC, so an
      octet string. */
  lemma ScramServerFinalAccepted(p: Primitives, signature: Bytes)
    requires p.Valid() && IsOctets(signature)
    ensures p.fromBase64(SaslClient.ScramAttribute("v=" + Base64Encode(signature), 'v')) == signature
  {
    var message := "v=" + Base64Encode(signature);
    Base64HasNoComma(signature);
    assert ',' !in message;
    SplitJoin([message], ',');
    assert Attributes([message]) == map['v' := message[2..]];
    assert message[2..] == Base64Encode(signature);
  }

  /** The server-first message "r=" nonce ",s=" base64(salt) ",i=" count,
      written for the client's nonce with a non-empty salt and a count of
      at least one, is accepted, and the client reads the salt and the
      count back.  The salt is an octet string. */
  lemma ScramServerFirstAccepted(p: Primitives, clientNonce: Bytes, serverPart: Bytes, salt: Bytes, iterations: nat)
    requires p.Valid() && IsOctets(salt)
    requires ',' !in clientNonce + serverPart
    requires |salt| > 0 && 1 <= iterations <= INT32_MAX
    ensures var serverFirst := ScramServerFirst(clientNonce + serverPart, salt, iterations);
      SaslClient.AcceptsServerFirst(p, clientNonce, serverFirst) &&
      SaslClient.ScramAttribute(serverFirst, 'r') == clientNonce + serverPart &&
      p.fromBase64(SaslClient.ScramAttribute(serverFirst, 's')) == salt &&
      SaslClient.ScramIterations(serverFirst) == iterations
  {
    var nonce := clientNonce + serverPart;
    Base64HasNoComma(salt);
    DigitsHaveNoComma(iterations);
    ServerFirstAttributes(nonce, Base64Encode(salt), NatToString(iterations));
    ToIntOfNatToString(iterations);
    assert StartsWith(nonce, clientNonce) by {
      assert nonce[..|clientNonce|] == clientNonce;
    }
  }

  lemma DigitsHaveNoComma(n: nat)
    ensures ',' !in NatToString(n)
  {
    var digits := NatToString(n);
    assert forall i :: 0 <= i < |digits| ==> digits[i] != ',';
  }

  /** The three attributes of a server-first message are read back. */
  lemma ServerFirstAttributes(nonce: Bytes, salt: Bytes, count: Bytes)
    requires ',' !in nonce && ',' !in salt && ',' !in count
    ensures var serverFirst := "r=" + nonce + ",s=" + salt + ",i=" + count;
      SaslClient.ScramAttribute(serverFirst, 'r') == nonce &&
      SaslClient.ScramAttribute(serverFirst, 's') == salt &&
      SaslClient.ScramAttribute(serverFirst, 'i') == count
  {
    var names := ['r', 's', 'i'];
    var values := [nonce, salt, count];
    var parts := seq(|names|, a requires 0 <= a < |names| => Attribute(names[a], values[a]));
    assert parts == [Attribute('r', nonce), Attribute('s', salt), Attribute('i', count)];
    ServerFirstJoin(nonce, salt, count);
    ParseWrittenAttributes(names, values, 0);
    ParseWrittenAttributes(names, values, 1);
    ParseWrittenAttributes(names, values, 2);
  }

  lemma ServerFirstJoin(nonce: Bytes, salt: Bytes, count: Bytes)
    ensures Join([Attribute('r', nonce), Attribute('s', salt), Attribute('i', count)], ',')
      == "r=" + nonce + ",s=" + salt + ",i=" + count
  {
    var parts := [Attribute('r', nonce), Attribute('s', salt), Attribute('i', count)];
    assert parts[1..][1..] == [Attribute('i', count)];
    assert Join(parts[1..], ',') == Attribute('s', salt) + [','] + Attribute('i', count);
  }

  /** A server-first message as RFC 5802 section 5.1 writes it. */
  function ScramServerFirst(nonce: Bytes, salt: Bytes, iterations: nat): Bytes {
    "r=" + nonce + ",s=" + Base64Encode(salt) + ",i=" + NatToString(iterations)
  }
}

/** The server side of SASL (QXmppSaslServer and its subclasses).  Each
    mechanism is a class whose `step` field counts the exchanges so far.
    `Respond` answers a client request with an outcome and the response it
    writes, or None when it leaves the caller's response buffer untouched.
    The credentials the base class keeps (user name, password, password
    digest, realm) are fields of each class that uses them. */
module SaslServer {
  import opened Wrappers
  import opened ByteText
  import opened AttrMap
  import opened Crypto
  import opened DigestMd5Codec
  import opened SaslDigestMd5

  /** QXmppSaslServer::Response. */
  datatype Outcome = Challenge | Succeeded | Failed | InputNeeded

  const NUL: char := 0 as char

  /** QXmppSaslServerAnonymous. */
  class AnonymousServer {
    var step: nat

    constructor()
      ensures step == 0
    {
      step := 0;
    }

    /** The first request succeeds at once; any later one fails. */
    method Respond(request: Bytes) returns (outcome: Outcome, response: Option<Bytes>)
      modifies this
      ensures old(step) == 0 ==> outcome == Succeeded && response == Some([]) && step == 1
      ensures old(step) != 0 ==> outcome == Failed && response.None? && step == old(step)
    {
      if step == 0 {
        step := step + 1;
        response := Some([]);
        outcome := Succeeded;
      } else {
        response := None;
        outcome := Failed;
      }
    }
  }

  /** QXmppSaslServerPlain. */
  class PlainServer {
    var username: string
    var password: string
    var step: nat

    constructor()
      ensures username == [] && password == [] && step == 0
    {
      username, password, step := [], [], 0;
    }

    /** An empty request asks for the credentials; a request of three
        NUL-separated fields supplies them, and the caller is then asked to
        check them. */
    method Respond(request: Bytes) returns (outcome: Outcome, response: Option<Bytes>)
      modifies this
      ensures old(step) == 0 && |request| == 0 ==>
        outcome == Challenge && response == Some([]) && step == 0
      ensures old(step) == 0 && |request| > 0 && |Split(request, NUL)| == 3 ==>
        outcome == InputNeeded && response == Some([]) && step == 1 &&
        username == Split(request, NUL)[1] && password == Split(request, NUL)[2]
      ensures old(step) == 0 && |request| > 0 && |Split(request, NUL)| != 3 ==>
        outcome == Failed && response.None? && step == 0
      ensures old(step) != 0 ==> outcome == Failed && response.None? && step == old(step)
      ensures outcome != InputNeeded ==> username == old(username) && password == old(password)
    {
      if step == 0 {
        if |request| == 0 {
          return Challenge, Some([]);
        }
        var auth := Split(request, NUL);
        if |auth| != 3 {
          return Failed, None;
        }
        username := auth[1];
        password := auth[2];
        step := step + 1;
        response := Some([]);
        outcome := InputNeeded;
      } else {
        response := None;
        outcome := Failed;
      }
    }
  }

  /** QXmppSaslServerDigestMd5.  The server nonce is generated once, at
      construction. */
  class DigestMd5Server {
    const crypto: Primitives
    const nonce: Bytes
    var username: string
    var password: string
    var passwordDigest: Bytes
    var realm: string
    var nc: Bytes
    var cnonce: Bytes
    var secret: Bytes
    var step: nat

    constructor(crypto: Primitives, forcedNonce: Bytes, random: Bytes)
      ensures this.crypto == crypto && nonce == GenerateNonce(forcedNonce, random)
      ensures username == [] && password == [] && passwordDigest == [] && realm == []
      ensures nc == [] && cnonce == [] && secret == [] && step == 0
    {
      this.crypto := crypto;
      nonce := GenerateNonce(forcedNonce, random);
      username, password, passwordDigest, realm := [], [], [], [];
      nc, cnonce, secret, step := [], [], [], 0;
    }

    /** Step 0 sends the challenge, step 1 checks the client's digest and
        answers with rspauth, step 2 concludes. */
    method Respond(request: Bytes) returns (outcome: Outcome, response: Option<Bytes>)
      modifies this`step, this`username, this`nc, this`cnonce, this`secret
      ensures old(step) == 0 ==>
        outcome == Challenge && response == Some(Serialize(ServerChallengeMap(nonce, realm))) && step == 1 &&
        username == old(username) && nc == old(nc) && cnonce == old(cnonce) && secret == old(secret)
      ensures old(step) == 1 ==>
        var input := ParseFrom(request, 0, []);
        var digestUri := ValueOr(input, "digest-uri", []);
        (ValueOr(input, "qop", []) != "auth" ==>
           outcome == Failed && response.None? && step == 1 && username == old(username) &&
           nc == old(nc) && cnonce == old(cnonce) && secret == old(secret)) &&
        (ValueOr(input, "qop", []) == "auth" ==>
           username == ValueOr(input, "username", []) &&
           (password == [] && passwordDigest == [] ==>
              outcome == InputNeeded && response.None? && step == 1 &&
              nc == old(nc) && cnonce == old(cnonce) && secret == old(secret)) &&
           (password != [] || passwordDigest != [] ==>
              nc == ValueOr(input, "nc", []) && cnonce == ValueOr(input, "cnonce", []) &&
              secret == (if password != [] then DigestSecret(crypto, username, ValueOr(input, "realm", []), password)
                         else passwordDigest) &&
              (outcome == Challenge <==>
                 ValueOr(input, "response", []) == CalculateDigest(crypto, "AUTHENTICATE", digestUri, secret, nonce, cnonce, nc)) &&
              (outcome == Challenge ==>
                 step == 2 && response == Some(Serialize([("rspauth", CalculateDigest(crypto, [], digestUri, secret, nonce, cnonce, nc))]))) &&
              (outcome != Challenge ==> outcome == Failed && response.None? && step == 1)))
      ensures old(step) == 2 ==>
        outcome == Succeeded && response == Some([]) && step == 3 &&
        username == old(username) && nc == old(nc) && cnonce == old(cnonce) && secret == old(secret)
      ensures old(step) >= 3 ==>
        outcome == Failed && response.None? && step == old(step) &&
        username == old(username) && nc == old(nc) && cnonce == old(cnonce) && secret == old(secret)
    {
      if step == 0 {
        var output := BuildChallengeMap();
        step := step + 1;
        var ba := SerializeMessage(output);
        response := Some(ba);
        outcome := Challenge;
      } else if step == 1 {
        var input := ParseMessage(request);
        outcome, response := CheckResponse(input);
      } else if step == 2 {
        step := step + 1;
        response := Some([]);
        outcome := Succeeded;
      } else {
        response := None;
        outcome := Failed;
      }
    }

    /** The challenge map as the server fills it, one assignment at a time. */
    method BuildChallengeMap() returns (output: Entries)
      ensures output == ServerChallengeMap(nonce, realm)
    {
      ghost var rest := ServerChallengePairs(nonce, realm);
      output := [];
      InsertAllStep(output, rest);
      output := Insert(output, "nonce", nonce);
      rest := rest[1..];
      if |realm| > 0 {
        InsertAllStep(output, rest);
        output := Insert(output, "realm", realm);
        rest := rest[1..];
      }
      assert rest == [("qop", "auth"), ("charset", "utf-8"), ("algorithm", "md5-sess")];
      InsertAllStep(output, rest);
      output := Insert(output, "qop", "auth");
      rest := rest[1..];
      InsertAllStep(output, rest);
      output := Insert(output, "charset", "utf-8");
      rest := rest[1..];
      InsertAllStep(output, rest);
      output := Insert(output, "algorithm", "md5-sess");
      rest := rest[1..];
    }

    /** The second step of Respond, on the parsed request. */
    method CheckResponse(input: Entries) returns (outcome: Outcome, response: Option<Bytes>)
      requires step == 1
      modifies this`step, this`username, this`nc, this`cnonce, this`secret
      ensures var digestUri := ValueOr(input, "digest-uri", []);
        (ValueOr(input, "qop", []) != "auth" ==>
           outcome == Failed && response.None? && step == 1 && username == old(username) &&
           nc == old(nc) && cnonce == old(cnonce) && secret == old(secret)) &&
        (ValueOr(input, "qop", []) == "auth" ==>
           username == ValueOr(input, "username", []) &&
           (password == [] && passwordDigest == [] ==>
              outcome == InputNeeded && response.None? && step == 1 &&
              nc == old(nc) && cnonce == old(cnonce) && secret == old(secret)) &&
           (password != [] || passwordDigest != [] ==>
              nc == ValueOr(input, "nc", []) && cnonce == ValueOr(input, "cnonce", []) &&
              secret == (if password != [] then DigestSecret(crypto, username, ValueOr(input, "realm", []), password)
                         else passwordDigest) &&
              (outcome == Challenge <==>
                 ValueOr(input, "response", []) == CalculateDigest(crypto, "AUTHENTICATE", digestUri, secret, nonce, cnonce, nc)) &&
              (outcome == Challenge ==>
                 step == 2 && response == Some(Serialize([("rspauth", CalculateDigest(crypto, [], digestUri, secret, nonce, cnonce, nc))]))) &&
              (outcome != Challenge ==> outcome == Failed && response.None? && step == 1)))
    {
      if ValueOr(input, "qop", []) != "auth" {
        return Failed, None;
      }
      username := ValueOr(input, "username", []);
      if password == [] && passwordDigest == [] {
        return InputNeeded, None;
      }
      outcome, response := CheckDigest(ValueOr(input, "realm", []), ValueOr(input, "digest-uri", []),
                                        ValueOr(input, "nc", []), ValueOr(input, "cnonce", []),
                                        ValueOr(input, "response", []));
    }

    /** The digest check of the second step, once the user's credentials
        are known, on the values the client sent. */
    method CheckDigest(realmValue: Bytes, digestUri: Bytes, inputNc: Bytes, inputCnonce: Bytes, inputResponse: Bytes)
      returns (outcome: Outcome, response: Option<Bytes>)
      requires step == 1
      requires password != [] || passwordDigest != []
      modifies this`step, this`nc, this`cnonce, this`secret
      ensures nc == inputNc && cnonce == inputCnonce
      ensures secret == (if password != [] then DigestSecret(crypto, username, realmValue, password) else passwordDigest)
      ensures outcome == Challenge <==>
        inputResponse == CalculateDigest(crypto, "AUTHENTICATE", digestUri, secret, nonce, cnonce, nc)
      ensures outcome == Challenge ==>
        step == 2 && response == Some(Serialize([("rspauth", CalculateDigest(crypto, [], digestUri, secret, nonce, cnonce, nc))]))
      ensures outcome != Challenge ==> outcome == Failed && response.None? && step == 1
    {
      nc := inputNc;
      cnonce := inputCnonce;
      secret := UserSecret(realmValue);
      if inputResponse != CalculateDigest(crypto, "AUTHENTICATE", digestUri, secret, nonce, cnonce, nc) {
        return Failed, None;
      }
      var ba := RspAuthMessage(CalculateDigest(crypto, [], digestUri, secret, nonce, cnonce, nc));
      step := step + 1;
      response := Some(ba);
      outcome := Challenge;
    }

    /** The secret A1 starts from: MD5(user:realm:password) when the
        password is known, the stored digest otherwise. */
    method UserSecret(realmValue: Bytes) returns (userSecret: Bytes)
      ensures userSecret == (if password != [] then DigestSecret(crypto, username, realmValue, password)
                             else passwordDigest)
    {
      if password != [] {
        userSecret := crypto.hash(Md5, username + ":" + realmValue + ":" + password);
      } else {
        userSecret := passwordDigest;
      }
    }

    /** The final challenge: the single pair rspauth. */
    method RspAuthMessage(rspauth: Bytes) returns (ba: Bytes)
      ensures ba == Serialize([("rspauth", rspauth)])
    {
      var output := Insert([], "rspauth", rspauth);
      InsertIntoEmpty("rspauth", rspauth);
      ba := SerializeMessage(output);
    }
  }
}

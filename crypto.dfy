/** The cryptographic building blocks of the SASL mechanisms.  MD5, SHA-1,
    SHA-256, HMAC and base64 decoding come from Qt and are not part of this
    model: they are passed in as a `Primitives` value whose functions are only
    known to produce octet-string digests of the right length and to invert
    the base64 encoding of octet strings.  Hex and base64 encoding (with a
    decoder that shows those conditions can be met), the DIGEST-MD5 response digest, the
    PBKDF2 key stretching of QXmppSaslDigestMd5/deriveKeyPbkdf2 and nonce
    generation are modelled here. */
module Crypto {
  import opened ByteText

  datatype Algorithm = Md5 | Sha1 | Sha256

  /** Output length of QCryptographicHash for each algorithm. */
  function DigestLength(alg: Algorithm): (n: nat)
    ensures n > 0
  {
    match alg
    case Md5 => 16
    case Sha1 => 20
    case Sha256 => 32
  }

  /** The characters of the base64 alphabet of RFC 4648 (without padding). */
  predicate IsBase64Char(c: char) {
    ('A' <= c <= 'Z') || ('a' <= c <= 'z') || ('0' <= c <= '9') || c == '+' || c == '/'
  }

  function Base64Char(v: nat): (c: char)
    requires v < 64
    ensures IsBase64Char(c)
  {
    if v < 26 then (v + 'A' as int) as char
    else if v < 52 then (v - 26 + 'a' as int) as char
    else if v < 62 then (v - 52 + '0' as int) as char
    else if v == 62 then '+'
    else '/'
  }

  /** QByteArray::toBase64 with padding. */
  function Base64Encode(b: Bytes): (r: Bytes)
    ensures |r| == 4 * ((|b| + 2) / 3)
    ensures forall i :: 0 <= i < |r| ==> IsBase64Char(r[i]) || r[i] == '='
    decreases |b|
  {
    if |b| == 0 then []
    else if |b| == 1 then Base64Group(Octet(b[0]), 0, 0, 1)
    else if |b| == 2 then Base64Group(Octet(b[0]), Octet(b[1]), 0, 2)
    else
      var r := Base64Group(Octet(b[0]), Octet(b[1]), Octet(b[2]), 3) + Base64Encode(b[3..]);
      assert forall i :: 4 <= i < |r| ==> r[i] == Base64Encode(b[3..])[i - 4];
      GroupsAfterFirst(|b|);
      r
  }

  /** Three more octets make one more group of four characters. */
  lemma GroupsAfterFirst(n: nat)
    requires n >= 3
    ensures (n + 2) / 3 == (n - 3 + 2) / 3 + 1
  {
  }

  /** The four characters standing for up to three octets `v0 v1 v2`, of
      which `n` are present; the missing ones are zero and give padding. */
  function Base64Group(v0: nat, v1: nat, v2: nat, n: nat): (r: Bytes)
    requires v0 < 256 && v1 < 256 && v2 < 256 && 1 <= n <= 3
    ensures |r| == 4
    ensures forall i :: 0 <= i < 4 ==> IsBase64Char(r[i]) || r[i] == '='
  {
    [Base64Char(v0 / 4),
     Base64Char((v0 % 4) * 16 + v1 / 16),
     if n >= 2 then Base64Char((v1 % 16) * 4 + v2 / 64) else '=',
     if n == 3 then Base64Char(v2 % 64) else '=']
  }

  /** The SCRAM channel-binding attribute of a client without channel binding:
      the base64 of the GS2 header "n,," is "biws". */
  lemma Base64OfGs2Header()
    ensures Base64Encode("n,,") == "biws"
  {
    var h: Bytes := "n,,";
    assert Octet(h[0]) == 110 && Octet(h[1]) == 44 && Octet(h[2]) == 44;
    assert h[3..] == [];
    assert Base64Group(110, 44, 44, 3) == "biws" by {
      assert Base64Char(27) == 'b' && Base64Char(34) == 'i' && Base64Char(48) == 'w' && Base64Char(44) == 's';
    }
  }

  /** The value of a base64 character: the inverse of Base64Char. */
  function Base64Value(c: char): (v: nat)
    ensures v < 64
  {
    if 'A' <= c <= 'Z' then (c as int) - ('A' as int)
    else if 'a' <= c <= 'z' then (c as int) - ('a' as int) + 26
    else if '0' <= c <= '9' then (c as int) - ('0' as int) + 52
    else if c == '+' then 62
    else if c == '/' then 63
    else 0
  }

  lemma Base64ValueOfChar(v: nat)
    requires v < 64
    ensures Base64Value(Base64Char(v)) == v
  {
  }

  /** The octets four base64 characters stand for: three, or fewer when the
      third or the fourth character is the padding '='. */
  function Base64DecodeGroup(s: Bytes): (r: Bytes)
    requires |s| == 4
    ensures 1 <= |r| <= 3 && IsOctets(r)
  {
    var d0 := Base64Value(s[0]);
    var d1 := Base64Value(s[1]);
    var d2 := Base64Value(s[2]);
    var d3 := Base64Value(s[3]);
    var o0 := OfOctet(d0 * 4 + d1 / 16);
    var o1 := OfOctet((d1 % 16) * 16 + d2 / 4);
    var o2 := OfOctet((d2 % 4) * 64 + d3);
    if s[2] == '=' then [o0] else if s[3] == '=' then [o0, o1] else [o0, o1, o2]
  }

  /** Base64 decoding of padded text, one group of four characters at a time;
      a trailing group of fewer than four characters is dropped. */
  function Base64Decode(s: Bytes): (r: Bytes)
    ensures IsOctets(r)
    decreases |s|
  {
    if |s| < 4 then [] else Base64DecodeGroup(s[..4]) + Base64Decode(s[4..])
  }

  /** One group decodes back to the octets it was written for. */
  lemma Base64GroupDecodes(v0: nat, v1: nat, v2: nat, n: nat)
    requires v0 < 256 && v1 < 256 && v2 < 256 && 1 <= n <= 3
    ensures Base64DecodeGroup(Base64Group(v0, v1, v2, n)) == [OfOctet(v0), OfOctet(v1), OfOctet(v2)][..n]
  {
    var g := Base64Group(v0, v1, v2, n);
    var c1 := (v0 % 4) * 16 + v1 / 16;
    var c2 := (v1 % 16) * 4 + v2 / 64;
    Base64ValueOfChar(v0 / 4);
    Base64ValueOfChar(c1);
    assert c1 / 16 == v0 % 4 && c1 % 16 == v1 / 16;
    assert (v0 / 4) * 4 + c1 / 16 == v0;
    if n >= 2 {
      Base64ValueOfChar(c2);
      assert c2 / 4 == v1 % 16 && c2 % 4 == v2 / 64;
      assert (c1 % 16) * 16 + c2 / 4 == v1;
    }
    if n == 3 {
      Base64ValueOfChar(v2 % 64);
      assert (c2 % 4) * 64 + v2 % 64 == v2;
    }
  }

  /** Decoding undoes QByteArray::toBase64 on every octet string. */
  lemma {:induction false} Base64RoundTrip(b: Bytes)
    requires IsOctets(b)
    ensures Base64Decode(Base64Encode(b)) == b
    decreases |b|
  {
    if |b| == 0 {
    } else if |b| <= 2 {
      var v1 := if |b| == 2 then Octet(b[1]) else 0;
      var g := Base64Group(Octet(b[0]), v1, 0, |b|);
      Base64GroupDecodes(Octet(b[0]), v1, 0, |b|);
      assert Base64Encode(b) == g;
      assert g[..4] == g && g[4..] == [];
      CharRoundTrip(b[0]);
      if |b| == 2 {
        CharRoundTrip(b[1]);
      }
    } else {
      var g := Base64Group(Octet(b[0]), Octet(b[1]), Octet(b[2]), 3);
      var rest := Base64Encode(b[3..]);
      assert Base64Encode(b) == g + rest;
      assert (g + rest)[..4] == g && (g + rest)[4..] == rest;
      Base64GroupDecodes(Octet(b[0]), Octet(b[1]), Octet(b[2]), 3);
      CharRoundTrip(b[0]);
      CharRoundTrip(b[1]);
      CharRoundTrip(b[2]);
      Base64RoundTrip(b[3..]);
      assert b == b[..3] + b[3..];
    }
  }

  /** Two octet strings with the same base64 writing are equal. */
  lemma Base64EncodeInjective(a: Bytes, b: Bytes)
    requires IsOctets(a) && IsOctets(b)
    requires Base64Encode(a) == Base64Encode(b)
    ensures a == b
  {
    Base64RoundTrip(a);
    Base64RoundTrip(b);
  }

  /** The functions supplied by Qt: a hash, an HMAC keyed by its second
      argument, and base64 decoding.  Digests are octet strings of the
      algorithm's length, and decoding undoes the encoding of any octet
      string. */
  datatype Primitives = Primitives(
    hash: (Algorithm, Bytes) -> Bytes,
    hmac: (Algorithm, Bytes, Bytes) -> Bytes,
    fromBase64: Bytes -> Bytes)
  {
    /** The digests are octet strings of the algorithm's length. */
    ghost predicate DigestsValid() {
      (forall alg, data :: |hash(alg, data)| == DigestLength(alg) && IsOctets(hash(alg, data))) &&
      (forall alg, key, data :: |hmac(alg, key, data)| == DigestLength(alg) && IsOctets(hmac(alg, key, data)))
    }

    ghost predicate Valid() {
      DigestsValid() && (forall b :: IsOctets(b) ==> fromBase64(Base64Encode(b)) == b)
    }
  }

  /** Digests of zero octets of the algorithm's length. */
  function ZeroDigest(alg: Algorithm): (r: Bytes)
    ensures |r| == DigestLength(alg) && IsOctets(r)
  {
    seq(DigestLength(alg), _ => '\0')
  }

  /** The conditions put on the supplied functions can all be met at once:
      constant digests of the right length with the decoder above satisfy
      them. */
  lemma ValidPrimitivesExist()
    ensures Primitives((alg: Algorithm, data: Bytes) => ZeroDigest(alg),
                       (alg: Algorithm, key: Bytes, data: Bytes) => ZeroDigest(alg),
                       Base64Decode).Valid()
  {
    forall b | IsOctets(b)
      ensures Base64Decode(Base64Encode(b)) == b
    {
      Base64RoundTrip(b);
    }
  }

  predicate IsHexDigit(c: char) {
    ('0' <= c <= '9') || ('a' <= c <= 'f')
  }

  function HexDigit(v: nat): (c: char)
    requires v < 16
    ensures IsHexDigit(c)
  {
    if v < 10 then (v + '0' as int) as char else (v - 10 + 'a' as int) as char
  }

  function HexValue(c: char): nat {
    if '0' <= c <= '9' then (c as int) - ('0' as int)
    else if 'a' <= c <= 'f' then (c as int) - ('a' as int) + 10
    else 0
  }

  /** QByteArray::toHex: two lower-case hex digits per octet. */
  function ToHex(b: Bytes): (r: Bytes)
    ensures |r| == 2 * |b|
    ensures forall i :: 0 <= i < |r| ==> IsHexDigit(r[i])
  {
    if |b| == 0 then []
    else
      var v := Octet(b[0]);
      [HexDigit(v / 16), HexDigit(v % 16)] + ToHex(b[1..])
  }

  /** Every octet can be read back from its two hex digits, so the hex writing
      loses nothing. */
  lemma {:induction false} ToHexDecodes(b: Bytes, i: nat)
    requires i < |b|
    ensures HexValue(ToHex(b)[2 * i]) * 16 + HexValue(ToHex(b)[2 * i + 1]) == Octet(b[i])
  {
    var v := Octet(b[0]);
    var r := ToHex(b);
    assert r == [HexDigit(v / 16), HexDigit(v % 16)] + ToHex(b[1..]);
    if i > 0 {
      ToHexDecodes(b[1..], i - 1);
      assert r[2 * i] == ToHex(b[1..])[2 * (i - 1)];
      assert r[2 * i + 1] == ToHex(b[1..])[2 * (i - 1) + 1];
    }
  }

  /** Two byte strings with the same hex writing have the same octets. */
  lemma ToHexInjective(a: Bytes, b: Bytes)
    requires ToHex(a) == ToHex(b)
    ensures |a| == |b|
    ensures forall i :: 0 <= i < |a| ==> Octet(a[i]) == Octet(b[i])
  {
    assert 2 * |a| == 2 * |b|;
    forall i | 0 <= i < |a|
      ensures Octet(a[i]) == Octet(b[i])
    {
      ToHexDecodes(a, i);
      ToHexDecodes(b, i);
      assert ToHex(a)[2 * i] == ToHex(b)[2 * i];
      assert ToHex(a)[2 * i + 1] == ToHex(b)[2 * i + 1];
    }
  }

  predicate IsLowerHex(s: Bytes) {
    forall i :: 0 <= i < |s| ==> IsHexDigit(s[i])
  }

  /** The response value of RFC 2831 for qop "auth": the lower-case hex of
      MD5(HEX(MD5(A1)):nonce:nc:cnonce:auth:HEX(MD5(A2))) with
      A1 = secret:nonce:cnonce and A2 = method:digest-uri.  The client and the
      server call it with method "AUTHENTICATE" for the response and with an
      empty method for rspauth. */
  function CalculateDigest(p: Primitives, authMethod: Bytes, digestUri: Bytes, secret: Bytes,
                           nonce: Bytes, cnonce: Bytes, nc: Bytes): (r: Bytes)
    ensures IsLowerHex(r)
  {
    var a1 := secret + ":" + nonce + ":" + cnonce;
    var a2 := authMethod + ":" + digestUri;
    var ha1 := ToHex(p.hash(Md5, a1));
    var ha2 := ToHex(p.hash(Md5, a2));
    ToHex(p.hash(Md5, ha1 + ":" + nonce + ":" + nc + ":" + cnonce + ":auth:" + ha2))
  }

  /** The big-endian four octets of a block counter; the counter is a quint32,
      so it wraps at 2^32. */
  function Be32(i: nat): (r: Bytes)
    ensures |r| == 4
  {
    var w := i % 0x1_0000_0000;
    [OfOctet(w / 0x100_0000), OfOctet(w / 0x1_0000 % 256), OfOctet(w / 0x100 % 256), OfOctet(w % 256)]
  }

  /** U_j of block i in PBKDF2 (RFC 2898 section 5.2): U_1 = PRF(P, S || INT(i)),
      U_j = PRF(P, U_(j-1)). */
  function ChainedHmac(p: Primitives, alg: Algorithm, password: Bytes, salt: Bytes, i: nat, j: nat): (u: Bytes)
    requires p.DigestsValid() && j >= 1
    ensures |u| == DigestLength(alg)
  {
    if j == 1 then p.hmac(alg, password, salt + Be32(i))
    else p.hmac(alg, password, ChainedHmac(p, alg, password, salt, i, j - 1))
  }

  /** U_1 xor ... xor U_c. */
  function XorChain(p: Primitives, alg: Algorithm, password: Bytes, salt: Bytes, i: nat, c: nat): (t: Bytes)
    requires p.DigestsValid() && c >= 1
    ensures |t| == DigestLength(alg)
  {
    if c == 1 then ChainedHmac(p, alg, password, salt, i, 1)
    else Xor(XorChain(p, alg, password, salt, i, c - 1), ChainedHmac(p, alg, password, salt, i, c))
  }

  /** T_i; an iteration count below one computes U_1 alone, as the loop in
      deriveKeyPbkdf2 runs no further round. */
  function Block(p: Primitives, alg: Algorithm, password: Bytes, salt: Bytes, iterations: int, i: nat): (t: Bytes)
    requires p.DigestsValid()
    ensures |t| == DigestLength(alg)
  {
    XorChain(p, alg, password, salt, i, if iterations < 1 then 1 else iterations)
  }

  /** T_1 || ... || T_n. */
  function Blocks(p: Primitives, alg: Algorithm, password: Bytes, salt: Bytes, iterations: int, n: nat): Bytes
    requires p.DigestsValid()
  {
    if n == 0 then [] else Blocks(p, alg, password, salt, iterations, n - 1) + Block(p, alg, password, salt, iterations, n)
  }

  /** n blocks are n digest lengths long. */
  lemma {:induction false} BlocksLength(p: Primitives, alg: Algorithm, password: Bytes, salt: Bytes, iterations: int, n: nat)
    requires p.DigestsValid()
    ensures |Blocks(p, alg, password, salt, iterations, n)| == n * DigestLength(alg)
    decreases n
  {
    if n > 0 {
      BlocksLength(p, alg, password, salt, iterations, n - 1);
    }
  }

  /** Number of blocks needed for dkLen octets: ceil(dkLen / hLen). */
  function BlockCount(dkLen: nat, hLen: nat): nat
    requires hLen > 0
  {
    (dkLen + hLen - 1) / hLen
  }

  /** The derived key: the first dkLen octets of T_1 || T_2 || ... */
  function Pbkdf2(p: Primitives, alg: Algorithm, password: Bytes, salt: Bytes, iterations: int, dkLen: nat): (key: Bytes)
    requires p.DigestsValid()
    ensures |key| == dkLen
  {
    var h := DigestLength(alg);
    BlockCountCovers(dkLen, h);
    BlocksLength(p, alg, password, salt, iterations, BlockCount(dkLen, h));
    Blocks(p, alg, password, salt, iterations, BlockCount(dkLen, h))[..dkLen]
  }

  lemma BlockCountCovers(dkLen: nat, h: nat)
    requires h > 0
    ensures BlockCount(dkLen, h) * h >= dkLen
    ensures BlockCount(dkLen, h) == 0 || (BlockCount(dkLen, h) - 1) * h < dkLen
  {
    var n := BlockCount(dkLen, h);
    var q := dkLen + h - 1;
    assert q == n * h + q % h;
  }

  /** A shorter sequence of blocks is a prefix of a longer one. */
  lemma {:induction false} BlocksPrefix(p: Primitives, alg: Algorithm, password: Bytes, salt: Bytes, iterations: int, n: nat, m: nat)
    requires p.DigestsValid() && n <= m
    ensures n * DigestLength(alg) <= |Blocks(p, alg, password, salt, iterations, m)|
    ensures Blocks(p, alg, password, salt, iterations, n) == Blocks(p, alg, password, salt, iterations, m)[..n * DigestLength(alg)]
    decreases m
  {
    BlocksLength(p, alg, password, salt, iterations, m);
    MulMonotone(n, m, DigestLength(alg));
    if n < m {
      BlocksLength(p, alg, password, salt, iterations, m - 1);
      BlocksPrefix(p, alg, password, salt, iterations, n, m - 1);
      var h := DigestLength(alg);
      assert (m - 1) * h >= n * h;
    }
  }

  /** Asking for a shorter key gives a prefix of the longer key: the derived
      key does not depend on dkLen except through its length. */
  lemma Pbkdf2Prefix(p: Primitives, alg: Algorithm, password: Bytes, salt: Bytes, iterations: int, short: nat, long: nat)
    requires p.DigestsValid() && short <= long
    ensures |Pbkdf2(p, alg, password, salt, iterations, long)| == long
    ensures Pbkdf2(p, alg, password, salt, iterations, short) == Pbkdf2(p, alg, password, salt, iterations, long)[..short]
  {
    var h := DigestLength(alg);
    BlockCountCovers(short, h);
    BlockCountCovers(long, h);
    var ns := BlockCount(short, h);
    var nl := BlockCount(long, h);
    BlocksLength(p, alg, password, salt, iterations, ns);
    BlocksLength(p, alg, password, salt, iterations, nl);
    BlocksPrefix(p, alg, password, salt, iterations, ns, nl);
  }

  /** With one iteration and a key of one digest length, the key is the single
      HMAC of the salt followed by the big-endian block number 1. */
  lemma Pbkdf2SingleBlock(p: Primitives, alg: Algorithm, password: Bytes, salt: Bytes)
    requires p.DigestsValid()
    ensures Pbkdf2(p, alg, password, salt, 1, DigestLength(alg))
         == p.hmac(alg, password, salt + [OfOctet(0), OfOctet(0), OfOctet(0), OfOctet(1)])
  {
    var h := DigestLength(alg);
    assert BlockCount(h, h) == 1 by {
      assert (h + h - 1) / h == 1;
    }
    assert Blocks(p, alg, password, salt, 1, 1) == Block(p, alg, password, salt, 1, 1);
  }

  /** The number of blocks at which the key loop stops is ceil(dkLen / hLen). */
  lemma BlockCountExact(n: nat, dkLen: nat, h: nat)
    requires h > 0 && n * h >= dkLen && (n == 0 || (n - 1) * h < dkLen)
    ensures n == BlockCount(dkLen, h)
  {
    var b := BlockCount(dkLen, h);
    BlockCountCovers(dkLen, h);
    if n > b {
      MulMonotone(b, n - 1, h);
    } else if n < b {
      MulMonotone(n, b - 1, h);
    }
  }

  /** Once n blocks cover dkLen octets and n - 1 did not, their first dkLen
      octets are the derived key. */
  lemma KeyLoopStops(p: Primitives, alg: Algorithm, password: Bytes, salt: Bytes, iterations: int, n: nat, dkLen: nat)
    requires p.DigestsValid()
    requires |Blocks(p, alg, password, salt, iterations, n)| >= dkLen
    requires n == 0 || |Blocks(p, alg, password, salt, iterations, n)| - DigestLength(alg) < dkLen
    ensures Blocks(p, alg, password, salt, iterations, n)[..dkLen] == Pbkdf2(p, alg, password, salt, iterations, dkLen)
  {
    var h := DigestLength(alg);
    BlocksLength(p, alg, password, salt, iterations, n);
    assert n == 0 || (n - 1) * h == n * h - h;
    BlockCountExact(n, dkLen, h);
  }

  lemma MulMonotone(a: nat, b: nat, h: nat)
    requires a <= b
    ensures a * h <= b * h
  {
    assert b * h == a * h + (b - a) * h;
  }

  /** The inner loop of deriveKeyPbkdf2: T_i starting from U_1, xor-ing in each
      further U_j while the round counter is below the iteration count. */
  method XorRounds(p: Primitives, alg: Algorithm, data: Bytes, salt: Bytes, iterations: int, i: nat)
    returns (tkey: Bytes)
    requires p.DigestsValid()
    ensures tkey == Block(p, alg, data, salt, iterations, i)
  {
    var u := p.hmac(alg, data, salt + Be32(i));
    tkey := u;
    var iter := 1;
    while iter < iterations
      invariant 1 <= iter
      invariant iter == 1 || iter <= iterations
      invariant u == ChainedHmac(p, alg, data, salt, i, iter)
      invariant tkey == XorChain(p, alg, data, salt, i, iter)
    {
      u := p.hmac(alg, data, u);
      iter := iter + 1;
      tkey := Xor(tkey, u);
    }
    assert iter == (if iterations < 1 then 1 else iterations);
  }

  /** deriveKeyPbkdf2: blocks numbered from 1 are appended until the key is
      long enough, and the key is cut to dkLen octets. */
  method DeriveKeyPbkdf2(p: Primitives, alg: Algorithm, data: Bytes, salt: Bytes, iterations: int, dkLen: nat)
    returns (key: Bytes)
    requires p.DigestsValid()
    ensures |key| == dkLen
    ensures key == Pbkdf2(p, alg, data, salt, iterations, dkLen)
  {
    var h := DigestLength(alg);
    var k: Bytes := [];
    var currentIteration: nat := 1;
    while |k| < dkLen
      invariant currentIteration >= 1
      invariant k == Blocks(p, alg, data, salt, iterations, currentIteration - 1)
      invariant currentIteration == 1 || |k| - h < dkLen
      decreases dkLen - |k|
    {
      var tkey := XorRounds(p, alg, data, salt, iterations, currentIteration);
      k := k + tkey;
      currentIteration := currentIteration + 1;
    }
    KeyLoopStops(p, alg, data, salt, iterations, currentIteration - 1, dkLen);
    key := k[..dkLen];
  }

  /** generateNonce: the forced nonce when one is set, otherwise the base64 of
      32 random octets.  The random octets are a parameter. */
  function GenerateNonce(forced: Bytes, random: Bytes): (r: Bytes)
    ensures |forced| > 0 ==> r == forced
    ensures |forced| == 0 ==> |r| == 4 * ((|random| + 2) / 3) && ',' !in r
  {
    if |forced| > 0 then forced
    else
      Base64Encode(random)
  }
}

/** Byte strings and text.  A `QByteArray` and a `QString` are both modelled as a
    sequence of characters; in a byte string every character stands for one octet
    (a value below 256).  The functions mirror the QByteArray operations the SASL
    core relies on: indexOf, split, startsWith, trimmed, replace and the
    byte-wise XOR of std::transform with std::bit_xor. */
module ByteText {
  import opened Wrappers

  type Bytes = seq<char>

  /** Index of the first `c` in `s` (QByteArray::indexOf(char)). */
  function IndexOf(s: Bytes, c: char): (r: Option<nat>)
    ensures r.Some? ==> r.value < |s| && s[r.value] == c
  {
    if |s| == 0 then None
    else if s[0] == c then Some(0)
    else
      match IndexOf(s[1..], c)
      case None => None
      case Some(i) => Some(i + 1)
  }

  /** IndexOf finds the first occurrence, and finds nothing only when there
      is none. */
  lemma {:induction false} IndexOfFirst(s: Bytes, c: char)
    ensures IndexOf(s, c).Some? ==> c !in s[..IndexOf(s, c).value]
    ensures IndexOf(s, c).None? <==> c !in s
  {
    if |s| > 0 && s[0] != c {
      IndexOfFirst(s[1..], c);
      assert s == [s[0]] + s[1..];
      match IndexOf(s[1..], c)
      case None =>
      case Some(i) =>
        assert s[..i + 1] == [s[0]] + s[1..][..i];
    }
  }

  /** Index of the first `c` at or after `from` (QByteArray::indexOf(char, from));
      a start beyond the end finds nothing. */
  function IndexOfFrom(s: Bytes, c: char, from: nat): (r: Option<nat>)
    ensures r.Some? ==> from <= r.value < |s| && s[r.value] == c
  {
    if from >= |s| then None
    else
      match IndexOf(s[from..], c)
      case None => None
      case Some(i) => Some(from + i)
  }

  /** Nothing between `from` and the index found is a `c`; when nothing is
      found there is no `c` from `from` on. */
  lemma IndexOfFromFirst(s: Bytes, c: char, from: nat)
    ensures IndexOfFrom(s, c, from).Some? ==> forall j :: from <= j < IndexOfFrom(s, c, from).value ==> s[j] != c
    ensures IndexOfFrom(s, c, from).None? ==> forall j :: from <= j < |s| ==> s[j] != c
  {
    if from < |s| {
      IndexOfFirst(s[from..], c);
      match IndexOf(s[from..], c)
      case None =>
        assert forall j :: from <= j < |s| ==> s[j] == s[from..][j - from];
      case Some(i) =>
        assert forall j :: from <= j < from + i ==> s[j] == s[from..][..i][j - from];
    }
  }

  /** The index found is `k` when `s[k]` is the first `c` from `from` on. */
  lemma IndexOfFromIs(s: Bytes, c: char, from: nat, k: nat)
    requires from <= k < |s| && s[k] == c
    requires forall j :: from <= j < k ==> s[j] != c
    ensures IndexOfFrom(s, c, from) == Some(k)
  {
    IndexOfFromFirst(s, c, from);
  }

  /** Nothing is found when there is no `c` from `from` on. */
  lemma IndexOfFromNone(s: Bytes, c: char, from: nat)
    requires forall j :: from <= j < |s| ==> s[j] != c
    ensures IndexOfFrom(s, c, from).None?
  {
  }

  /** Splits `s` at every `c` (QByteArray::split): n separators give n + 1 parts,
      and the empty string gives one empty part. */
  function Split(s: Bytes, c: char): (parts: seq<Bytes>)
    ensures |parts| >= 1
    ensures forall i :: 0 <= i < |parts| ==> c !in parts[i]
    decreases |s|
  {
    IndexOfFirst(s, c);
    match IndexOf(s, c)
    case None => [s]
    case Some(i) => [s[..i]] + Split(s[i + 1..], c)
  }

  /** The inverse of Split: the parts joined by `c`. */
  function Join(parts: seq<Bytes>, c: char): Bytes
    requires |parts| >= 1
  {
    if |parts| == 1 then parts[0] else parts[0] + [c] + Join(parts[1..], c)
  }

  /** Splitting and joining again gives back the original byte string. */
  lemma {:induction false} JoinSplit(s: Bytes, c: char)
    ensures Join(Split(s, c), c) == s
    decreases |s|
  {
    match IndexOf(s, c)
    case None =>
      assert Split(s, c) == [s];
    case Some(i) =>
      var rest := s[i + 1..];
      assert Split(s, c) == [s[..i]] + Split(rest, c);
      JoinSplit(rest, c);
      JoinCons(s[..i], Split(rest, c), c);
      Rejoin(s, i, c);
  }

  /** Joining a part in front of more parts. */
  lemma JoinCons(head: Bytes, parts: seq<Bytes>, c: char)
    requires |parts| >= 1
    ensures Join([head] + parts, c) == head + [c] + Join(parts, c)
  {
    assert ([head] + parts)[1..] == parts;
  }

  /** A byte string is the part before a separator, the separator and the rest. */
  lemma Rejoin(s: Bytes, i: nat, c: char)
    requires i < |s| && s[i] == c
    ensures s[..i] + [c] + s[i + 1..] == s
  {
  }

  /** Splitting a join of separator-free parts gives back the parts. */
  lemma {:induction false} SplitJoin(parts: seq<Bytes>, c: char)
    requires |parts| >= 1
    requires forall i :: 0 <= i < |parts| ==> c !in parts[i]
    ensures Split(Join(parts, c), c) == parts
    decreases |parts|
  {
    if |parts| > 1 {
      var tail := Join(parts[1..], c);
      assert Join(parts, c) == parts[0] + [c] + tail;
      SplitAtFirst(parts[0], tail, c);
      SplitJoin(parts[1..], c);
      assert parts == [parts[0]] + parts[1..];
    } else {
      IndexOfFirst(parts[0], c);
    }
  }

  /** Splitting at a first separator gives the part before it, then the
      split of the rest. */
  lemma SplitAtFirst(head: Bytes, tail: Bytes, c: char)
    requires c !in head
    ensures Split(head + [c] + tail, c) == [head] + Split(tail, c)
  {
    var s := head + [c] + tail;
    assert s == head + ([c] + tail);
    assert IndexOf([c] + tail, c) == Some(0);
    IndexOfConcat(head, [c] + tail, c);
    assert s[..|head|] == head;
    assert s[|head| + 1..] == tail;
  }

  /** A separator-free prefix shifts the first occurrence by its length. */
  lemma {:induction false} IndexOfConcat(a: Bytes, b: Bytes, c: char)
    requires c !in a
    ensures IndexOf(a + b, c) == match IndexOf(b, c) case None => None case Some(i) => Some(|a| + i)
  {
    if |a| > 0 {
      assert (a + b)[0] == a[0];
      assert (a + b)[1..] == a[1..] + b;
      IndexOfConcat(a[1..], b, c);
    } else {
      assert a + b == b;
    }
  }

  /** The slice of a slice. */
  lemma SliceOfSlice(s: Bytes, i: nat, j: nat, a: nat, b: nat)
    requires i <= j <= |s| && a <= b <= j - i
    ensures s[i..j][a..b] == s[i + a..i + b]
  {
    assert forall k :: 0 <= k < b - a ==> s[i..j][a..b][k] == s[i + a..i + b][k];
  }

  /** QByteArray::startsWith. */
  predicate StartsWith(s: Bytes, prefix: Bytes) {
    |prefix| <= |s| && s[..|prefix|] == prefix
  }

  /** The white-space class of QByteArray::trimmed. */
  predicate IsSpace(c: char) {
    c == ' ' || c == '\t' || c == '\n' || c == '\U{0B}' || c == '\U{0C}' || c == '\r'
  }

  function TrimLeft(s: Bytes): (r: Bytes)
    ensures |r| <= |s| && r == s[|s| - |r|..]
    ensures |r| > 0 ==> !IsSpace(r[0])
    ensures forall i :: 0 <= i < |s| - |r| ==> IsSpace(s[i])
  {
    if |s| > 0 && IsSpace(s[0]) then TrimLeft(s[1..]) else s
  }

  function TrimRight(s: Bytes): (r: Bytes)
    ensures |r| <= |s| && r == s[..|r|]
    ensures |r| > 0 ==> !IsSpace(r[|r| - 1])
    ensures forall i :: |r| <= i < |s| ==> IsSpace(s[i])
  {
    if |s| > 0 && IsSpace(s[|s| - 1]) then TrimRight(s[..|s| - 1]) else s
  }

  /** QByteArray::trimmed: white space removed from both ends. */
  function Trimmed(s: Bytes): (r: Bytes)
    ensures |r| > 0 ==> !IsSpace(r[0]) && !IsSpace(r[|r| - 1])
    ensures (forall i :: 0 <= i < |s| ==> !IsSpace(s[i])) ==> r == s
  {
    TrimRight(TrimLeft(s))
  }

  /** Replaces every non-overlapping occurrence of `before`, scanning from the
      left (QByteArray::replace). */
  function ReplaceAll(s: Bytes, before: Bytes, after: Bytes): Bytes
    requires |before| > 0
    decreases |s|
  {
    if |s| < |before| then s
    else if s[..|before|] == before then after + ReplaceAll(s[|before|..], before, after)
    else [s[0]] + ReplaceAll(s[1..], before, after)
  }

  /** Replacing a pattern that starts with a character `s` does not contain
      changes nothing. */
  lemma {:induction false} ReplaceAllAbsent(s: Bytes, before: Bytes, after: Bytes)
    requires |before| > 0 && before[0] !in s
    ensures ReplaceAll(s, before, after) == s
    decreases |s|
  {
    if |s| >= |before| {
      assert s[..|before|][0] == s[0];
      ReplaceAllAbsent(s[1..], before, after);
    }
  }

  /** Lexicographic order on byte strings (QByteArray's operator<). */
  predicate Less(a: Bytes, b: Bytes) {
    if |a| == 0 then |b| > 0
    else if |b| == 0 then false
    else if a[0] != b[0] then a[0] < b[0]
    else Less(a[1..], b[1..])
  }

  lemma {:induction false} LessIrreflexive(a: Bytes)
    ensures !Less(a, a)
  {
    if |a| > 0 { LessIrreflexive(a[1..]); }
  }

  lemma {:induction false} LessTransitive(a: Bytes, b: Bytes, c: Bytes)
    requires Less(a, b) && Less(b, c)
    ensures Less(a, c)
  {
    if |a| > 0 && |b| > 0 && |c| > 0 && a[0] == b[0] && b[0] == c[0] {
      LessTransitive(a[1..], b[1..], c[1..]);
    }
  }

  lemma {:induction false} LessTotal(a: Bytes, b: Bytes)
    requires a != b
    ensures Less(a, b) || Less(b, a)
  {
    if |a| > 0 && |b| > 0 && a[0] == b[0] {
      assert a == [a[0]] + a[1..] && b == [b[0]] + b[1..];
      LessTotal(a[1..], b[1..]);
    }
  }

  lemma {:induction false} LessAsymmetric(a: Bytes, b: Bytes)
    requires Less(a, b)
    ensures !Less(b, a)
  {
    if |a| > 0 && |b| > 0 && a[0] == b[0] {
      LessAsymmetric(a[1..], b[1..]);
    }
  }

  /** The octet a character stands for. */
  function Octet(c: char): (v: nat)
    ensures v < 256
  {
    (c as int) % 256
  }

  /** The character standing for octet `v`. */
  function OfOctet(v: nat): char
    requires v < 256
  {
    v as char
  }

  /** Bit-wise exclusive or of two naturals, one binary digit at a time. */
  function BitXor(a: nat, b: nat): nat
    decreases a + b
  {
    if a == 0 && b == 0 then 0 else (a + b) % 2 + 2 * BitXor(a / 2, b / 2)
  }

  /** Exclusive or stays within the width of its operands. */
  lemma {:induction false} BitXorBound(a: nat, b: nat, width: nat)
    requires a < width && b < width && IsPowerOfTwo(width)
    ensures BitXor(a, b) < width
    decreases a + b
  {
    if !(a == 0 && b == 0) {
      BitXorBound(a / 2, b / 2, width / 2);
    }
  }

  predicate IsPowerOfTwo(n: nat)
    decreases n
  {
    n == 1 || (n > 1 && n % 2 == 0 && IsPowerOfTwo(n / 2))
  }

  /** Exclusive or with the same operand twice is the identity. */
  lemma {:induction false} BitXorCancels(a: nat, b: nat)
    ensures BitXor(BitXor(a, b), b) == a
    decreases a + b
  {
    var c := BitXor(a, b);
    if a == 0 && b == 0 {
    } else {
      BitXorCancels(a / 2, b / 2);
      SplitLowBit(c, BitXor(a / 2, b / 2), (a + b) % 2);
      ParityCancels(a, b, c);
    }
  }

  /** A natural written as a low bit plus twice a quotient splits back into them. */
  lemma SplitLowBit(x: nat, q: nat, bit: nat)
    requires bit < 2 && x == bit + 2 * q
    ensures x / 2 == q && x % 2 == bit
  {
  }

  lemma ParityCancels(a: nat, b: nat, c: nat)
    requires c % 2 == (a + b) % 2
    ensures (c + b) % 2 == a % 2
  {
  }

  lemma {:induction false} BitXorCommutes(a: nat, b: nat)
    ensures BitXor(a, b) == BitXor(b, a)
    decreases a + b
  {
    if !(a == 0 && b == 0) {
      BitXorCommutes(a / 2, b / 2);
    }
  }

  function XorOctet(x: char, y: char): (z: char)
    ensures (z as int) < 256
  {
    BitXorBound(Octet(x), Octet(y), 256);
    OfOctet(BitXor(Octet(x), Octet(y)))
  }

  /** Byte-wise XOR of two byte strings of the same length. */
  function Xor(a: Bytes, b: Bytes): (r: Bytes)
    requires |a| == |b|
    ensures |r| == |a|
  {
    seq(|a|, i requires 0 <= i < |a| => XorOctet(a[i], b[i]))
  }

  /** Every character stands for an octet. */
  predicate IsOctets(b: Bytes) {
    forall i :: 0 <= i < |b| ==> (b[i] as int) < 256
  }

  lemma XorOctetCancels(x: char, y: char)
    requires (x as int) < 256
    ensures XorOctet(XorOctet(x, y), y) == x
  {
    var v := BitXor(Octet(x), Octet(y));
    BitXorBound(Octet(x), Octet(y), 256);
    OctetRoundTrip(v);
    BitXorCancels(Octet(x), Octet(y));
    CharRoundTrip(x);
  }

  lemma OctetRoundTrip(v: nat)
    requires v < 256
    ensures Octet(OfOctet(v)) == v
  {
  }

  lemma CharRoundTrip(x: char)
    requires (x as int) < 256
    ensures OfOctet(Octet(x)) == x
  {
  }

  /** The other operand can be recovered too: a xor (a xor b) == b. */
  lemma XorCancelsLeft(a: Bytes, b: Bytes)
    requires |a| == |b| && IsOctets(b)
    ensures Xor(a, Xor(a, b)) == b
  {
    forall i | 0 <= i < |a|
      ensures Xor(a, Xor(a, b))[i] == b[i]
    {
      XorOctetCancelsLeft(a[i], b[i]);
    }
  }

  lemma XorOctetCommutes(x: char, y: char)
    ensures XorOctet(x, y) == XorOctet(y, x)
  {
    BitXorCommutes(Octet(x), Octet(y));
  }

  lemma XorOctetCancelsLeft(x: char, y: char)
    requires (y as int) < 256
    ensures XorOctet(x, XorOctet(x, y)) == y
  {
    XorOctetCommutes(x, y);
    XorOctetCommutes(x, XorOctet(y, x));
    XorOctetCancels(y, x);
  }

  /** XOR with the same byte string twice gives back the original: the
      second operand can be recovered from the result and the first. */
  lemma XorCancels(a: Bytes, b: Bytes)
    requires |a| == |b| && IsOctets(a)
    ensures Xor(Xor(a, b), b) == a
  {
    forall i | 0 <= i < |a|
      ensures Xor(Xor(a, b), b)[i] == a[i]
    {
      XorOctetCancels(a[i], b[i]);
    }
  }
}

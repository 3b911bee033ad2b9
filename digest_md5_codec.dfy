/** The DIGEST-MD5 challenge/response syntax of QXmppSaslDigestMd5:
    `key=value` pairs separated by commas, a value quoted when it contains an
    RFC 2616 separator, with `\` and `"` escaped inside quotes. */
module DigestMd5Codec {
  import opened Wrappers
  import opened ByteText
  import opened AttrMap

  const SEPARATORS: Bytes := "()<>@,;:\\\"/[]?={} \t"

  /** A value is quoted when it contains any separator. */
  predicate NeedsQuoting(value: Bytes) {
    exists i :: 0 <= i < |SEPARATORS| && SEPARATORS[i] in value
  }

  /** Escaping inside quotes: `\` becomes `\\`, then `"` becomes `\"`. */
  function Escape(value: Bytes): Bytes {
    ReplaceAll(ReplaceAll(value, "\\", "\\\\"), "\"", "\\\"")
  }

  /** Unescaping as parseMessage does it: `\"` becomes `"`, then `\\` becomes `\`. */
  function Unescape(value: Bytes): Bytes {
    ReplaceAll(ReplaceAll(value, "\\\"", "\""), "\\\\", "\\")
  }

  function EncodeValue(value: Bytes): Bytes {
    if NeedsQuoting(value) then "\"" + Escape(value) + "\"" else value
  }

  function EncodePair(key: Bytes, value: Bytes): Bytes {
    key + "=" + EncodeValue(value)
  }

  /** serializeMessage: the pairs in key order, joined by commas. */
  function Serialize(m: Entries): Bytes {
    if |m| == 0 then []
    else if |m| == 1 then EncodePair(m[0].0, m[0].1)
    else EncodePair(m[0].0, m[0].1) + "," + Serialize(m[1..])
  }

  lemma {:induction false} SerializeSnoc(m: Entries, key: Bytes, value: Bytes)
    ensures Serialize(m + [(key, value)])
         == if |m| == 0 then EncodePair(key, value) else Serialize(m) + "," + EncodePair(key, value)
  {
    if |m| > 1 {
      assert (m + [(key, value)])[1..] == m[1..] + [(key, value)];
      SerializeSnoc(m[1..], key, value);
    } else if |m| == 1 {
      assert (m + [(key, value)])[1..] == [(key, value)];
    }
  }

  /** The separator scan of serializeMessage, stopping at the first separator
      found in the value. */
  method ContainsSeparator(value: Bytes) returns (quote: bool)
    ensures quote <==> NeedsQuoting(value)
  {
    quote := false;
    var j := 0;
    while j < |SEPARATORS|
      invariant 0 <= j <= |SEPARATORS|
      invariant !quote
      invariant forall i :: 0 <= i < j ==> SEPARATORS[i] !in value
    {
      if SEPARATORS[j] in value {
        quote := true;
        break;
      }
      j := j + 1;
    }
  }

  /** serializeMessage. */
  method SerializeMessage(m: Entries) returns (ba: Bytes)
    ensures ba == Serialize(m)
  {
    ba := [];
    var i := 0;
    while i < |m|
      invariant 0 <= i <= |m|
      invariant ba == Serialize(m[..i])
      invariant |ba| == 0 <==> i == 0
    {
      var key := m[i].0;
      var value := m[i].1;
      SerializeSnoc(m[..i], key, value);
      assert m[..i + 1] == m[..i] + [(key, value)];
      if |ba| > 0 {
        ba := ba + ",";
      }
      var encoded := EncodeValueMethod(value);
      ba := AppendPair(ba, key, encoded);
      i := i + 1;
    }
    assert m[..i] == m;
  }

  /** How serializeMessage writes one value: quoted and escaped when it holds
      a separator, as it is otherwise. */
  method EncodeValueMethod(value: Bytes) returns (encoded: Bytes)
    ensures encoded == EncodeValue(value)
  {
    var quote := ContainsSeparator(value);
    if quote {
      var escaped := ReplaceAll(value, "\\", "\\\\");
      escaped := ReplaceAll(escaped, "\"", "\\\"");
      encoded := "\"" + escaped + "\"";
    } else {
      encoded := value;
    }
  }

  /** Appends `key`, `=` and the encoded value. */
  function AppendPair(ba: Bytes, key: Bytes, encoded: Bytes): (r: Bytes)
    ensures |r| > 0 && r == ba + (key + "=" + encoded)
  {
    ba + key + "=" + encoded
  }

  /** The closing quote of a quoted value: the first `"` at or after `from`
      whose preceding character is not a backslash. */
  function QuoteEnd(ba: Bytes, from: nat): (r: Option<nat>)
    requires from >= 1
    ensures r.Some? ==> from <= r.value < |ba| && ba[r.value] == '"' && ba[r.value - 1] != '\\'
    decreases if from <= |ba| then |ba| - from + 1 else 0
  {
    var found := IndexOfFrom(ba, '"', from);
    if found.None? then None
    else
      var e := found.value;
      assert from <= e < |ba|;
      if ba[e - 1] == '\\' then QuoteEnd(ba, e + 1) else Some(e)
  }

  /** Where the search for a closing quote resumes after finding a quote at `e`. */
  function ResumeQuoteEnd(ba: Bytes, endPos: Option<nat>): Option<nat>
    requires endPos.Some? ==> 1 <= endPos.value < |ba|
  {
    match endPos
    case None => None
    case Some(e) => if ba[e - 1] == '\\' then QuoteEnd(ba, e + 1) else Some(e)
  }

  lemma QuoteEndUnfold(ba: Bytes, from: nat)
    requires from >= 1
    ensures QuoteEnd(ba, from) == ResumeQuoteEnd(ba, IndexOfFrom(ba, '"', from))
  {
  }

  /** What one round of the parseMessage loop finds: the `=` ending the key,
      the bounds of the value, whether it was quoted, and where the next round
      starts. */
  datatype Round = Stop | Pair(keyEnd: nat, valueStart: nat, valueEnd: nat, quoted: bool, next: nat)

  /** One round of the parseMessage loop from index `start`, or Stop when the
      loop ends there (no further `=`, or an unfinished quoted value).  A
      character past the end is never a quote. */
  function ParseStep(ba: Bytes, start: nat): (r: Round)
    ensures r.Pair? ==> start <= r.keyEnd < r.valueStart <= r.valueEnd <= |ba| && start < r.next <= |ba| + 1
  {
    match IndexOfFrom(ba, '=', start)
    case None => Stop
    case Some(pos) =>
      if pos + 1 < |ba| && ba[pos + 1] == '"' then QuotedRound(ba, pos) else PlainRound(ba, pos)
  }

  /** A round whose value opens with a quote just past the `=` at `pos`. */
  function QuotedRound(ba: Bytes, pos: nat): (r: Round)
    ensures r.Pair? ==> r.keyEnd == pos && pos + 2 <= r.valueEnd < |ba| && r.next == r.valueEnd + 2
  {
    match QuoteEnd(ba, pos + 2)
    case None => Stop
    case Some(endPos) => Pair(pos, pos + 2, endPos, true, endPos + 2)
  }

  /** A round whose value runs from just past the `=` at `pos` to the next
      comma or the end. */
  function PlainRound(ba: Bytes, pos: nat): (r: Round)
    requires pos < |ba|
    ensures r.Pair? && r.keyEnd == pos && r.valueStart == pos + 1 <= r.valueEnd <= |ba| && r.next == r.valueEnd + 1
  {
    var comma := IndexOfFrom(ba, ',', pos + 1);
    var endPos := if comma.Some? then comma.value else |ba|;
    Pair(pos, pos + 1, endPos, false, endPos + 1)
  }

  /** The key of a round: the text before the `=`, trimmed. */
  function RoundKey(ba: Bytes, start: nat, r: Round): Bytes
    requires r.Pair? && start <= r.keyEnd <= |ba|
  {
    Trimmed(ba[start..r.keyEnd])
  }

  /** The value of a round, unescaped when it was quoted. */
  function RoundValue(ba: Bytes, r: Round): Bytes
    requires r.Pair? && r.valueStart <= r.valueEnd <= |ba|
  {
    if r.quoted then Unescape(ba[r.valueStart..r.valueEnd]) else ba[r.valueStart..r.valueEnd]
  }

  /** parseMessage from index `start`, with the pairs read so far in `acc`. */
  function ParseFrom(ba: Bytes, start: nat, acc: Entries): (r: Entries)
    requires Sorted(acc)
    ensures Sorted(r)
    decreases if start <= |ba| then |ba| - start + 1 else 0
  {
    var round := ParseStep(ba, start);
    if round.Stop? then acc
    else ParseFrom(ba, round.next, Insert(acc, RoundKey(ba, start, round), RoundValue(ba, round)))
  }

  /** The search for the closing quote in parseMessage: from the first `"`,
      skip every quote preceded by a backslash. */
  method FindClosingQuote(ba: Bytes, pos: nat) returns (endPos: Option<nat>)
    requires pos >= 1
    ensures endPos == QuoteEnd(ba, pos)
  {
    endPos := IndexOfFrom(ba, '"', pos);
    QuoteEndUnfold(ba, pos);
    while endPos.Some? && ba[endPos.value - 1] == '\\'
      invariant endPos.Some? ==> pos <= endPos.value < |ba|
      invariant QuoteEnd(ba, pos) == ResumeQuoteEnd(ba, endPos)
      decreases if endPos.Some? then |ba| - endPos.value else 0
    {
      QuoteEndUnfold(ba, endPos.value + 1);
      endPos := IndexOfFrom(ba, '"', endPos.value + 1);
    }
  }

  /** One round of the parseMessage loop: the search for `=`, then for the
      closing quote or the next comma. */
  method ParseRound(ba: Bytes, startIndex: nat) returns (r: Round)
    ensures r == ParseStep(ba, startIndex)
  {
    var found := IndexOfFrom(ba, '=', startIndex);
    if found.None? {
      return Stop;
    }
    var pos := found.value + 1;
    if pos < |ba| && ba[pos] == '"' {
      var endPos := FindClosingQuote(ba, found.value + 2);
      if endPos.None? {
        return Stop;
      }
      r := Pair(found.value, found.value + 2, endPos.value, true, endPos.value + 2);
      assert r == QuotedRound(ba, found.value);
    } else {
      var comma := IndexOfFrom(ba, ',', pos);
      var endPos := if comma.Some? then comma.value else |ba|;
      r := Pair(found.value, pos, endPos, false, endPos + 1);
      assert r == PlainRound(ba, found.value);
    }
  }

  /** parseMessage. */
  method ParseMessage(ba: Bytes) returns (m: Entries)
    ensures Sorted(m)
    ensures m == ParseFrom(ba, 0, [])
  {
    m := [];
    var startIndex := 0;
    while true
      invariant Sorted(m)
      invariant ParseFrom(ba, startIndex, m) == ParseFrom(ba, 0, [])
      decreases if startIndex <= |ba| then |ba| - startIndex + 1 else 0
    {
      var round := ParseRound(ba, startIndex);
      if round.Stop? {
        return;
      }
      var key := Trimmed(ba[startIndex..round.keyEnd]);
      var value := ba[round.valueStart..round.valueEnd];
      if round.quoted {
        value := ReplaceAll(value, "\\\"", "\"");
        value := ReplaceAll(value, "\\\\", "\\");
      }
      assert key == RoundKey(ba, startIndex, round) && value == RoundValue(ba, round);
      m := Insert(m, key, value);
      startIndex := round.next;
    }
  }

  /** An RFC 2616 token: no separator and no white space. */
  predicate IsToken(k: Bytes) {
    forall i :: 0 <= i < |k| ==> k[i] !in SEPARATORS && !IsSpace(k[i])
  }

  /** The maps the parser reads back exactly: token keys and values without a
      backslash. */
  predicate RoundTrips(m: Entries) {
    forall i :: 0 <= i < |m| ==> IsToken(m[i].0) && '\\' !in m[i].1
  }

  function EscapeQuotes(v: Bytes): Bytes {
    ReplaceAll(v, "\"", "\\\"")
  }

  /** In the escaped form of a backslash-free value every quote follows a
      backslash, the last character is not a backslash, and unescaping gives
      the value back. */
  lemma {:induction false} EscapedShape(v: Bytes)
    requires '\\' !in v
    ensures Escape(v) == EscapeQuotes(v)
    ensures |EscapeQuotes(v)| >= |v|
    ensures forall j :: 0 <= j < |EscapeQuotes(v)| && EscapeQuotes(v)[j] == '"' ==> j >= 1 && EscapeQuotes(v)[j - 1] == '\\'
    ensures |EscapeQuotes(v)| > 0 ==> EscapeQuotes(v)[|EscapeQuotes(v)| - 1] != '\\'
    ensures ReplaceAll(EscapeQuotes(v), "\\\"", "\"") == v
    ensures Unescape(Escape(v)) == v
  {
    ReplaceAllAbsent(v, "\\", "\\\\");
    var e := EscapeQuotes(v);
    if |v| > 0 {
      var tail := EscapeQuotes(v[1..]);
      EscapedShape(v[1..]);
      if v[0] == '"' {
        assert v[..1] == "\"";
        assert e == "\\\"" + tail;
        assert e[..2] == "\\\"";
        assert e[2..] == tail;
        assert ReplaceAll(e, "\\\"", "\"") == "\"" + v[1..];
      } else {
        assert v[..1] != "\"";
        assert e == [v[0]] + tail;
        assert e[1..] == tail;
        if |e| >= 2 {
          assert e[..2][0] == v[0];
        }
        assert ReplaceAll(e, "\\\"", "\"") == [v[0]] + v[1..];
      }
      assert [v[0]] + v[1..] == v;
    }
    ReplaceAllAbsent(ReplaceAll(e, "\\\"", "\""), "\\\\", "\\");
  }

  /** The closing quote found is the first quote not preceded by a backslash. */
  lemma {:induction false} QuoteEndAt(ba: Bytes, from: nat, e: nat)
    requires 1 <= from <= e < |ba| && ba[e] == '"' && ba[e - 1] != '\\'
    requires forall j :: from <= j < e && ba[j] == '"' ==> ba[j - 1] == '\\'
    ensures QuoteEnd(ba, from) == Some(e)
    decreases e - from
  {
    var f := FirstQuoteUpTo(ba, from, e);
    if f < e {
      QuoteEndSkips(ba, from, f);
      QuoteEndAt(ba, f + 1, e);
    } else {
      QuoteEndStops(ba, from, f);
    }
  }

  /** A quote at `e` means the search from `from` finds one no later. */
  lemma FirstQuoteUpTo(ba: Bytes, from: nat, e: nat) returns (f: nat)
    requires from <= e < |ba| && ba[e] == '"'
    ensures IndexOfFrom(ba, '"', from) == Some(f) && f <= e
    ensures forall j :: from <= j < f ==> ba[j] != '"'
  {
    IndexOfFromFirst(ba, '"', from);
    f := IndexOfFrom(ba, '"', from).value;
  }

  /** A quote after a backslash is skipped over. */
  lemma QuoteEndSkips(ba: Bytes, from: nat, f: nat)
    requires 1 <= from && IndexOfFrom(ba, '"', from) == Some(f) && ba[f - 1] == '\\'
    ensures QuoteEnd(ba, from) == QuoteEnd(ba, f + 1)
  {
    QuoteEndUnfold(ba, from);
  }

  /** A quote not after a backslash ends the value. */
  lemma QuoteEndStops(ba: Bytes, from: nat, f: nat)
    requires 1 <= from && IndexOfFrom(ba, '"', from) == Some(f) && ba[f - 1] != '\\'
    ensures QuoteEnd(ba, from) == Some(f)
  {
    QuoteEndUnfold(ba, from);
  }

  /** The first `=` from `start` is the one right after a key without one. */
  lemma IndexOfEqualsAfterToken(ba: Bytes, start: nat, key: Bytes)
    requires '=' !in key
    requires start + |key| < |ba| && ba[start..start + |key|] == key && ba[start + |key|] == '='
    ensures IndexOfFrom(ba, '=', start) == Some(start + |key|)
  {
    forall j | start <= j < start + |key|
      ensures ba[j] != '='
    {
      assert ba[j] == key[j - start];
    }
    IndexOfFromIs(ba, '=', start, start + |key|);
  }

  /** A token holds no `=` and is its own trimmed form. */
  lemma TokenFacts(key: Bytes)
    requires IsToken(key)
    ensures '=' !in key && Trimmed(key) == key
  {
    assert SEPARATORS[14] == '=';
  }

  lemma ParseStepQuoted(ba: Bytes, start: nat, n: nat, e: nat)
    requires IndexOfFrom(ba, '=', start) == Some(n)
    requires n + 1 < |ba| && ba[n + 1] == '"'
    requires QuoteEnd(ba, n + 2) == Some(e)
    ensures ParseStep(ba, start) == Pair(n, n + 2, e, true, e + 2)
  {
  }

  lemma ParseStepUnquoted(ba: Bytes, start: nat, n: nat, stop: nat)
    requires IndexOfFrom(ba, '=', start) == Some(n)
    requires !(n + 1 < |ba| && ba[n + 1] == '"')
    requires n + 1 <= stop <= |ba|
    requires IndexOfFrom(ba, ',', n + 1) == (if stop < |ba| then Some(stop) else None)
    ensures ParseStep(ba, start) == Pair(n, n + 1, stop, false, stop + 1)
  {
    assert ParseStep(ba, start) == PlainRound(ba, n);
  }

  /** Where the parts of a quoted pair sit once it is written at `start`. */
  lemma QuotedLayout(ba: Bytes, start: nat, key: Bytes, esc: Bytes)
    requires start + |key| + |esc| + 3 <= |ba|
    requires ba[start..start + |key| + |esc| + 3] == key + "=" + ("\"" + esc + "\"")
    ensures ba[start..start + |key|] == key
    ensures ba[start + |key|] == '=' && ba[start + |key| + 1] == '"'
    ensures ba[start + |key| + 2 + |esc|] == '"'
    ensures ba[start + |key| + 2..start + |key| + 2 + |esc|] == esc
  {
    var pair := key + "=" + ("\"" + esc + "\"");
    var stop := start + |pair|;
    SliceOfSlice(ba, start, stop, 0, |key|);
    assert pair[..|key|] == key;
    assert pair[|key|] == '=' && pair[|key| + 1] == '"' && pair[|pair| - 1] == '"';
    assert ba[start + |key|] == pair[|key|];
    assert ba[start + |key| + 1] == pair[|key| + 1];
    assert ba[stop - 1] == pair[|pair| - 1];
    SliceOfSlice(ba, start, stop, |key| + 2, |key| + 2 + |esc|);
    assert pair[|key| + 2..|key| + 2 + |esc|] == esc;
  }

  /** One round of the parser reads back a quoted serialized pair. */
  lemma ParseQuotedPair(ba: Bytes, start: nat, key: Bytes, value: Bytes)
    requires IsToken(key) && '\\' !in value && NeedsQuoting(value)
    requires start + |EncodePair(key, value)| <= |ba|
    requires ba[start..start + |EncodePair(key, value)|] == EncodePair(key, value)
    ensures ParseStep(ba, start).Pair?
    ensures ParseStep(ba, start).next == start + |EncodePair(key, value)| + 1
    ensures RoundKey(ba, start, ParseStep(ba, start)) == key
    ensures RoundValue(ba, ParseStep(ba, start)) == value
  {
    var esc := EscapeQuotes(value);
    QuotedEncoding(key, value);
    QuotedLayout(ba, start, key, esc);
    QuotedPairRound(ba, start, key, value);
    QuotedRoundReads(ba, start, key, esc, ParseStep(ba, start));
  }

  /** A quoted pair as written, for a backslash-free value. */
  lemma QuotedEncoding(key: Bytes, value: Bytes)
    requires '\\' !in value && NeedsQuoting(value)
    ensures EncodePair(key, value) == key + "=" + ("\"" + EscapeQuotes(value) + "\"")
    ensures Unescape(EscapeQuotes(value)) == value
  {
    EscapeInverse(value);
  }

  /** The key and the value of a round over a quoted pair laid out at
      `start`. */
  lemma QuotedRoundReads(ba: Bytes, start: nat, key: Bytes, esc: Bytes, r: Round)
    requires IsToken(key)
    requires start + |key| + |esc| + 3 <= |ba|
    requires ba[start..start + |key|] == key
    requires ba[start + |key| + 2..start + |key| + 2 + |esc|] == esc
    requires r == Pair(start + |key|, start + |key| + 2, start + |key| + 2 + |esc|, true, start + |key| + 2 + |esc| + 2)
    ensures RoundKey(ba, start, r) == key
    ensures RoundValue(ba, r) == Unescape(esc)
  {
    TokenTrimmed(key);
    RoundKeyIs(ba, start, r, key);
    RoundValueIs(ba, r, esc);
  }

  lemma RoundKeyIs(ba: Bytes, start: nat, r: Round, key: Bytes)
    requires r.Pair? && start <= r.keyEnd <= |ba| && ba[start..r.keyEnd] == key && Trimmed(key) == key
    ensures RoundKey(ba, start, r) == key
  {
  }

  lemma RoundValueIs(ba: Bytes, r: Round, text: Bytes)
    requires r.Pair? && r.valueStart <= r.valueEnd <= |ba| && ba[r.valueStart..r.valueEnd] == text
    ensures RoundValue(ba, r) == if r.quoted then Unescape(text) else text
  {
  }

  /** The round the parser makes over a quoted pair laid out at `start`. */
  lemma QuotedPairRound(ba: Bytes, start: nat, key: Bytes, value: Bytes)
    requires IsToken(key) && '\\' !in value
    requires start + |key| + |EscapeQuotes(value)| + 3 <= |ba|
    requires ba[start..start + |key|] == key
    requires ba[start + |key|] == '=' && ba[start + |key| + 1] == '"'
    requires ba[start + |key| + 2 + |EscapeQuotes(value)|] == '"'
    requires ba[start + |key| + 2..start + |key| + 2 + |EscapeQuotes(value)|] == EscapeQuotes(value)
    ensures ParseStep(ba, start)
         == Pair(start + |key|, start + |key| + 2, start + |key| + 2 + |EscapeQuotes(value)|, true,
                 start + |key| + 2 + |EscapeQuotes(value)| + 2)
  {
    var n := start + |key|;
    TokenFacts(key);
    IndexOfEqualsAfterToken(ba, start, key);
    EscapedCloses(ba, n + 2, value);
    ParseStepQuoted(ba, start, n, n + 2 + |EscapeQuotes(value)|);
  }

  /** For a backslash-free value, escaping only escapes quotes, and
      unescaping undoes it. */
  lemma EscapeInverse(v: Bytes)
    requires '\\' !in v
    ensures Escape(v) == EscapeQuotes(v)
    ensures Unescape(EscapeQuotes(v)) == v
  {
    EscapedShape(v);
  }

  /** The escaped form of a backslash-free value, followed by a quote, ends
      exactly at that quote. */
  lemma EscapedCloses(ba: Bytes, from: nat, v: Bytes)
    requires '\\' !in v
    requires 1 <= from && from + |EscapeQuotes(v)| < |ba|
    requires ba[from - 1] == '"' && ba[from + |EscapeQuotes(v)|] == '"'
    requires ba[from..from + |EscapeQuotes(v)|] == EscapeQuotes(v)
    ensures QuoteEnd(ba, from) == Some(from + |EscapeQuotes(v)|)
  {
    EscapedShape(v);
    QuotedCloses(ba, from, EscapeQuotes(v));
  }

  /** A token is its own trimmed form. */
  lemma TokenTrimmed(key: Bytes)
    requires IsToken(key)
    ensures Trimmed(key) == key
  {
  }

  /** The escaped text followed by a quote ends exactly at that quote. */
  lemma QuotedCloses(ba: Bytes, from: nat, esc: Bytes)
    requires 1 <= from && from + |esc| < |ba|
    requires ba[from - 1] == '"' && ba[from + |esc|] == '"' && ba[from..from + |esc|] == esc
    requires forall j :: 0 <= j < |esc| && esc[j] == '"' ==> j >= 1 && esc[j - 1] == '\\'
    requires |esc| > 0 ==> esc[|esc| - 1] != '\\'
    ensures QuoteEnd(ba, from) == Some(from + |esc|)
  {
    var e := from + |esc|;
    forall j | from <= j < e && ba[j] == '"'
      ensures ba[j - 1] == '\\'
    {
      assert ba[j] == esc[j - from];
      assert ba[j - 1] == esc[j - from - 1];
    }
    if |esc| > 0 {
      assert ba[e - 1] == esc[|esc| - 1];
    }
    QuoteEndAt(ba, from, e);
  }

  /** One round of the parser reads back an unquoted pair `key=value` that
      is followed by a comma or by the end of the input. */
  lemma ParseUnquotedPair(ba: Bytes, start: nat, key: Bytes, value: Bytes, pair: Bytes)
    requires '=' !in key && Trimmed(key) == key
    requires '"' !in value && ',' !in value
    requires pair == key + "=" + value
    requires start + |pair| <= |ba| && ba[start..start + |pair|] == pair
    requires start + |pair| == |ba| || ba[start + |pair|] == ','
    ensures var stop := start + |pair|;
      ParseStep(ba, start) == Pair(start + |key|, start + |key| + 1, stop, false, stop + 1)
    ensures RoundKey(ba, start, ParseStep(ba, start)) == key
    ensures RoundValue(ba, ParseStep(ba, start)) == value
  {
    UnquotedRound(ba, start, key, value, pair);
    UnquotedRoundReads(ba, start, key, value, pair, ParseStep(ba, start));
  }

  /** What the key and the value of the round over an unquoted pair read. */
  lemma UnquotedRoundReads(ba: Bytes, start: nat, key: Bytes, value: Bytes, pair: Bytes, r: Round)
    requires Trimmed(key) == key
    requires pair == key + "=" + value
    requires start + |pair| <= |ba| && ba[start..start + |pair|] == pair
    requires r == Pair(start + |key|, start + |key| + 1, start + |pair|, false, start + |pair| + 1)
    ensures RoundKey(ba, start, r) == key
    ensures RoundValue(ba, r) == value
  {
    UnquotedLayout(ba, start, key, value, pair);
    RoundKeyIs(ba, start, r, key);
    RoundValueIs(ba, r, value);
  }

  /** The round the parser makes over an unquoted pair laid out at `start`. */
  lemma UnquotedRound(ba: Bytes, start: nat, key: Bytes, value: Bytes, pair: Bytes)
    requires '=' !in key
    requires '"' !in value && ',' !in value
    requires pair == key + "=" + value
    requires start + |pair| <= |ba| && ba[start..start + |pair|] == pair
    requires start + |pair| == |ba| || ba[start + |pair|] == ','
    ensures var stop := start + |pair|;
      ParseStep(ba, start) == Pair(start + |key|, start + |key| + 1, stop, false, stop + 1)
  {
    var n := start + |key|;
    UnquotedLayout(ba, start, key, value, pair);
    IndexOfEqualsAfterToken(ba, start, key);
    UnquotedValueEnds(ba, n + 1, value);
    ParseStepUnquoted(ba, start, n, start + |pair|);
  }

  /** Where the parts of an unquoted pair sit once it is written at `start`. */
  lemma UnquotedLayout(ba: Bytes, start: nat, key: Bytes, value: Bytes, pair: Bytes)
    requires pair == key + "=" + value
    requires start + |pair| <= |ba| && ba[start..start + |pair|] == pair
    ensures |pair| == |key| + 1 + |value|
    ensures ba[start..start + |key|] == key
    ensures ba[start + |key|] == '='
    ensures ba[start + |key| + 1..start + |pair|] == value
  {
    var stop := start + |pair|;
    SliceOfSlice(ba, start, stop, 0, |key|);
    assert pair[..|key|] == key;
    assert ba[start + |key|] == pair[|key|];
    SliceOfSlice(ba, start, stop, |key| + 1, |pair|);
    assert pair[|key| + 1..] == value;
  }

  /** A value without separators, written at `from` and followed by a comma
      or the end, is not taken for a quoted one and ends at that comma. */
  lemma UnquotedValueEnds(ba: Bytes, from: nat, value: Bytes)
    requires '"' !in value && ',' !in value
    requires from + |value| <= |ba| && ba[from..from + |value|] == value
    requires from + |value| == |ba| || ba[from + |value|] == ','
    ensures !(from < |ba| && ba[from] == '"')
    ensures IndexOfFrom(ba, ',', from) == (if from + |value| < |ba| then Some(from + |value|) else None)
  {
    var stop := from + |value|;
    if |value| > 0 {
      assert ba[from] == value[0];
    }
    forall j | from <= j < stop
      ensures ba[j] != ','
    {
      assert ba[j] == value[j - from];
    }
    if stop < |ba| {
      IndexOfFromIs(ba, ',', from, stop);
    } else {
      IndexOfFromNone(ba, ',', from);
    }
  }

  /** One round of the parser reads back one serialized pair that is followed
      by a comma or by the end of the input. */
  lemma ParseStepOnPair(ba: Bytes, start: nat, key: Bytes, value: Bytes)
    requires IsToken(key) && '\\' !in value
    requires start + |EncodePair(key, value)| <= |ba|
    requires ba[start..start + |EncodePair(key, value)|] == EncodePair(key, value)
    requires start + |EncodePair(key, value)| == |ba| || ba[start + |EncodePair(key, value)|] == ','
    ensures ParseStep(ba, start).Pair?
    ensures ParseStep(ba, start).next == start + |EncodePair(key, value)| + 1
    ensures RoundKey(ba, start, ParseStep(ba, start)) == key
    ensures RoundValue(ba, ParseStep(ba, start)) == value
  {
    if NeedsQuoting(value) {
      ParseQuotedPair(ba, start, key, value);
    } else {
      ParseUnquotedEncoded(ba, start, key, value);
    }
  }

  /** The unquoted case of ParseStepOnPair. */
  lemma ParseUnquotedEncoded(ba: Bytes, start: nat, key: Bytes, value: Bytes)
    requires IsToken(key) && !NeedsQuoting(value)
    requires start + |EncodePair(key, value)| <= |ba|
    requires ba[start..start + |EncodePair(key, value)|] == EncodePair(key, value)
    requires start + |EncodePair(key, value)| == |ba| || ba[start + |EncodePair(key, value)|] == ','
    ensures ParseStep(ba, start).Pair?
    ensures ParseStep(ba, start).next == start + |EncodePair(key, value)| + 1
    ensures RoundKey(ba, start, ParseStep(ba, start)) == key
    ensures RoundValue(ba, ParseStep(ba, start)) == value
  {
    UnquotedEncoding(key, value);
    TokenFacts(key);
    ParseUnquotedPair(ba, start, key, value, EncodePair(key, value));
  }

  /** An unquoted pair as written. */
  lemma UnquotedEncoding(key: Bytes, value: Bytes)
    requires !NeedsQuoting(value)
    ensures EncodePair(key, value) == key + "=" + value
    ensures '"' !in value && ',' !in value
  {
    assert SEPARATORS[9] == '"' && SEPARATORS[5] == ',';
  }

  /** Where the first pair of a serialized map ends, and what follows it. */
  lemma SerializedHead(ba: Bytes, start: nat, m: Entries)
    requires |m| >= 1 && start <= |ba| && ba[start..] == Serialize(m)
    ensures start + |EncodePair(m[0].0, m[0].1)| <= |ba|
    ensures ba[start..start + |EncodePair(m[0].0, m[0].1)|] == EncodePair(m[0].0, m[0].1)
    ensures |m| == 1 ==> start + |EncodePair(m[0].0, m[0].1)| == |ba|
    ensures |m| > 1 ==> start + |EncodePair(m[0].0, m[0].1)| < |ba| && ba[start + |EncodePair(m[0].0, m[0].1)|] == ','
    ensures |m| > 1 ==> ba[start + |EncodePair(m[0].0, m[0].1)| + 1..] == Serialize(m[1..])
  {
    var pair := EncodePair(m[0].0, m[0].1);
    var stop := start + |pair|;
    if |m| == 1 {
      assert ba[start..] == pair;
    } else {
      assert Serialize(m) == pair + ("," + Serialize(m[1..]));
      assert ba[start..][..|pair|] == pair;
      assert ba[start..][|pair|] == ',';
      assert ba[start..][|pair| + 1..] == Serialize(m[1..]);
    }
  }

  /** The keys still to be read stay above the keys read so far. */
  lemma KeysStayAbove(acc: Entries, m: Entries)
    requires |m| >= 1 && Sorted(m)
    requires forall i, j :: 0 <= i < |acc| && 0 <= j < |m| ==> Less(acc[i].0, m[j].0)
    ensures forall i :: 0 <= i < |acc| ==> Less(acc[i].0, m[0].0)
    ensures Sorted(m[1..])
    ensures forall i, j :: 0 <= i < |acc + [m[0]]| && 0 <= j < |m[1..]| ==> Less((acc + [m[0]])[i].0, m[1..][j].0)
  {
    forall i, j | 0 <= i < |acc + [m[0]]| && 0 <= j < |m[1..]|
      ensures Less((acc + [m[0]])[i].0, m[1..][j].0)
    {
      assert m[1..][j] == m[j + 1];
      if i == |acc| {
        assert (acc + [m[0]])[i] == m[0];
      } else {
        assert (acc + [m[0]])[i] == acc[i];
      }
    }
  }

  /** One pair read from `start` is inserted before parsing goes on. */
  lemma ParseFromPair(ba: Bytes, start: nat, acc: Entries, key: Bytes, value: Bytes)
    requires Sorted(acc) && ParseStep(ba, start).Pair?
    requires RoundKey(ba, start, ParseStep(ba, start)) == key
    requires RoundValue(ba, ParseStep(ba, start)) == value
    ensures ParseFrom(ba, start, acc) == ParseFrom(ba, ParseStep(ba, start).next, Insert(acc, key, value))
  {
  }

  lemma AppendHead(acc: Entries, m: Entries)
    requires |m| >= 1
    ensures acc + [m[0]] + m[1..] == acc + m
  {
    assert m == [m[0]] + m[1..];
  }

  /** After the last pair the parser is past the end of the input. */
  lemma SerializedEnd(ba: Bytes, start: nat, m: Entries, next: nat)
    requires |m| == 1 && start <= |ba| && ba[start..] == Serialize(m)
    requires next == start + |EncodePair(m[0].0, m[0].1)| + 1
    ensures next > |ba|
  {
    SerializedHead(ba, start, m);
  }

  /** After a pair that is not the last the rest of the map follows. */
  lemma SerializedTail(ba: Bytes, start: nat, m: Entries, next: nat)
    requires |m| > 1 && start <= |ba| && ba[start..] == Serialize(m)
    requires next == start + |EncodePair(m[0].0, m[0].1)| + 1
    ensures next <= |ba| && ba[next..] == Serialize(m[1..])
  {
    SerializedHead(ba, start, m);
  }

  /** Parsing stops once the input is used up. */
  lemma ParseAtEnd(ba: Bytes, start: nat, acc: Entries)
    requires start >= |ba| && Sorted(acc)
    ensures ParseFrom(ba, start, acc) == acc
  {
    assert ParseStep(ba, start).Stop?;
  }

  /** The parser's round over the first pair of a serialized map. */
  lemma FirstRound(ba: Bytes, start: nat, m: Entries, next: nat)
    requires |m| >= 1 && RoundTrips(m)
    requires start <= |ba| && ba[start..] == Serialize(m)
    requires next == start + |EncodePair(m[0].0, m[0].1)| + 1
    ensures ParseStep(ba, start).Pair? && ParseStep(ba, start).next == next
    ensures RoundKey(ba, start, ParseStep(ba, start)) == m[0].0
    ensures RoundValue(ba, ParseStep(ba, start)) == m[0].1
  {
    SerializedHead(ba, start, m);
    ParseStepOnPair(ba, start, m[0].0, m[0].1);
  }

  /** Reading the first pair of a serialized map appends it to what was read
      before. */
  lemma ParseFirstPair(ba: Bytes, start: nat, m: Entries, acc: Entries, next: nat)
    requires |m| >= 1 && Sorted(acc) && Sorted(m) && RoundTrips(m)
    requires forall i, j :: 0 <= i < |acc| && 0 <= j < |m| ==> Less(acc[i].0, m[j].0)
    requires start <= |ba| && ba[start..] == Serialize(m)
    requires next == start + |EncodePair(m[0].0, m[0].1)| + 1
    ensures Sorted(acc + [m[0]])
    ensures ParseFrom(ba, start, acc) == ParseFrom(ba, next, acc + [m[0]])
  {
    FirstRound(ba, start, m, next);
    KeysStayAbove(acc, m);
    InsertGreatest(acc, m[0].0, m[0].1);
    ParseFromPair(ba, start, acc, m[0].0, m[0].1);
  }

  /** Parsing the serialized form of `m` from `start` appends `m` to what was
      read before. */
  lemma {:induction false} ParseSerialized(ba: Bytes, start: nat, m: Entries, acc: Entries)
    requires Sorted(acc) && Sorted(m) && RoundTrips(m)
    requires forall i, j :: 0 <= i < |acc| && 0 <= j < |m| ==> Less(acc[i].0, m[j].0)
    requires start <= |ba| && ba[start..] == Serialize(m)
    ensures ParseFrom(ba, start, acc) == acc + m
    decreases |m|
  {
    if |m| == 0 {
      ParseAtEnd(ba, start, acc);
      assert acc + m == acc;
    } else {
      var next := start + |EncodePair(m[0].0, m[0].1)| + 1;
      ParseFirstPair(ba, start, m, acc, next);
      if |m| == 1 {
        SerializedEnd(ba, start, m, next);
        ParseAtEnd(ba, next, acc + [m[0]]);
        assert m == [m[0]];
      } else {
        SerializedTail(ba, start, m, next);
        KeysStayAbove(acc, m);
        RoundTripsTail(m);
        ParseSerialized(ba, next, m[1..], acc + [m[0]]);
        AppendHead(acc, m);
      }
    }
  }

  lemma RoundTripsTail(m: Entries)
    requires |m| >= 1 && RoundTrips(m)
    ensures RoundTrips(m[1..])
  {
    forall i | 0 <= i < |m[1..]| ensures IsToken(m[1..][i].0) && '\\' !in m[1..][i].1 {
      assert m[1..][i] == m[i + 1];
    }
  }

  /** parseMessage reads back what serializeMessage writes, for maps whose keys
      are tokens and whose values hold no backslash. */
  lemma ParseSerializeRoundTrip(m: Entries)
    requires Sorted(m) && RoundTrips(m)
    ensures ParseFrom(Serialize(m), 0, []) == m
  {
    ParseSerialized(Serialize(m), 0, m, []);
  }

  /** A quoted value that ends in a backslash is not read back: its closing
      quote looks escaped, so the map `k -> \` comes back empty. */
  lemma TrailingBackslashLost()
    ensures Serialize([("k", "\\")]) == "k=\"\\\\\""
    ensures ParseFrom(Serialize([("k", "\\")]), 0, []) == []
  {
    TrailingBackslashWritten();
    TrailingBackslashUnread();
  }

  lemma TrailingBackslashWritten()
    ensures Serialize([("k", "\\")]) == "k=\"\\\\\""
  {
    var v: Bytes := "\\";
    assert v[0] == SEPARATORS[8];
    assert NeedsQuoting(v);
    assert ReplaceAll(v, "\\", "\\\\") == "\\\\" by {
      assert v[..1] == "\\";
    }
    assert Escape(v) == "\\\\" by {
      ReplaceAllAbsent("\\\\", "\"", "\\\"");
    }
  }

  lemma TrailingBackslashUnread()
    ensures ParseFrom("k=\"\\\\\"", 0, []) == []
  {
    var ba: Bytes := "k=\"\\\\\"";
    assert IndexOfFrom(ba, '=', 0) == Some(1);
    assert IndexOfFrom(ba, '"', 3) == Some(5);
    assert IndexOfFrom(ba, '"', 6).None?;
    assert QuoteEnd(ba, 3).None?;
    assert ParseStep(ba, 0).Stop?;
  }
}

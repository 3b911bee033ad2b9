/** QMap<QByteArray, QByteArray> as used by the DIGEST-MD5 and GS2 parsers: an
    association list kept in ascending key order, so that iteration follows
    QMap's key order and assignment `map[key] = value` overwrites. */
module AttrMap {
  import opened Wrappers
  import opened ByteText

  type Entries = seq<(Bytes, Bytes)>

  /** Keys strictly ascending, hence unique. */
  predicate Sorted(m: Entries) {
    forall i, j :: 0 <= i < j < |m| ==> Less(m[i].0, m[j].0)
  }

  /** QMap::value / QMap::contains: the value stored under `k`, if any. */
  function Lookup(m: Entries, k: Bytes): (r: Option<Bytes>)
    ensures r.Some? <==> exists i :: 0 <= i < |m| && m[i].0 == k
    ensures r.Some? ==> (k, r.value) in m
  {
    if |m| == 0 then None
    else if m[0].0 == k then Some(m[0].1)
    else
      var r := Lookup(m[1..], k);
      assert forall i :: 1 <= i < |m| ==> m[i] == m[1..][i - 1];
      r
  }

  /** QMap::value(key, defaultValue). */
  function ValueOr(m: Entries, k: Bytes, default: Bytes): Bytes {
    Lookup(m, k).GetOr(default)
  }

  /** `map[key] = value`: the entry for `k` is replaced or added in key order. */
  function Insert(m: Entries, k: Bytes, v: Bytes): (r: Entries)
    requires Sorted(m)
    ensures Sorted(r)
    ensures Lookup(r, k) == Some(v)
    ensures forall k' :: k' != k ==> Lookup(r, k') == Lookup(m, k')
    ensures forall e :: e in r ==> e in m || e == (k, v)
  {
    if |m| == 0 then [(k, v)]
    else if m[0].0 == k then
      assert forall i :: 1 <= i < |m| ==> Less(k, m[i].0);
      SortedCons((k, v), m[1..]);
      [(k, v)] + m[1..]
    else if Less(k, m[0].0) then
      assert forall i :: 0 <= i < |m| ==> Less(k, m[i].0) by {
        forall i | 0 <= i < |m| ensures Less(k, m[i].0) {
          if i > 0 { LessTransitive(k, m[0].0, m[i].0); }
        }
      }
      SortedCons((k, v), m);
      forall k' | k' != k ensures Lookup([(k, v)] + m, k') == Lookup(m, k') {
        assert ([(k, v)] + m)[1..] == m;
      }
      [(k, v)] + m
    else
      LessTotal(k, m[0].0);
      var rest := Insert(m[1..], k, v);
      assert forall i :: 0 <= i < |rest| ==> Less(m[0].0, rest[i].0) by {
        forall i | 0 <= i < |rest| ensures Less(m[0].0, rest[i].0) {
          if rest[i] !in m[1..] { assert rest[i] == (k, v); }
        }
      }
      SortedCons(m[0], rest);
      var r := [m[0]] + rest;
      assert r[1..] == rest;
      r
  }

  /** An entry below every key of a sorted list can be put in front of it. */
  lemma SortedCons(e: (Bytes, Bytes), m: Entries)
    requires Sorted(m)
    requires forall i :: 0 <= i < |m| ==> Less(e.0, m[i].0)
    ensures Sorted([e] + m)
  {
    var r := [e] + m;
    forall i, j | 0 <= i < j < |r| ensures Less(r[i].0, r[j].0) {
      assert r[j] == m[j - 1];
      if i > 0 { assert r[i] == m[i - 1]; }
    }
  }

  /** The first assignment to an empty map. */
  lemma InsertIntoEmpty(k: Bytes, v: Bytes)
    ensures Insert([], k, v) == [(k, v)]
  {
  }

  /** Looking up a key after an assignment. */
  lemma InsertLookup(m: Entries, k: Bytes, v: Bytes, k': Bytes)
    requires Sorted(m)
    ensures Lookup(Insert(m, k, v), k') == if k' == k then Some(v) else Lookup(m, k')
  {
  }

  /** A key above every present key is appended at the end. */
  lemma {:induction false} InsertGreatest(m: Entries, k: Bytes, v: Bytes)
    requires Sorted(m)
    requires forall i :: 0 <= i < |m| ==> Less(m[i].0, k)
    ensures Insert(m, k, v) == m + [(k, v)]
  {
    if |m| > 0 {
      var tail := m[1..];
      InsertAbove(m, k, v);
      TailBelow(m, k);
      InsertGreatest(tail, k, v);
      ConsSnoc(m, (k, v));
    }
  }

  lemma ConsSnoc(m: Entries, e: (Bytes, Bytes))
    requires |m| > 0
    ensures [m[0]] + (m[1..] + [e]) == m + [e]
  {
  }

  /** The entries after the first stay sorted and below any bound of all. */
  lemma TailBelow(m: Entries, k: Bytes)
    requires Sorted(m) && |m| > 0
    requires forall i :: 0 <= i < |m| ==> Less(m[i].0, k)
    ensures Sorted(m[1..])
    ensures forall i :: 0 <= i < |m[1..]| ==> Less(m[1..][i].0, k)
  {
    assert forall i :: 0 <= i < |m[1..]| ==> m[1..][i] == m[i + 1];
  }

  /** A key above the first key is inserted among the rest. */
  lemma InsertAbove(m: Entries, k: Bytes, v: Bytes)
    requires Sorted(m) && |m| > 0 && Less(m[0].0, k)
    ensures Insert(m, k, v) == [m[0]] + Insert(m[1..], k, v)
  {
    LessIrreflexive(k);
    LessAsymmetric(m[0].0, k);
  }

  /** Successive assignments `map[key] = value`, in order. */
  function InsertAll(m: Entries, pairs: Entries): (r: Entries)
    requires Sorted(m)
    ensures Sorted(r)
    decreases |pairs|
  {
    if |pairs| == 0 then m
    else InsertAll(Insert(m, pairs[0].0, pairs[0].1), pairs[1..])
  }

  lemma InsertAllStep(m: Entries, pairs: Entries)
    requires Sorted(m) && |pairs| > 0
    ensures InsertAll(m, pairs) == InsertAll(Insert(m, pairs[0].0, pairs[0].1), pairs[1..])
  {
  }

  /** Successive assignments only store the old entries and the assigned
      pairs. */
  lemma {:induction false} InsertAllEntries(m: Entries, pairs: Entries)
    requires Sorted(m)
    ensures forall e :: e in InsertAll(m, pairs) ==> e in m || e in pairs
    decreases |pairs|
  {
    if |pairs| > 0 {
      InsertAllEntries(Insert(m, pairs[0].0, pairs[0].1), pairs[1..]);
      assert forall e :: e in pairs[1..] ==> e in pairs;
    }
  }
}

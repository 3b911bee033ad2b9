/** The SCRAM attribute splitter parseGS2: a comma-separated list of
    `k=value` attributes read into a map from the one-character name to the
    value.  Parts that are not of that shape are skipped, and a later
    attribute with the same name replaces an earlier one. */
module Gs2 {
  import opened ByteText

  type Gs2Map = map<char, Bytes>

  /** A part of the form `k=...`. */
  predicate IsAttribute(kv: Bytes) {
    |kv| >= 2 && kv[1] == '='
  }

  /** The map built from `parts`, read from first to last. */
  function Attributes(parts: seq<Bytes>): (m: Gs2Map)
    ensures forall k :: k in m ==> exists i :: 0 <= i < |parts| && IsAttribute(parts[i]) && parts[i][0] == k
  {
    if |parts| == 0 then map[]
    else
      var m := Attributes(parts[..|parts| - 1]);
      var kv := parts[|parts| - 1];
      if IsAttribute(kv) then m[kv[0] := kv[2..]] else m
  }

  /** QMap::value(key): the attribute's value, or empty when it is absent. */
  function Value(m: Gs2Map, k: char): Bytes {
    if k in m then m[k] else []
  }

  /** parseGS2. */
  method ParseGs2(ba: Bytes) returns (m: Gs2Map)
    ensures m == Attributes(Split(ba, ','))
  {
    var parts := Split(ba, ',');
    m := map[];
    for i := 0 to |parts|
      invariant m == Attributes(parts[..i])
    {
      var keyValue := parts[i];
      assert parts[..i + 1][..i] == parts[..i];
      if |keyValue| >= 2 && keyValue[1] == '=' {
        m := m[keyValue[0] := keyValue[2..]];
      }
    }
    assert parts[..|parts|] == parts;
  }

  /** The value of a name is the one of its last attribute. */
  lemma {:induction false} LastAttributeWins(parts: seq<Bytes>, i: nat)
    requires i < |parts| && IsAttribute(parts[i])
    requires forall j :: i < j < |parts| && IsAttribute(parts[j]) ==> parts[j][0] != parts[i][0]
    ensures parts[i][0] in Attributes(parts)
    ensures Attributes(parts)[parts[i][0]] == parts[i][2..]
    decreases |parts|
  {
    if i < |parts| - 1 {
      var init := parts[..|parts| - 1];
      assert init[i] == parts[i];
      forall j | i < j < |init| && IsAttribute(init[j])
        ensures init[j][0] != init[i][0]
      {
        assert init[j] == parts[j];
      }
      LastAttributeWins(init, i);
    }
  }

  /** A name without any attribute is absent. */
  lemma AbsentAttribute(parts: seq<Bytes>, k: char)
    requires forall j :: 0 <= j < |parts| && IsAttribute(parts[j]) ==> parts[j][0] != k
    ensures k !in Attributes(parts)
  {
  }

  /** One attribute as written: the name, `=`, the value. */
  function Attribute(k: char, value: Bytes): Bytes {
    [k, '='] + value
  }

  /** Parsing attributes written with distinct names and comma-free values
      gives back every name with its value. */
  lemma ParseWrittenAttributes(names: seq<char>, values: seq<Bytes>, i: nat)
    requires |names| == |values| >= 1 && i < |names|
    requires forall a, b :: 0 <= a < b < |names| ==> names[a] != names[b]
    requires forall a :: 0 <= a < |values| ==> ',' !in values[a] && names[a] != ','
    ensures Attributes(Split(Join(seq(|names|, a requires 0 <= a < |names| => Attribute(names[a], values[a])), ','), ','))
              == Attributes(seq(|names|, a requires 0 <= a < |names| => Attribute(names[a], values[a])))
    ensures names[i] in Attributes(seq(|names|, a requires 0 <= a < |names| => Attribute(names[a], values[a])))
    ensures Attributes(seq(|names|, a requires 0 <= a < |names| => Attribute(names[a], values[a])))[names[i]] == values[i]
  {
    var parts := seq(|names|, a requires 0 <= a < |names| => Attribute(names[a], values[a]));
    forall a | 0 <= a < |parts|
      ensures ',' !in parts[a]
    {
      assert parts[a] == [names[a], '='] + values[a];
    }
    SplitJoin(parts, ',');
    assert parts[i][2..] == values[i];
    LastAttributeWins(parts, i);
  }
}

/** QStringList::indexOf and at() over the constant tables that map enum
    values to their XML names. */
module StringTable {
  import opened Wrappers

  /** QStringList::indexOf: the first position holding `s`, None for -1. */
  function IndexOf(table: seq<string>, s: string): (r: Option<nat>)
    ensures r.Some? ==> r.value < |table| && table[r.value] == s
    ensures r.Some? ==> forall j :: 0 <= j < r.value ==> table[j] != s
    ensures r.None? <==> s !in table
  {
    IndexFrom(table, s, 0)
  }

  /** The search loop of indexOf, from position `start` on. */
  function IndexFrom(table: seq<string>, s: string, start: nat): (r: Option<nat>)
    requires start <= |table|
    ensures r.Some? ==> start <= r.value < |table| && table[r.value] == s
    ensures r.Some? ==> forall j :: start <= j < r.value ==> table[j] != s
    ensures r.None? <==> forall j :: start <= j < |table| ==> table[j] != s
    decreases |table| - start
  {
    if start == |table| then None
    else if table[start] == s then Some(start)
    else IndexFrom(table, s, start + 1)
  }

  /** No name appears twice. */
  predicate Distinct(table: seq<string>) {
    forall i, j :: 0 <= i < j < |table| ==> table[i] != table[j]
  }

  /** In a table without repeated names, looking up the name at a position
      gives that position back. */
  lemma IndexOfAt(table: seq<string>, i: nat)
    requires Distinct(table) && i < |table|
    ensures IndexOf(table, table[i]) == Some(i)
  {
  }

  /** A position holding `s` with no earlier occurrence is what indexOf
      finds. */
  lemma IndexOfFirst(table: seq<string>, s: string, i: nat)
    requires i < |table| && table[i] == s
    requires forall j :: 0 <= j < i ==> table[j] != s
    ensures IndexOf(table, s) == Some(i)
  {
  }
}

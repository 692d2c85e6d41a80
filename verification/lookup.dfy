/**
  The two catalogues, `dySTYLE_Properties` and `dySTYLE_Values`, and the
  hyphen-insensitive lookup both validators run against them.
 */
module Lookup {
  import opened Wrappers
  import opened Text

  /** The catalogues of canonical property names and keyword values. */
  datatype Tables = Tables(properties: seq<string>, values: seq<string>)

  /** `replace(/-+/g, '')`. */
  function Strip(s: string): string
  {
    Remove(s, '-')
  }

  function FindFrom(table: seq<string>, key: string, i: nat): (r: Option<nat>)
    requires i <= |table|
    ensures r.Some? ==> i <= r.value < |table| && Strip(table[r.value]) == key
    ensures r.Some? ==> forall j :: i <= j < r.value ==> Strip(table[j]) != key
    ensures r.None? ==> forall j :: i <= j < |table| ==> Strip(table[j]) != key
    decreases |table| - i
  {
    if i == |table| then None
    else if Strip(table[i]) == key then Some(i)
    else FindFrom(table, key, i + 1)
  }

  /**
    The first catalogue entry equal to `name` once hyphens are dropped from
    both (the `for … of` loop with `break`).
   */
  function Canonical(table: seq<string>, name: string): (r: Option<string>)
    ensures r.Some? <==> exists k :: 0 <= k < |table| && Strip(table[k]) == Strip(name)
    ensures r.Some? ==> exists k :: 0 <= k < |table| && table[k] == r.value && Strip(table[k]) == Strip(name)
  {
    match FindFrom(table, Strip(name), 0)
    case Some(k) => Some(table[k])
    case None => None
  }

  /** `table[k]` is the earliest entry equal to `name` up to hyphens. */
  predicate FirstMatchAt(table: seq<string>, name: string, k: int)
  {
    0 <= k < |table| && Strip(table[k]) == Strip(name) &&
    forall j :: 0 <= j < k ==> Strip(table[j]) != Strip(name)
  }

  /** The entry found is the earliest one that matches. */
  lemma CanonicalIsFirst(table: seq<string>, name: string, k: int)
    requires FirstMatchAt(table, name, k)
    ensures Canonical(table, name) == Some(table[k])
  {
  }

  /** Names that differ only in their hyphens find the same entry. */
  lemma CanonicalIgnoresHyphens(table: seq<string>, a: string, b: string)
    requires Strip(a) == Strip(b)
    ensures Canonical(table, a) == Canonical(table, b)
  {
  }
}

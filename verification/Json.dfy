/**
 * JSON values as the helper and its client use them: objects keep their members in insertion
 * order, and adding a key that is already there replaces its value.
 */
module Json {
  import opened Options

  type Members = seq<(string, Json)>

  datatype Json = JInt(n: int) | JString(s: string) | JObject(members: Members)

  function KeyIndex(m: Members, key: string): (r: nat)
    ensures r <= |m| && (r < |m| ==> m[r].0 == key)
    ensures forall i :: 0 <= i < r ==> m[i].0 != key
  {
    if m == [] || m[0].0 == key then 0 else 1 + KeyIndex(m[1..], key)
  }

  /** json_object_object_add. */
  function Add(m: Members, key: string, value: Json): Members {
    var k := KeyIndex(m, key);
    if k < |m| then m[k := (key, value)] else m + [(key, value)]
  }

  /** Additions in order. */
  function AddAll(m: Members, pairs: Members): Members
    decreases pairs
  {
    if pairs == [] then m else AddAll(Add(m, pairs[0].0, pairs[0].1), pairs[1..])
  }

  /** json_object_object_get; anything but an object has no members. */
  function Get(j: Json, key: string): Option<Json> {
    if j.JObject? && KeyIndex(j.members, key) < |j.members| then Some(j.members[KeyIndex(j.members, key)].1) else None
  }

  ghost predicate DistinctKeys(m: Members) {
    forall i, j :: 0 <= i < j < |m| ==> m[i].0 != m[j].0
  }

  lemma {:induction false} AddAllAppends(m: Members, pairs: Members)
    requires DistinctKeys(m + pairs)
    ensures AddAll(m, pairs) == m + pairs
    decreases pairs
  {
    if pairs != [] {
      assert (m + pairs)[|m|] == pairs[0];
      assert forall i :: 0 <= i < |m| ==> (m + pairs)[i] == m[i];
      assert Add(m, pairs[0].0, pairs[0].1) == m + [pairs[0]];
      assert (m + [pairs[0]]) + pairs[1..] == m + pairs;
      AddAllAppends(m + [pairs[0]], pairs[1..]);
    } else {
      assert m + pairs == m;
    }
  }

  /** Distinct keys go in one by one. */
  lemma AddAllDistinct(pairs: Members)
    requires DistinctKeys(pairs)
    ensures AddAll([], pairs) == pairs
  {
    assert [] + pairs == pairs;
    AddAllAppends([], pairs);
  }

  lemma {:induction false} AddAllLength(m: Members, pairs: Members)
    ensures |AddAll(m, pairs)| <= |m| + |pairs|
    decreases pairs
  {
    if pairs != [] { AddAllLength(Add(m, pairs[0].0, pairs[0].1), pairs[1..]); }
  }

  /** A key that is added twice, or is there already, makes the object shorter. */
  lemma {:induction false} AddAllCollides(m: Members, pairs: Members)
    requires !DistinctKeys(m + pairs) && DistinctKeys(m)
    ensures |AddAll(m, pairs)| < |m| + |pairs|
    decreases pairs
  {
    assert pairs == [] ==> m + pairs == m;
    var n := Add(m, pairs[0].0, pairs[0].1);
    if KeyIndex(m, pairs[0].0) < |m| {
      AddAllLength(n, pairs[1..]);
    } else {
      assert n + pairs[1..] == m + pairs;
      AddAllCollides(n, pairs[1..]);
    }
  }

  /** Looking up the member at position k of an object with distinct keys. */
  lemma GetAt(m: Members, k: nat)
    requires DistinctKeys(m) && k < |m|
    ensures Get(JObject(m), m[k].0) == Some(m[k].1)
  {
  }

  /** The value of the last pair with a key. */
  function LastValue(pairs: Members, key: string): Option<Json> {
    if pairs == [] then None
    else if pairs[|pairs| - 1].0 == key then Some(pairs[|pairs| - 1].1)
    else LastValue(pairs[..|pairs| - 1], key)
  }

  /** Under each key stands the value that was added last. */
  lemma {:induction false} LastAdded(pairs: Members, key: string)
    ensures Get(JObject(AddAll([], pairs)), key) == LastValue(pairs, key)
  {
    if pairs != [] {
      var most, last := pairs[..|pairs| - 1], pairs[|pairs| - 1];
      LastAdded(most, key);
      assert most + [last] == pairs;
      AddAllLast([], most, last);
      AddedIsFound(AddAll([], most), last.0, last.1, key);
    }
  }

  lemma {:induction false} AddAllLast(m: Members, pairs: Members, last: (string, Json))
    ensures AddAll(m, pairs + [last]) == Add(AddAll(m, pairs), last.0, last.1)
    decreases pairs
  {
    if pairs == [] {
      assert pairs + [last] == [last];
      assert [last][1..] == [];
    } else {
      assert (pairs + [last])[1..] == pairs[1..] + [last];
      AddAllLast(Add(m, pairs[0].0, pairs[0].1), pairs[1..], last);
    }
  }

  /** A key that is there keeps its place and takes the new value; the other keys keep theirs. */
  lemma AddedIsFound(m: Members, key: string, value: Json, other: string)
    ensures Get(JObject(Add(m, key, value)), other) == if other == key then Some(value) else Get(JObject(m), other)
    ensures forall i :: 0 <= i < |m| ==> i < |Add(m, key, value)| && Add(m, key, value)[i].0 == m[i].0
  {
    var n, k, l := Add(m, key, value), KeyIndex(m, key), KeyIndex(m, other);
    FirstAt(n, if other == key then k else if l < |m| then l else |n|, other);
  }

  /** The index of a key is where it stands first. */
  lemma FirstAt(m: Members, k: nat, key: string)
    requires k <= |m| && (k < |m| ==> m[k].0 == key) && forall i :: 0 <= i < k ==> m[i].0 != key
    ensures KeyIndex(m, key) == k
  {
  }
}

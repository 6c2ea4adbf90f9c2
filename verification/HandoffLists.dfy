/** Joining keyed lists: native client releases and the project catalog. */
module HandoffLists {
  import opened Outcomes

  /** The collation sorts compare with: total and transitive, not assumed to tell all keys apart. */
  ghost predicate Collation(le: (string, string) -> bool) {
    && (forall a, b :: le(a, b) || le(b, a))
    && (forall a, b, c :: le(a, b) && le(b, c) ==> le(a, c))
  }

  /** The map built by visiting `values` in order; `None` is a thrown error. */
  function Fold<V(==)>(values: seq<V>, keyOf: V -> Option<string>, resolve: (V, V) -> Option<V>)
    : Option<map<string, V>>
  {
    if values == [] then Some(map[])
    else
      var before := Fold(values[..|values| - 1], keyOf, resolve);
      if before.None? then None else Visit(before.value, values[|values| - 1], keyOf, resolve)
  }

  function Visit<V(==)>(m: map<string, V>, v: V, keyOf: V -> Option<string>, resolve: (V, V) -> Option<V>)
    : Option<map<string, V>>
  {
    var key := keyOf(v);
    if key.None? then None
    else if key.value !in m then Some(m[key.value := v])
    else if m[key.value] == v then Some(m)
    else
      var w := resolve(m[key.value], v);
      if w.None? then None else Some(m[key.value := w.value])
  }

  ghost predicate Distinct(keys: seq<string>) {
    forall i, j :: 0 <= i < j < |keys| ==> keys[i] != keys[j]
  }

  ghost predicate Sorted(keys: seq<string>, le: (string, string) -> bool) {
    forall i, j :: 0 <= i < j < |keys| ==> le(keys[i], keys[j])
  }

  /** `r` lists the values of `m` in key order. */
  ghost predicate Arranged<V>(keys: seq<string>, m: map<string, V>, le: (string, string) -> bool, r: seq<V>) {
    && |keys| == |r| && Distinct(keys) && Sorted(keys, le)
    && (forall k :: k in keys <==> k in m)
    && (forall i :: 0 <= i < |r| ==> r[i] == m[keys[i]])
  }

  lemma InsertionSorts(keys: seq<string>, p: nat, key: string, le: (string, string) -> bool)
    requires Collation(le) && Sorted(keys, le) && p <= |keys|
    requires p > 0 ==> le(keys[p - 1], key)
    requires forall i :: p <= i < |keys| ==> !le(keys[i], key)
    ensures Sorted(keys[..p] + [key] + keys[p..], le)
  {
    var r := keys[..p] + [key] + keys[p..];
    forall i, j | 0 <= i < j < |r| ensures le(r[i], r[j]) {
      if i < p && j == p && i < p - 1 {
        assert le(keys[i], keys[p - 1]);
      }
    }
  }

  /** A key put between the parts of a list is its only new member. */
  lemma InsertedMembers(keys: seq<string>, p: nat, key: string)
    requires p <= |keys|
    ensures forall k :: k in keys[..p] + [key] + keys[p..] <==> k in keys || k == key
  {
    assert keys == keys[..p] + keys[p..];
  }

  lemma InsertedIsDistinct(keys: seq<string>, p: nat, key: string)
    requires p <= |keys| && Distinct(keys) && key !in keys
    ensures Distinct(keys[..p] + [key] + keys[p..])
  {
    var r := keys[..p] + [key] + keys[p..];
    assert forall i :: 0 <= i < |r| ==> r[i] == if i < p then keys[i] else if i == p then key else keys[i - 1];
  }

  method Insert(keys: seq<string>, key: string, le: (string, string) -> bool) returns (r: seq<string>)
    requires Collation(le) && Sorted(keys, le) && Distinct(keys) && key !in keys
    ensures Sorted(r, le) && Distinct(r)
    ensures forall k :: k in r <==> k in keys || k == key
  {
    var p := |keys|;
    while p > 0 && !le(keys[p - 1], key)
      invariant 0 <= p <= |keys|
      invariant forall i :: p <= i < |keys| ==> !le(keys[i], key)
    {
      p := p - 1;
    }
    InsertionSorts(keys, p, key, le);
    InsertedMembers(keys, p, key);
    InsertedIsDistinct(keys, p, key);
    r := keys[..p] + [key] + keys[p..];
  }

  method SortedKeys<V>(m: map<string, V>, le: (string, string) -> bool) returns (keys: seq<string>)
    requires Collation(le)
    ensures Sorted(keys, le) && Distinct(keys)
    ensures forall k :: k in keys <==> k in m
  {
    keys := [];
    var rest := m.Keys;
    while rest != {}
      invariant rest <= m.Keys
      invariant Sorted(keys, le) && Distinct(keys)
      invariant forall k :: k in keys <==> k in m && k !in rest
      decreases |rest|
    {
      var k :| k in rest;
      rest := rest - {k};
      keys := Insert(keys, k, le);
    }
  }

  /** `mergeKeyedArrays`: the target's values first, then the source's; the result in key order. */
  method MergeKeyed<V(==)>(source: seq<V>, target: seq<V>, keyOf: V -> Option<string>,
                           resolve: (V, V) -> Option<V>, le: (string, string) -> bool)
    returns (r: Option<seq<V>>)
    requires Collation(le)
    ensures r.Some? <==> Fold(target + source, keyOf, resolve).Some?
    ensures r.Some? ==> exists keys :: Arranged(keys, Fold(target + source, keyOf, resolve).value, le, r.value)
  {
    var values := target + source;
    var merged: map<string, V> := map[];
    for i := 0 to |values|
      invariant Fold(values[..i], keyOf, resolve) == Some(merged)
    {
      assert values[..i + 1][..i] == values[..i];
      var next := Visit(merged, values[i], keyOf, resolve);
      if next.None? {
        FoldNoneSticks(values, i + 1, keyOf, resolve);
        return None;
      }
      merged := next.value;
    }
    assert values[..|values|] == values;
    var keys := SortedKeys(merged, le);
    var list: seq<V> := [];
    for i := 0 to |keys|
      invariant |list| == i && forall j :: 0 <= j < i ==> list[j] == merged[keys[j]]
    {
      list := list + [merged[keys[i]]];
    }
    assert Arranged(keys, merged, le, list);
    r := Some(list);
  }

  lemma {:induction false} FoldNoneSticks<V>(
    values: seq<V>, i: nat, keyOf: V -> Option<string>, resolve: (V, V) -> Option<V>)
    requires i <= |values| && Fold(values[..i], keyOf, resolve).None?
    ensures Fold(values, keyOf, resolve).None?
    decreases |values|
  {
    if i == |values| {
      assert values[..i] == values;
    } else {
      assert values[..|values| - 1][..i] == values[..i];
      FoldNoneSticks(values[..|values| - 1], i, keyOf, resolve);
    }
  }
}

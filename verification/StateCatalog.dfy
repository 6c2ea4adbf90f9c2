/** The release gate on persistent stores: when an update may still be rolled back. */
module StateCatalog {
  import opened Outcomes

  datatype StateClass = SecurityCritical | DurableCommand | RebuildableProjection | EphemeralUi

  datatype Store = Store(id: string, safety: StateClass, schema: nat)

  type Catalog = seq<Store>

  datatype ActivationMode = RollbackSafe | ForwardOnly

  predicate Protected(c: StateClass) { c == SecurityCritical || c == DurableCommand }

  /** Enforced on every signed release by its schema. */
  predicate DistinctIds(c: Catalog) {
    forall i, j :: 0 <= i < j < |c| ==> c[i].id != c[j].id
  }

  /** The release still declares store `c` of the running Gateway, in the same safety class. */
  ghost predicate Keeps(target: Catalog, c: Store) {
    exists n :: n in target && n.id == c.id && n.safety == c.safety
  }

  /** Store `n` of the release is protected and is not in use with that schema today. */
  ghost predicate Breaks(current: Catalog, n: Store) {
    Protected(n.safety) && forall c :: c in current && c.id == n.id ==> c.schema != n.schema
  }

  /** What the release gate promises: `None` rejects a release that drops or reclassifies a store;
      otherwise activation is forward-only exactly when a protected store is new or changes schema. */
  ghost function CatalogMode(current: Catalog, target: Catalog): Option<ActivationMode> {
    if exists c :: c in current && !Keeps(target, c) then None
    else if exists n :: n in target && Breaks(current, n) then Some(ForwardOnly)
    else Some(RollbackSafe)
  }

  method Find(c: Catalog, id: string) returns (r: Option<Store>)
    ensures r.Some? ==> r.value in c && r.value.id == id
    ensures r.None? ==> forall s :: s in c ==> s.id != id
  {
    for i := 0 to |c|
      invariant forall s :: s in c[..i] ==> s.id != id
    {
      if c[i].id == id { return Some(c[i]); }
    }
    return None;
  }

  lemma SameIdSameStore(c: Catalog, s: Store, t: Store)
    requires DistinctIds(c) && s in c && t in c && s.id == t.id
    ensures s == t
  {
    var i, j :| 0 <= i < |c| && 0 <= j < |c| && c[i] == s && c[j] == t;
  }

  /** The store of the release that is known by the ID of the store `c` in use. */
  lemma OnlyMatch(current: Catalog, target: Catalog, c: Store, next: Store)
    requires DistinctIds(current) && DistinctIds(target) && c in current && next in target && next.id == c.id
    ensures forall n :: n in target && n.id == c.id ==> n == next
    ensures forall d :: d in current && d.id == c.id ==> d == c
    ensures Keeps(target, c) <==> next.safety == c.safety
    ensures next.safety == c.safety ==> (Breaks(current, next) <==> Protected(c.safety) && next.schema != c.schema)
  {
    forall n | n in target && n.id == c.id ensures n == next { SameIdSameStore(target, n, next); }
    forall d | d in current && d.id == c.id ensures d == c { SameIdSameStore(current, d, c); }
  }

  /** Some of the stores in use is broken by its counterpart in the release. */
  ghost predicate Changed(current: Catalog, target: Catalog, some: Catalog) {
    exists n :: n in target && Breaks(current, n) && exists c :: c in some && c.id == n.id
  }

  lemma OneMoreChecked(current: Catalog, target: Catalog, i: nat, next: Store)
    requires DistinctIds(current) && DistinctIds(target) && i < |current|
    requires next in target && next.id == current[i].id
    ensures Changed(current, target, current[..i + 1])
      <==> Changed(current, target, current[..i]) || Breaks(current, next)
  {
    assert current[..i + 1] == current[..i] + [current[i]];
    OnlyMatch(current, target, current[i], next);
    if Breaks(current, next) { assert current[i] in current[..i + 1]; }
  }

  /** The pass over the stores in use. */
  method ChangedStores(current: Catalog, target: Catalog) returns (ok: bool, changes: seq<string>)
    requires DistinctIds(current) && DistinctIds(target)
    ensures ok <==> forall c :: c in current ==> Keeps(target, c)
    ensures ok ==> (changes != [] <==> Changed(current, target, current))
  {
    changes := [];
    for i := 0 to |current|
      invariant forall c :: c in current[..i] ==> Keeps(target, c)
      invariant changes != [] <==> Changed(current, target, current[..i])
    {
      var c := current[i];
      var next := Find(target, c.id);
      if next.None? {
        assert !Keeps(target, c);
        return false, changes;
      }
      OnlyMatch(current, target, c, next.value);
      if next.value.safety != c.safety { return false, changes; }
      OneMoreChecked(current, target, i, next.value);
      if Protected(c.safety) && next.value.schema != c.schema { changes := changes + [c.id]; }
    }
    assert current[..|current|] == current;
    ok := true;
  }

  /** `gatewayStateActivation`: one pass over the stores in use, one over the release's new stores. */
  method StateActivation(current: Catalog, target: Catalog)
    returns (mode: Option<ActivationMode>, changes: seq<string>)
    requires DistinctIds(current) && DistinctIds(target)
    ensures mode == CatalogMode(current, target)
    ensures mode.Some? ==> (changes != [] <==> mode.value == ForwardOnly)
  {
    var ok;
    ok, changes := ChangedStores(current, target);
    if !ok { return None, changes; }
    for i := 0 to |target|
      invariant changes != [] <==>
                exists n :: n in target && Breaks(current, n)
                            && (n in target[..i] || exists c :: c in current && c.id == n.id)
    {
      var known := Find(current, target[i].id);
      if known.None? && Protected(target[i].safety) {
        changes := changes + [target[i].id];
        assert Breaks(current, target[i]) && target[i] in target[..i + 1];
      }
      assert target[..i + 1] == target[..i] + [target[i]];
    }
    mode := Some(if changes != [] then ForwardOnly else RollbackSafe);
  }
}

/** Joining two Gateways' stores: record stores, inboxes, replay claims and keyed lists. JSON
    equality (equal canonical texts) is value equality here. */
module HandoffStores {
  import opened Outcomes

  // ---------------------------------------------------------------------------
  // Records: the join of two maps in the extension order
  // ---------------------------------------------------------------------------

  /** `b` extends `a`. */
  ghost predicate Within<V>(a: map<string, V>, b: map<string, V>) {
    forall k :: k in a ==> k in b && b[k] == a[k]
  }

  ghost predicate Agree<V>(a: map<string, V>, b: map<string, V>) {
    forall k :: k in a && k in b ==> a[k] == b[k]
  }

  /** `m` is the least map extending both `a` and `b`. */
  ghost predicate IsJoin<V(!new)>(a: map<string, V>, b: map<string, V>, m: map<string, V>) {
    && Within(a, m) && Within(b, m)
    && forall n :: Within(a, n) && Within(b, n) ==> Within(m, n)
  }

  /** Two records have a common extension exactly when they agree, and then a least one. */
  lemma AgreeMeansBounded<V(!new)>(a: map<string, V>, b: map<string, V>)
    ensures Agree(a, b) <==> exists m :: Within(a, m) && Within(b, m)
    ensures Agree(a, b) ==> IsJoin(a, b, a + b)
  {
    if Agree(a, b) {
      assert Within(a, a + b) && Within(b, a + b);
    }
  }

  /** `mergeRecords`: start from the target, add the source's entries, stop at the first conflict. */
  method MergeRecords<V(==, !new)>(source: map<string, V>, target: map<string, V>) returns (r: Option<map<string, V>>)
    ensures r.Some? <==> exists m :: Within(source, m) && Within(target, m)
    ensures r.Some? ==> IsJoin(source, target, r.value) && r.value == source + target
  {
    AgreeMeansBounded(source, target);
    var merged := target;
    var keys := KeysOf(source);
    for i := 0 to |keys|
      invariant forall k :: k in merged <==> k in target || k in keys[..i]
      invariant forall k :: k in target ==> merged[k] == target[k]
      invariant forall k :: k in keys[..i] ==> merged[k] == source[k]
    {
      var k := keys[i];
      if k in merged && merged[k] != source[k] {
        assert !Agree(source, target);
        return None;
      }
      merged := merged[k := source[k]];
      assert keys[..i + 1] == keys[..i] + [k];
    }
    assert keys[..|keys|] == keys;
    assert merged == source + target;
    r := Some(merged);
  }

  // ---------------------------------------------------------------------------
  // Inboxes: a fold of joins that no order can change
  // ---------------------------------------------------------------------------

  datatype InboxFile<V> = Missing | Unsupported | Inbox(records: map<string, V>)

  const INBOX_LIMIT := 10_000

  ghost predicate Bounds<V>(files: seq<InboxFile<V>>, m: map<string, V>) {
    forall f :: f in files && f.Inbox? ==> Within(f.records, m)
  }

  ghost predicate LeastBound<V(!new)>(files: seq<InboxFile<V>>, m: map<string, V>) {
    Bounds(files, m) && forall n :: Bounds(files, n) ==> Within(m, n)
  }

  /** What merging the inbox files may return. */
  ghost predicate InboxOutcome<V(!new)>(files: seq<InboxFile<V>>, r: Option<map<string, V>>) {
    match r
    case Some(m) => Unsupported !in files && LeastBound(files, m) && |m| <= INBOX_LIMIT
    case None =>
      || Unsupported in files
      || (forall m :: !Bounds(files, m))
      || exists m :: LeastBound(files, m) && |m| > INBOX_LIMIT
  }

  method MergeInboxFiles<V(==, !new)>(files: seq<InboxFile<V>>) returns (r: Option<map<string, V>>)
    ensures InboxOutcome(files, r)
  {
    var records: map<string, V> := map[];
    for i := 0 to |files|
      invariant Unsupported !in files[..i]
      invariant LeastBound(files[..i], records)
    {
      assert files[..i + 1] == files[..i] + [files[i]];
      match files[i] {
        case Missing =>
          assert forall n :: Bounds(files[..i + 1], n) <==> Bounds(files[..i], n);
        case Unsupported => return None;
        case Inbox(next) =>
          assert forall n :: Bounds(files[..i + 1], n) <==> Bounds(files[..i], n) && Within(next, n);
          var joined := MergeRecords(records, next);
          if joined.None? {
            assert forall m :: Bounds(files, m) ==> Bounds(files[..i + 1], m);
            return None;
          }
          records := joined.value;
      }
    }
    assert files[..|files|] == files;
    if |records| > INBOX_LIMIT { return None; }
    r := Some(records);
  }

  /** The outcome depends only on which files there are: not on their order nor on repetitions. */
  lemma InboxOrderIrrelevant<V(!new)>(
    files: seq<InboxFile<V>>, r: Option<map<string, V>>, files': seq<InboxFile<V>>, r': Option<map<string, V>>)
    requires InboxOutcome(files, r) && InboxOutcome(files', r')
    requires forall f :: f in files <==> f in files'
    ensures r == r'
  {
    assert forall m :: Bounds(files, m) <==> Bounds(files', m);
    forall m, n | LeastBound(files, m) && LeastBound(files', n) ensures m == n {
      assert Within(m, n) && Within(n, m);
      assert m.Keys == n.Keys;
    }
  }

  // ---------------------------------------------------------------------------
  // Replay claims: pointwise maximum
  // ---------------------------------------------------------------------------

  const MAX_SAFE_INTEGER: int := 9007199254740991

  /** A claim as stored: an integer-valued number, or any other JSON value. */
  datatype Claim = Number(n: int) | Other

  predicate ClaimOk(c: Claim) { c.Number? && 0 <= c.n <= MAX_SAFE_INTEGER }

  ghost predicate ClaimsOk(c: map<string, Claim>) { forall k :: k in c ==> ClaimOk(c[k]) }

  /** Every claim of `a` is honoured by `b`. */
  ghost predicate Honours(a: map<string, Claim>, b: map<string, nat>) {
    forall k :: k in a && a[k].Number? ==> k in b && a[k].n <= b[k]
  }

  /** `m` honours both stores, and no claim in it could be lower. */
  ghost predicate IsMaximum(a: map<string, Claim>, b: map<string, Claim>, m: map<string, nat>) {
    && Honours(a, m) && Honours(b, m)
    && forall other :: Honours(a, other) && Honours(b, other) ==> forall k :: k in m ==> k in other && m[k] <= other[k]
  }

  /** `n` is the greatest of the (at most two) claims stored for `k`. */
  ghost predicate MaxAt(a: map<string, Claim>, b: map<string, Claim>, k: string, n: nat) {
    && (k in a ==> ClaimOk(a[k]) && a[k].n <= n)
    && (k in b ==> ClaimOk(b[k]) && b[k].n <= n)
    && ((k in a && n == a[k].n) || (k in b && n == b[k].n))
  }

  lemma PointwiseMaximum(a: map<string, Claim>, b: map<string, Claim>, m: map<string, nat>)
    requires m.Keys == a.Keys + b.Keys
    requires forall k :: k in m ==> MaxAt(a, b, k, m[k])
    ensures IsMaximum(a, b, m) && ClaimsOk(a) && ClaimsOk(b)
  {
    forall k | k in a ensures ClaimOk(a[k]) && a[k].n <= m[k] { assert k in m; }
    forall k | k in b ensures ClaimOk(b[k]) && b[k].n <= m[k] { assert k in m; }
  }

  datatype ReplayStore = ReplayStore(version: int, claims: map<string, Claim>)

  datatype ReplayOutcome = Untouched | Rejected | Written(claims: map<string, nat>)

  method MergeClaims(left: map<string, Claim>, right: map<string, Claim>) returns (r: Option<map<string, nat>>)
    ensures r.Some? <==> ClaimsOk(left) && ClaimsOk(right)
    ensures r.Some? ==> IsMaximum(left, right, r.value) && r.value.Keys == left.Keys + right.Keys
  {
    var claims: map<string, nat> := map[];
    var keys := KeysOf(left + right);
    for i := 0 to |keys|
      invariant forall k :: k in claims <==> k in keys[..i]
      invariant forall k :: k in keys[..i] ==> MaxAt(left, right, k, claims[k])
    {
      var k := keys[i];
      if k in left && !ClaimOk(left[k]) { return None; }
      if k in right && !ClaimOk(right[k]) { return None; }
      var l := if k in left then left[k].n else 0;
      var r := if k in right then right[k].n else 0;
      var greatest := if l >= r then l else r;
      assert k in left + right && MaxAt(left, right, k, greatest);
      claims := claims[k := greatest];
      assert keys[..i + 1] == keys[..i] + [k];
    }
    assert keys[..|keys|] == keys;
    PointwiseMaximum(left, right, claims);
    r := Some(claims);
  }

  /** `mergeReplayStores`: no source leaves the target alone, no target counts as empty. */
  method MergeReplayStores(source: Option<ReplayStore>, target: Option<ReplayStore>) returns (r: ReplayOutcome)
    ensures r.Untouched? <==> source.None?
    ensures r.Written? <==>
            && source.Some? && source.value.version == 1 && ClaimsOk(source.value.claims)
            && (target.Some? ==> target.value.version == 1 && ClaimsOk(target.value.claims))
    ensures r.Written? ==>
              IsMaximum(source.value.claims, if target.Some? then target.value.claims else map[], r.claims)
  {
    if source.None? { return Untouched; }
    if source.value.version != 1 || (target.Some? && target.value.version != 1) { return Rejected; }
    var merged := MergeClaims(source.value.claims, if target.Some? then target.value.claims else map[]);
    r := if merged.Some? then Written(merged.value) else Rejected;
  }

  // ---------------------------------------------------------------------------
  // Records that carry their update time: the later one wins
  // ---------------------------------------------------------------------------

  /** A subscription record; `updatedAt` is its time if that is a safe integer. */
  datatype Stamped = Stamped(updatedAt: Option<int>, body: string)

  /** A shared key that cannot be resolved by time. */
  ghost predicate Unresolvable(a: map<string, Stamped>, b: map<string, Stamped>, k: string) {
    && k in a && k in b
    && (a[k].updatedAt.None? || b[k].updatedAt.None? || (a[k].updatedAt == b[k].updatedAt && a[k] != b[k]))
  }

  /** `v` is one of the stored versions of key `k`, and no stored version is later. */
  ghost predicate Latest(a: map<string, Stamped>, b: map<string, Stamped>, k: string, v: Stamped) {
    && ((k in a && v == a[k]) || (k in b && v == b[k]))
    && (k in a && k in b ==>
          && v.updatedAt.Some? && a[k].updatedAt.Some? && b[k].updatedAt.Some?
          && a[k].updatedAt.value <= v.updatedAt.value && b[k].updatedAt.value <= v.updatedAt.value)
  }

  method MergeLatestUpdated(source: map<string, Stamped>, target: map<string, Stamped>)
    returns (r: Option<map<string, Stamped>>)
    ensures r.None? <==> exists k :: Unresolvable(source, target, k)
    ensures r.Some? ==> r.value.Keys == source.Keys + target.Keys
    ensures r.Some? ==> forall k :: k in r.value ==> Latest(source, target, k, r.value[k])
  {
    var merged := target;
    var keys := KeysOf(source);
    for i := 0 to |keys|
      invariant forall k :: k in merged <==> k in target || k in keys[..i]
      invariant forall k :: k in target && k !in keys[..i] ==> merged[k] == target[k]
      invariant forall k :: k in keys[..i] ==> !Unresolvable(source, target, k) && Latest(source, target, k, merged[k])
    {
      var k := keys[i];
      assert keys[..i + 1] == keys[..i] + [k];
      if k !in merged {
        merged := merged[k := source[k]];
        continue;
      }
      var left, right := source[k], merged[k];
      if left.updatedAt.None? || right.updatedAt.None? || (left.updatedAt == right.updatedAt && left != right) {
        assert Unresolvable(source, target, k);
        return None;
      }
      if left.updatedAt.value > right.updatedAt.value { merged := merged[k := left]; }
    }
    assert keys[..|keys|] == keys;
    r := Some(merged);
  }
}

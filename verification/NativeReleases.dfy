/** The catalogs of native client releases, merged: which release is kept for each key. */
module NativeReleases {
  import opened Outcomes
  import opened HandoffLists

  /** `code` is the numeric version code, `None` when it does not convert to a number. */
  datatype NativeRelease = NativeRelease(
    platform: string, channel: string, architecture: string, code: Option<int>, body: string)

  type Key = NativeRelease -> Option<string>

  function ReleaseKey(r: NativeRelease): Option<string> {
    if r.platform == "" || r.channel == "" || r.architecture == "" then None
    else Some(r.platform + "\0" + r.channel + "\0" + r.architecture)
  }

  /** A release is bound by its platform, channel and architecture. */
  ghost predicate SameBinding(a: NativeRelease, b: NativeRelease) {
    a.platform == b.platform && a.channel == b.channel && a.architecture == b.architecture
  }

  lemma JoinSplits(a: string, x: string, b: string, y: string)
    requires '\0' !in a && '\0' !in b && a + "\0" + x == b + "\0" + y
    ensures a == b && x == y
  {
    var s, t := a + "\0" + x, b + "\0" + y;
    assert s[|a|] == '\0' && t[|b|] == '\0';
    assert forall i :: 0 <= i < |a| ==> s[i] == a[i];
    assert forall i :: 0 <= i < |b| ==> t[i] == b[i];
    assert |a| == |b|;
    assert s[..|a|] == a && t[..|b|] == b && s[|a| + 1..] == x && t[|b| + 1..] == y;
  }

  /** The key stands for the binding: two releases share one exactly when they are bound alike, as long
      as no platform and no channel holds the separator. */
  lemma KeyIsTheBinding(a: NativeRelease, b: NativeRelease)
    requires '\0' !in a.platform + a.channel && '\0' !in b.platform + b.channel
    ensures ReleaseKey(a).Some? <==> a.platform != "" && a.channel != "" && a.architecture != ""
    ensures ReleaseKey(a).Some? ==> (ReleaseKey(a) == ReleaseKey(b) <==> SameBinding(a, b))
  {
    assert forall c :: c in a.platform || c in a.channel ==> c in a.platform + a.channel;
    assert forall c :: c in b.platform || c in b.channel ==> c in b.platform + b.channel;
    if ReleaseKey(a).Some? && ReleaseKey(a) == ReleaseKey(b) {
      var x, y := a.channel + "\0" + a.architecture, b.channel + "\0" + b.architecture;
      assert a.platform + "\0" + x == ReleaseKey(a).value && b.platform + "\0" + y == ReleaseKey(b).value;
      JoinSplits(a.platform, x, b.platform, y);
      JoinSplits(a.channel, a.architecture, b.channel, b.architecture);
    }
  }

  /** With the separator in a part, releases bound differently take each other's place. */
  lemma SeparatorConfusesKeys()
    ensures exists a, b :: ReleaseKey(a).Some? && ReleaseKey(a) == ReleaseKey(b) && !SameBinding(a, b)
  {
    var a, b := NativeRelease("p\0q", "c", "a", None, ""), NativeRelease("p", "q\0c", "a", None, "");
    assert ReleaseKey(a).value == "p\0q\0c\0a" == ReleaseKey(b).value;
  }

  function Newer(left: NativeRelease, right: NativeRelease): Option<NativeRelease> {
    if left.code.Some? && left.code == right.code && left != right then None
    else if left.code.Some? && right.code.Some? && left.code.value > right.code.value then Some(left)
    else Some(right)
  }

  // ---------------------------------------------------------------------------
  // The winner of a key
  // ---------------------------------------------------------------------------

  ghost predicate Same(values: seq<NativeRelease>, key: Key, i: int, j: int) {
    0 <= i < |values| && 0 <= j < |values| && key(values[i]) == key(values[j])
  }

  /** `a` is numerically below `b`, or the very same release. */
  ghost predicate AtMost(a: NativeRelease, b: NativeRelease) {
    a.code.Some? && b.code.Some? && (a.code.value < b.code.value || a == b)
  }

  /** A release without a numeric code stands at `t`, among those of the key of `w`. */
  ghost predicate Unordered(values: seq<NativeRelease>, key: Key, t: int, w: int) {
    Same(values, key, t, w) && values[t].code.None?
  }

  ghost predicate CutOff(values: seq<NativeRelease>, key: Key, j: int, w: int) {
    exists t :: j <= t <= w && Unordered(values, key, t, w)
  }

  /** The release at `w` outranks every later one of its key, and every earlier one that is not cut
      off from it by a release without a number. */
  ghost predicate Wins(values: seq<NativeRelease>, key: Key, w: int) {
    && 0 <= w < |values|
    && (forall j :: w < j < |values| && Same(values, key, j, w) ==> AtMost(values[j], values[w]))
    && (forall j :: 0 <= j < w && Same(values, key, j, w) ==> AtMost(values[j], values[w]) || CutOff(values, key, j, w))
  }

  lemma CutOffLater(values: seq<NativeRelease>, key: Key, j: int, w: int, n: int)
    requires w < n < |values| && 0 <= n && CutOff(values[..n], key, j, w)
    ensures CutOff(values, key, j, w)
    ensures Same(values, key, w, n) ==> CutOff(values, key, j, n)
  {
    var t :| j <= t <= w && Unordered(values[..n], key, t, w);
    assert Unordered(values, key, t, w);
    assert Same(values, key, w, n) ==> Unordered(values, key, t, n);
  }

  lemma StillWins(values: seq<NativeRelease>, key: Key, w: int)
    requires values != [] && Wins(values[..|values| - 1], key, w)
    requires key(values[w]) == key(values[|values| - 1]) ==> AtMost(values[|values| - 1], values[w])
    ensures Wins(values, key, w)
  {
    var n := |values| - 1;
    forall j | 0 <= j < w && Same(values, key, j, w)
      ensures AtMost(values[j], values[w]) || CutOff(values, key, j, w)
    {
      assert Same(values[..n], key, j, w);
      if !AtMost(values[j], values[w]) { CutOffLater(values, key, j, w, n); }
    }
    forall j | w < j < |values| && Same(values, key, j, w) ensures AtMost(values[j], values[w]) {
      if j < n { assert Same(values[..n], key, j, w); }
    }
  }

  lemma LastWins(values: seq<NativeRelease>, key: Key, w: int)
    requires values != [] && Wins(values[..|values| - 1], key, w)
    requires Same(values, key, w, |values| - 1)
    requires values[w].code.None? || values[|values| - 1].code.None? || AtMost(values[w], values[|values| - 1])
    ensures Wins(values, key, |values| - 1)
  {
    var n := |values| - 1;
    var init := values[..n];
    forall j | 0 <= j < n && Same(values, key, j, n) ensures AtMost(values[j], values[n]) || CutOff(values, key, j, n) {
      assert Same(init, key, j, w);
      if values[n].code.None? {
        assert Unordered(values, key, n, n);
      } else if values[w].code.None? {
        assert Unordered(values, key, w, n);
      } else if j < w && !AtMost(values[j], values[w]) {
        CutOffLater(values, key, j, w, n);
      } else {
        assert j == w || AtMost(init[j], init[w]);
      }
    }
  }

  lemma WinnersAgree(values: seq<NativeRelease>, key: Key, v: int, w: int)
    requires Wins(values, key, v) && Wins(values, key, w) && Same(values, key, v, w)
    ensures values[v] == values[w]
    decreases v > w
  {
    if v < w {
      assert AtMost(values[w], values[v]);
      forall t | v <= t <= w ensures !Unordered(values, key, t, w) {
        if Same(values, key, t, w) { assert Same(values, key, t, v); }
      }
    } else if w < v {
      WinnersAgree(values, key, w, v);
    }
  }

  ghost predicate WonBy(values: seq<NativeRelease>, key: Key, k: string, kept: NativeRelease, w: int) {
    Wins(values, key, w) && values[w] == kept && key(values[w]) == Some(k)
  }

  /** What the merge keeps for a key, on every input: its winner. */
  lemma {:induction false} FoldKeepsTheWinner(values: seq<NativeRelease>, key: Key)
    requires Fold(values, key, Newer).Some?
    ensures var m := Fold(values, key, Newer).value;
      && (forall v :: v in values ==> key(v).Some? && key(v).value in m)
      && (forall k :: k in m ==> exists w :: WonBy(values, key, k, m[k], w))
    decreases |values|
  {
    if values != [] {
      var n := |values| - 1;
      var init, last := values[..n], values[n];
      assert values == init + [last];
      FoldKeepsTheWinner(init, key);
      var before := Fold(init, key, Newer).value;
      var m := Fold(values, key, Newer).value;
      forall k | k in m ensures exists w :: WonBy(values, key, k, m[k], w) {
        if k in before {
          var w :| WonBy(init, key, k, before[k], w);
          WinnerAfter(values, key, w, k, before, m);
        } else {
          forall j | 0 <= j < n ensures !Same(values, key, j, n) { assert init[j] in init; }
          assert WonBy(values, key, k, m[k], n);
        }
      }
    }
  }

  lemma WinnerAfter(
    values: seq<NativeRelease>, key: Key, w: int, k: string, before: map<string, NativeRelease>,
    m: map<string, NativeRelease>)
    requires values != [] && k in before && WonBy(values[..|values| - 1], key, k, before[k], w)
    requires Visit(before, values[|values| - 1], key, Newer) == Some(m) && k in m
    ensures exists w' :: WonBy(values, key, k, m[k], w')
  {
    var n := |values| - 1;
    if key(values[n]) != Some(k) || (m[k] == before[k] && AtMost(values[n], values[w])) {
      StillWins(values, key, w);
      assert WonBy(values, key, k, m[k], w);
    } else {
      LastWins(values, key, w);
      assert WonBy(values, key, k, m[k], n);
    }
  }

  // ---------------------------------------------------------------------------
  // When the merge fails
  // ---------------------------------------------------------------------------

  /** The release at `j` meets a winner of its key with its version code that is not the same release. */
  ghost predicate Collides(values: seq<NativeRelease>, key: Key, j: int, w: int) {
    && 0 <= j < |values| && Wins(values[..j], key, w) && Same(values, key, w, j)
    && values[w].code.Some? && values[w].code == values[j].code && values[w] != values[j]
  }

  /** The release at `j` is refused where it comes in: it is unbound, or it collides. */
  ghost predicate Refused(values: seq<NativeRelease>, key: Key, j: int) {
    0 <= j < |values| && (key(values[j]).None? || exists w :: Collides(values, key, j, w))
  }

  lemma RefusedInPrefix(values: seq<NativeRelease>, key: Key, n: nat, j: int)
    requires 0 <= j < n <= |values|
    ensures Refused(values[..n], key, j) <==> Refused(values, key, j)
  {
    var init := values[..n];
    assert init[..j] == values[..j];
    assert forall w :: Collides(init, key, j, w) <==> Collides(values, key, j, w);
  }

  lemma LastIsRefusedExactly(values: seq<NativeRelease>, key: Key)
    requires values != [] && Fold(values[..|values| - 1], key, Newer).Some?
    ensures Fold(values, key, Newer).None? <==> Refused(values, key, |values| - 1)
  {
    var n := |values| - 1;
    var init, last := values[..n], values[n];
    FoldKeepsTheWinner(init, key);
    var before := Fold(init, key, Newer).value;
    if key(last).Some? && key(last).value in before {
      var w :| WonBy(init, key, key(last).value, before[key(last).value], w);
      forall v | Collides(values, key, n, v) ensures values[v] == values[w] {
        assert Same(init, key, v, w);
        WinnersAgree(init, key, v, w);
      }
      assert Same(values, key, w, n);
      assert Newer(values[w], last).None? ==> Collides(values, key, n, w);
    } else if key(last).Some? {
      forall w | 0 <= w < n ensures !Same(values, key, w, n) { assert init[w] in init; }
    }
  }

  /** The merge fails exactly when some release is refused where it comes in. */
  lemma {:induction false} FoldFailsExactly(values: seq<NativeRelease>, key: Key)
    ensures Fold(values, key, Newer).None? <==> exists j :: Refused(values, key, j)
    decreases |values|
  {
    if values != [] {
      var n := |values| - 1;
      var init := values[..n];
      FoldFailsExactly(init, key);
      forall j | 0 <= j < n ensures Refused(init, key, j) <==> Refused(values, key, j) {
        RefusedInPrefix(values, key, n, j);
      }
      if Fold(init, key, Newer).Some? {
        LastIsRefusedExactly(values, key);
      } else {
        var j :| Refused(init, key, j);
        assert Refused(values, key, j);
      }
    }
  }

  // ---------------------------------------------------------------------------
  // When the greatest version code is kept
  // ---------------------------------------------------------------------------

  /** A numbered release at `j` is followed by one without a number at `t`, and none after that
      reaches it. */
  ghost predicate LostAt(values: seq<NativeRelease>, key: Key, k: string, j: int, t: int) {
    && j < t && Same(values, key, j, t) && key(values[j]) == Some(k) && values[j].code.Some? && values[t].code.None?
    && (forall i :: t < i < |values| && Same(values, key, i, t) && values[i].code.Some? ==>
          values[i].code.value < values[j].code.value)
  }

  ghost predicate Lost(values: seq<NativeRelease>, key: Key, k: string) {
    exists j, t :: LostAt(values, key, k, j, t)
  }

  ghost predicate KeepsGreatest(values: seq<NativeRelease>, key: Key, k: string, kept: NativeRelease) {
    forall i :: 0 <= i < |values| && key(values[i]) == Some(k) && values[i].code.Some? ==>
      kept.code.Some? && values[i].code.value <= kept.code.value
  }

  /** All releases of the key are numbered. */
  ghost predicate Numeric(values: seq<NativeRelease>, key: Key, k: string) {
    forall i :: 0 <= i < |values| && key(values[i]) == Some(k) ==> values[i].code.Some?
  }

  lemma {:induction false} LastUnordered(values: seq<NativeRelease>, key: Key, t: int, w: int) returns (last: int)
    requires t <= w && Unordered(values, key, t, w)
    ensures t <= last <= w && Unordered(values, key, last, w)
    ensures forall i :: last < i <= w ==> !Unordered(values, key, i, w)
    decreases w - t
  {
    if i :| t < i <= w && Unordered(values, key, i, w) {
      last := LastUnordered(values, key, i, w);
    } else {
      last := t;
    }
  }

  lemma LostIsNotKept(values: seq<NativeRelease>, key: Key, w: int, k: string, j: int, t: int)
    requires Wins(values, key, w) && key(values[w]) == Some(k) && LostAt(values, key, k, j, t)
    ensures !KeepsGreatest(values, key, k, values[w])
  {
    assert Same(values, key, t, w) && Same(values, key, w, t);
  }

  lemma BeatenIsLost(values: seq<NativeRelease>, key: Key, w: int, k: string, j: int)
    requires Wins(values, key, w) && key(values[w]) == Some(k) && Same(values, key, j, w) && values[j].code.Some?
    requires !(values[w].code.Some? && values[j].code.value <= values[w].code.value)
    ensures Lost(values, key, k)
  {
    assert !AtMost(values[j], values[w]) && j < w;
    var t :| j <= t <= w && Unordered(values, key, t, w);
    var last := LastUnordered(values, key, t, w);
    forall i | last < i < |values| && Same(values, key, i, last) && values[i].code.Some?
      ensures values[i].code.value < values[j].code.value
    {
      assert Same(values, key, i, w);
      assert i != w ==> AtMost(values[i], values[w]) || CutOff(values, key, i, w);
      assert !CutOff(values, key, i, w);
    }
    assert LostAt(values, key, k, j, last);
  }

  /** For each key the merge keeps the greatest version code exactly when none is cut off for good by
      a release whose code is not a number. */
  lemma GreatestKeptExactly(values: seq<NativeRelease>, key: Key, k: string, kept: NativeRelease)
    requires exists w :: WonBy(values, key, k, kept, w)
    ensures KeepsGreatest(values, key, k, kept) <==> !Lost(values, key, k)
  {
    var w :| WonBy(values, key, k, kept, w);
    if Lost(values, key, k) {
      var j, t :| LostAt(values, key, k, j, t);
      LostIsNotKept(values, key, w, k, j, t);
    }
    if !KeepsGreatest(values, key, k, kept) {
      var j :| 0 <= j < |values| && key(values[j]) == Some(k) && values[j].code.Some?
        && !(kept.code.Some? && values[j].code.value <= kept.code.value);
      BeatenIsLost(values, key, w, k, j);
    }
  }

  /** With numbers throughout, the kept release is the only one with the greatest code. */
  lemma NumericWinnerIsUnique(values: seq<NativeRelease>, key: Key, k: string, kept: NativeRelease, i: nat)
    requires exists w :: WonBy(values, key, k, kept, w)
    requires Numeric(values, key, k) && i < |values| && key(values[i]) == Some(k)
    ensures AtMost(values[i], kept)
  {
    var w :| WonBy(values, key, k, kept, w);
    assert Same(values, key, i, w);
    assert !CutOff(values, key, i, w);
  }

  /** A version code that is not a number defeats the comparison: release 3 replaces release 5. */
  lemma NonNumericCodeLosesGreatest()
    ensures exists values, r: NativeRelease :: Fold(values, ReleaseKey, Newer).Some?
              && r in values && r.code == Some(5) && ReleaseKey(r).Some?
              && ReleaseKey(r).value in Fold(values, ReleaseKey, Newer).value
              && Fold(values, ReleaseKey, Newer).value[ReleaseKey(r).value].code == Some(3)
  {
    var a := NativeRelease("p", "c", "a", Some(5), "");
    var b := NativeRelease("p", "c", "a", None, "");
    var c := NativeRelease("p", "c", "a", Some(3), "");
    var values := [a, b, c];
    assert values[..2] == [a, b] && [a, b][..1] == [a] && [a][..0] == [];
    var m0: map<string, NativeRelease> := map[];
    assert Fold([a][..0], ReleaseKey, Newer) == Some(m0);
    assert Fold([a], ReleaseKey, Newer) == Visit(m0, a, ReleaseKey, Newer);
    assert Fold([a, b], ReleaseKey, Newer).Some?;
    assert Fold(values, ReleaseKey, Newer).Some?;
    assert a in values;
  }

  // ---------------------------------------------------------------------------
  // The merge
  // ---------------------------------------------------------------------------

  /** The winner of its key, with the greatest version code exactly when that was not lost. */
  ghost predicate IsKept(values: seq<NativeRelease>, key: Key, k: string, kept: NativeRelease) {
    && (exists w :: WonBy(values, key, k, kept, w))
    && (KeepsGreatest(values, key, k, kept) <==> !Lost(values, key, k))
  }

  /** One release per key, in key order: for each key of the input its winner, which has the greatest
      version code exactly when that was not lost. */
  ghost predicate MergedReleases(
    values: seq<NativeRelease>, key: Key, le: (string, string) -> bool, r: seq<NativeRelease>)
  {
    && (forall v :: v in values ==> key(v).Some? && exists i :: 0 <= i < |r| && key(r[i]) == key(v))
    && (forall i :: 0 <= i < |r| ==> key(r[i]).Some? && IsKept(values, key, key(r[i]).value, r[i]))
    && (forall i, j :: 0 <= i < j < |r| ==> key(r[i]) != key(r[j]) && le(key(r[i]).value, key(r[j]).value))
  }

  lemma ArrangedReleases(
    values: seq<NativeRelease>, key: Key, le: (string, string) -> bool, keys: seq<string>, r: seq<NativeRelease>)
    requires Fold(values, key, Newer).Some?
    requires Arranged(keys, Fold(values, key, Newer).value, le, r)
    ensures MergedReleases(values, key, le, r)
  {
    var m := Fold(values, key, Newer).value;
    FoldKeepsTheWinner(values, key);
    forall i | 0 <= i < |r| ensures key(r[i]) == Some(keys[i]) && IsKept(values, key, keys[i], r[i]) {
      assert keys[i] in m;
      GreatestKeptExactly(values, key, keys[i], r[i]);
    }
    forall v | v in values ensures exists i :: 0 <= i < |r| && key(r[i]) == key(v) {
      var i :| 0 <= i < |keys| && keys[i] == key(v).value;
      assert key(r[i]) == key(v);
    }
  }

  /** `mergeNativeReleases`: fails exactly when a release is refused, and otherwise lists the winners. */
  method MergeNativeReleases(source: seq<NativeRelease>, target: seq<NativeRelease>, le: (string, string) -> bool)
    returns (r: Option<seq<NativeRelease>>)
    requires Collation(le)
    ensures r.None? <==> exists j :: Refused(target + source, ReleaseKey, j)
    ensures r.Some? ==> MergedReleases(target + source, ReleaseKey, le, r.value)
  {
    r := MergeKeyed(source, target, ReleaseKey, Newer, le);
    ghost var values := target + source;
    FoldFailsExactly(values, ReleaseKey);
    if r.Some? {
      ghost var keys :| Arranged(keys, Fold(values, ReleaseKey, Newer).value, le, r.value);
      ArrangedReleases(values, ReleaseKey, le, keys, r.value);
    }
  }
}

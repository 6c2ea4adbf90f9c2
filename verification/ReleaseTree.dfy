/** Exact verification of a staged release directory against its manifest, and the sealing of an
    Agent-built one. A directory is its listing in sorted order. */
module ReleaseTree {
  import opened Outcomes

  datatype Node =
    | File(size: nat, hash: string, executable: bool)
    | Dir(entries: seq<Entry>)
    | Symlink
    | Special

  datatype Entry = Entry(name: string, node: Node)

  /** The path of an entry relative to the release directory. */
  function Join(directory: string, name: string): string {
    if directory == "" then name else directory + "/" + name
  }

  // ---------------------------------------------------------------------------
  // Reference: what a tree contains
  // ---------------------------------------------------------------------------

  datatype Leaf = Leaf(path: string, node: Node)

  /** Everything in the tree that is not a directory, with its path. */
  function Leaves(directory: string, entries: seq<Entry>): seq<Leaf>
    decreases entries
  {
    if entries == [] then []
    else
      var last := entries[|entries| - 1];
      Leaves(directory, entries[..|entries| - 1]) + LeavesAt(Join(directory, last.name), last.node)
  }

  function LeavesAt(path: string, node: Node): seq<Leaf>
    decreases node
  {
    if node.Dir? then Leaves(path, node.entries) else [Leaf(path, node)]
  }

  /** The directories of the tree, with their paths. */
  function Directories(directory: string, entries: seq<Entry>): seq<string>
    decreases entries
  {
    if entries == [] then []
    else
      var last := entries[|entries| - 1];
      Directories(directory, entries[..|entries| - 1]) + DirectoriesAt(Join(directory, last.name), last.node)
  }

  function DirectoriesAt(path: string, node: Node): seq<string>
    decreases node
  {
    if node.Dir? then [path] + Directories(path, node.entries) else []
  }

  // ---------------------------------------------------------------------------
  // Manifest verification
  // ---------------------------------------------------------------------------

  datatype Listed = Listed(size: nat, hash: string, executable: bool)

  const MANIFEST := "release-manifest.json"

  ghost predicate Matches(n: Node, l: Listed) {
    n.File? && n.size == l.size && n.hash == l.hash && (l.executable ==> n.executable)
  }

  /** A leaf the manifest accounts for: itself, or a listed file with the listed content. */
  ghost predicate LeafOk(l: Leaf, expected: map<string, Listed>) {
    l.node.File? && (l.path == MANIFEST || (l.path in expected && Matches(l.node, expected[l.path])))
  }

  /** A directory some listed file lies under. */
  ghost predicate Owned(directory: string, expected: map<string, Listed>) {
    exists path :: path in expected && directory + "/" <= path
  }

  ghost predicate AllOk(leaves: seq<Leaf>, directories: seq<string>, expected: map<string, Listed>) {
    && (forall l :: l in leaves ==> LeafOk(l, expected))
    && (forall d :: d in directories ==> Owned(d, expected))
  }

  /** The listed paths met in the tree. */
  ghost predicate IsObserved(leaves: seq<Leaf>, observed: set<string>) {
    forall path :: path in observed <==> path != MANIFEST && exists l :: l in leaves && l.path == path
  }

  method OwnsExpectedFile(directory: string, expected: map<string, Listed>) returns (owned: bool)
    ensures owned <==> Owned(directory, expected)
  {
    var rest := expected.Keys;
    while rest != {}
      invariant rest <= expected.Keys
      invariant forall path :: path in expected && path !in rest ==> !(directory + "/" <= path)
      decreases |rest|
    {
      var path :| path in rest;
      if directory + "/" <= path { return true; }
      rest := rest - {path};
    }
    return false;
  }

  /** The recursive walk; `observed` are the listed files met. */
  method Visit(directory: string, entries: seq<Entry>, expected: map<string, Listed>)
    returns (ok: bool, observed: set<string>)
    ensures ok <==> AllOk(Leaves(directory, entries), Directories(directory, entries), expected)
    ensures ok ==> IsObserved(Leaves(directory, entries), observed)
    decreases entries
  {
    observed := {};
    for i := 0 to |entries|
      invariant AllOk(Leaves(directory, entries[..i]), Directories(directory, entries[..i]), expected)
      invariant IsObserved(Leaves(directory, entries[..i]), observed)
    {
      var path := Join(directory, entries[i].name);
      assert entries[..i + 1][..i] == entries[..i];
      var here, met := VisitEntry(path, entries[i].node, expected);
      if !here {
        PartialWalkFails(directory, entries, i + 1, expected);
        return false, observed;
      }
      observed := observed + met;
    }
    assert entries[..|entries|] == entries;
    ok := true;
  }

  method VisitEntry(path: string, node: Node, expected: map<string, Listed>) returns (ok: bool, met: set<string>)
    ensures ok <==> AllOk(LeavesAt(path, node), DirectoriesAt(path, node), expected)
    ensures ok ==> IsObserved(LeavesAt(path, node), met)
    decreases node
  {
    met := {};
    match node {
      case Symlink =>
        assert Leaf(path, node) in LeavesAt(path, node);
        return false, met;
      case Dir(entries) =>
        var owned := OwnsExpectedFile(path, expected);
        if !owned {
          assert path in DirectoriesAt(path, node);
          return false, met;
        }
        ok, met := Visit(path, entries, expected);
      case Special =>
        assert Leaf(path, node) in LeavesAt(path, node);
        return false, met;
      case File(size, hash, executable) =>
        assert Leaf(path, node) in LeavesAt(path, node);
        if path == MANIFEST { return true, met; }
        if path !in expected { return false, met; }
        var listed := expected[path];
        if size != listed.size || (listed.executable && !executable) || hash != listed.hash { return false, met; }
        return true, {path};
    }
  }

  lemma {:induction false} PartialWalkFails(
    directory: string, entries: seq<Entry>, i: nat, expected: map<string, Listed>)
    requires i <= |entries|
    requires !AllOk(Leaves(directory, entries[..i]), Directories(directory, entries[..i]), expected)
    ensures !AllOk(Leaves(directory, entries), Directories(directory, entries), expected)
    decreases |entries|
  {
    if i == |entries| {
      assert entries[..i] == entries;
    } else {
      var shorter := entries[..|entries| - 1];
      assert shorter[..i] == entries[..i];
      PartialWalkFails(directory, shorter, i, expected);
    }
  }

  /** `verifyStagedManifest`: accepts exactly the trees whose regular files, apart from the manifest
      itself, are the listed ones with the listed content, with no other kind of entry and no
      directory without a listed file. A manifest that lists itself is never satisfied. */
  method VerifyStagedManifest(root: seq<Entry>, expected: map<string, Listed>) returns (ok: bool)
    ensures ok <==>
            && MANIFEST !in expected
            && AllOk(Leaves("", root), Directories("", root), expected)
            && forall path :: path in expected ==> exists l :: l in Leaves("", root) && l.path == path
  {
    var observed;
    ok, observed := Visit("", root, expected);
    if ok {
      ok := expected.Keys <= observed;
    }
  }

  // ---------------------------------------------------------------------------
  // A path names one place
  // ---------------------------------------------------------------------------

  /** What a file system guarantees: names are non-empty, contain no separator and differ within a directory. */
  ghost predicate WellNamed(entries: seq<Entry>)
    decreases entries
  {
    && (forall i :: 0 <= i < |entries| ==> entries[i].name != "" && '/' !in entries[i].name)
    && (forall i, j :: 0 <= i < j < |entries| ==> entries[i].name != entries[j].name)
    && (forall i :: 0 <= i < |entries| && entries[i].node.Dir? ==> WellNamed(entries[i].node.entries))
  }

  /** `path` is `base` or lies below it. */
  ghost predicate Below(base: string, path: string) {
    path == base || base + "/" <= path
  }

  lemma {:induction false} LeavesLieBelow(directory: string, entries: seq<Entry>, l: Leaf)
    requires l in Leaves(directory, entries) && WellNamed(entries)
    ensures exists i :: 0 <= i < |entries| && Below(Join(directory, entries[i].name), l.path)
    decreases entries
  {
    var n := |entries| - 1;
    if l in Leaves(directory, entries[..n]) {
      LeavesLieBelow(directory, entries[..n], l);
      var i :| 0 <= i < n && Below(Join(directory, entries[..n][i].name), l.path);
      assert entries[i] == entries[..n][i];
    } else {
      LeafLiesBelow(Join(directory, entries[n].name), entries[n].node, l);
    }
  }

  lemma {:induction false} LeafLiesBelow(path: string, node: Node, l: Leaf)
    requires l in LeavesAt(path, node) && path != "" && (node.Dir? ==> WellNamed(node.entries))
    ensures Below(path, l.path)
    decreases node
  {
    if node.Dir? {
      LeavesLieBelow(path, node.entries, l);
      var i :| 0 <= i < |node.entries| && Below(Join(path, node.entries[i].name), l.path);
      assert path + "/" <= Join(path, node.entries[i].name);
    }
  }

  lemma NameStartsRest(directory: string, a: string, path: string)
    requires Below(Join(directory, a), path)
    ensures var start := if directory == "" then 0 else |directory| + 1;
      start <= |path| && (path[start..] == a || a + "/" <= path[start..])
  {
    var start := if directory == "" then 0 else |directory| + 1;
    assert Join(directory, a)[start..] == a;
    assert Join(directory, a) == path[..start] + a;
  }

  /** Siblings that share a path are the same. */
  lemma SiblingsApart(directory: string, a: string, b: string, path: string)
    requires '/' !in a && '/' !in b
    requires Below(Join(directory, a), path) && Below(Join(directory, b), path)
    ensures a == b
  {
    var start := if directory == "" then 0 else |directory| + 1;
    var rest := path[start..];
    NameStartsRest(directory, a, path);
    NameStartsRest(directory, b, path);
    if |a| < |b| {
      LongerSiblingHasSeparator(a, b, rest);
      assert false;
    } else if |b| < |a| {
      LongerSiblingHasSeparator(b, a, rest);
      assert false;
    }
    assert rest[..|a|] == a && rest[..|b|] == b;
  }

  lemma LongerSiblingHasSeparator(a: string, b: string, rest: string)
    requires rest == a || a + "/" <= rest
    requires rest == b || b + "/" <= rest
    requires |a| < |b|
    ensures '/' in b
  {
    assert b[|a|] == rest[|a|] == '/';
  }

  ghost predicate DistinctPaths(leaves: seq<Leaf>) {
    forall i, j :: 0 <= i < j < |leaves| ==> leaves[i].path != leaves[j].path
  }

  lemma LastEntryApart(directory: string, entries: seq<Entry>, a: Leaf, b: Leaf)
    requires WellNamed(entries) && entries != []
    requires a in Leaves(directory, entries[..|entries| - 1])
    requires var e := entries[|entries| - 1]; b in LeavesAt(Join(directory, e.name), e.node)
    ensures a.path != b.path
  {
    var n := |entries| - 1;
    LeavesLieBelow(directory, entries[..n], a);
    var k :| 0 <= k < n && Below(Join(directory, entries[..n][k].name), a.path);
    LeafLiesBelow(Join(directory, entries[n].name), entries[n].node, b);
    if Below(Join(directory, entries[n].name), a.path) {
      SiblingsApart(directory, entries[k].name, entries[n].name, a.path);
      assert false;
    }
  }

  /** In a well-named tree every path leads to one leaf, so an accepted tree holds each listed file
      exactly once. */
  lemma {:induction false} PathsAreDistinct(directory: string, entries: seq<Entry>)
    requires WellNamed(entries)
    ensures DistinctPaths(Leaves(directory, entries))
    decreases entries
  {
    if entries != [] {
      var n := |entries| - 1;
      var before, last := Leaves(directory, entries[..n]), LeavesAt(Join(directory, entries[n].name), entries[n].node);
      PathsAreDistinct(directory, entries[..n]);
      if entries[n].node.Dir? {
        PathsAreDistinct(Join(directory, entries[n].name), entries[n].node.entries);
      }
      forall i, j | 0 <= i < |before| && 0 <= j < |last| ensures before[i].path != last[j].path {
        LastEntryApart(directory, entries, before[i], last[j]);
      }
    }
  }

  // ---------------------------------------------------------------------------
  // Agent-built releases: copy, seal, verify again
  // ---------------------------------------------------------------------------

  predicate Metadata(path: string) {
    path in {"release-manifest.json", "release-prompt.json", "release-seal.json"}
  }

  const MAX_FILES := 10_000
  const MAX_BYTES := 1024 * 1024 * 1024

  datatype SealFile = SealFile(path: string, size: nat, hash: string, executable: bool)

  /** The files a seal lists: everything regular outside the release metadata, in walk order. */
  function Sealed(directory: string, entries: seq<Entry>): seq<SealFile>
    decreases entries
  {
    if entries == [] then []
    else
      var last := entries[|entries| - 1];
      Sealed(directory, entries[..|entries| - 1]) + SealedAt(Join(directory, last.name), last.node)
  }

  function SealedAt(path: string, node: Node): seq<SealFile>
    decreases node
  {
    if Metadata(path) then []
    else match node
      case File(size, hash, executable) => [SealFile(path, size, hash, executable)]
      case Dir(entries) => Sealed(path, entries)
      case _ => []
  }

  /** Nothing outside the metadata is anything but a file or a directory; with `strict`, there is no
      metadata either. */
  predicate Regular(directory: string, entries: seq<Entry>, strict: bool)
    decreases entries
  {
    entries == [] ||
    var last := entries[|entries| - 1];
    Regular(directory, entries[..|entries| - 1], strict) && RegularAt(Join(directory, last.name), last.node, strict)
  }

  predicate RegularAt(path: string, node: Node, strict: bool)
    decreases node
  {
    if Metadata(path) then !strict
    else match node
      case File(_, _, _) => true
      case Dir(entries) => Regular(path, entries, strict)
      case _ => false
  }

  lemma OneMoreEntry(directory: string, entries: seq<Entry>, e: Entry, strict: bool, base: seq<SealFile>)
    ensures Sealed(directory, entries + [e]) == Sealed(directory, entries) + SealedAt(Join(directory, e.name), e.node)
    ensures base + Sealed(directory, entries + [e]) ==
            (base + Sealed(directory, entries)) + SealedAt(Join(directory, e.name), e.node)
    ensures Regular(directory, entries + [e], strict) <==>
            Regular(directory, entries, strict) && RegularAt(Join(directory, e.name), e.node, strict)
  {
    var longer := entries + [e];
    assert longer[..|longer| - 1] == entries;
  }

  lemma NextEntry(directory: string, entries: seq<Entry>, i: nat, strict: bool, base: seq<SealFile>)
    requires i < |entries|
    ensures var more := SealedAt(Join(directory, entries[i].name), entries[i].node);
      base + Sealed(directory, entries[..i + 1]) == (base + Sealed(directory, entries[..i])) + more
    ensures Regular(directory, entries[..i + 1], strict) <==>
      Regular(directory, entries[..i], strict) && RegularAt(Join(directory, entries[i].name), entries[i].node, strict)
  {
    assert entries[..i + 1] == entries[..i] + [entries[i]];
    OneMoreEntry(directory, entries[..i], entries[i], strict, base);
  }

  function Bytes(files: seq<SealFile>): nat {
    if files == [] then 0 else Bytes(files[..|files| - 1]) + files[|files| - 1].size
  }

  predicate InLimits(files: seq<SealFile>) {
    |files| <= MAX_FILES && Bytes(files) <= MAX_BYTES
  }

  lemma {:induction false} BytesOfConcat(a: seq<SealFile>, b: seq<SealFile>)
    ensures Bytes(a + b) == Bytes(a) + Bytes(b)
    decreases |b|
  {
    if b == [] {
      assert a + b == a;
    } else {
      assert (a + b)[..|a + b| - 1] == a + b[..|b| - 1];
      BytesOfConcat(a, b[..|b| - 1]);
    }
  }

  /** `createAgentReleaseSeal`'s walk, continuing from the files already sealed. */
  method SealVisit(directory: string, entries: seq<Entry>, files: seq<SealFile>, bytes: nat)
    returns (ok: bool, files': seq<SealFile>, bytes': nat)
    requires bytes == Bytes(files) && InLimits(files)
    ensures ok <==> Regular(directory, entries, false) && InLimits(files + Sealed(directory, entries))
    ensures ok ==> files' == files + Sealed(directory, entries) && bytes' == Bytes(files')
    decreases entries
  {
    ok, files', bytes' := true, files, bytes;
    for i := 0 to |entries|
      invariant ok && Regular(directory, entries[..i], false)
      invariant files' == files + Sealed(directory, entries[..i]) && bytes' == Bytes(files') && InLimits(files')
    {
      var path := Join(directory, entries[i].name);
      NextEntry(directory, entries, i, false, files);
      ok, files', bytes' := SealEntry(path, entries[i].node, files', bytes');
      if !ok {
        PartialWalkOverflows(directory, entries, i + 1, false, files);
        return;
      }
    }
    assert entries[..|entries|] == entries;
  }

  method SealEntry(path: string, node: Node, files: seq<SealFile>, bytes: nat)
    returns (ok: bool, files': seq<SealFile>, bytes': nat)
    requires bytes == Bytes(files) && InLimits(files)
    ensures ok <==> RegularAt(path, node, false) && InLimits(files + SealedAt(path, node))
    ensures ok ==> files' == files + SealedAt(path, node) && bytes' == Bytes(files')
    decreases node
  {
    files', bytes' := files, bytes;
    if Metadata(path) {
      assert files + SealedAt(path, node) == files;
      return true, files', bytes';
    }
    match node {
      case Symlink => return false, files', bytes';
      case Special => return false, files', bytes';
      case Dir(entries) => ok, files', bytes' := SealVisit(path, entries, files, bytes);
      case File(size, hash, executable) =>
        BytesOfConcat(files, SealedAt(path, node));
        assert Bytes([SealFile(path, size, hash, executable)]) == size;
        bytes' := bytes + size;
        if |files| >= MAX_FILES || bytes' > MAX_BYTES { return false, files', bytes'; }
        files' := files + [SealFile(path, size, hash, executable)];
        ok := true;
    }
  }

  function WithCopy(copy: seq<Entry>, name: string, here: Option<Node>): seq<Entry> {
    if here.Some? then copy + [Entry(name, here.value)] else copy
  }

  lemma CopyGrows(directory: string, copy: seq<Entry>, e: Entry, here: Option<Node>)
    requires Regular(directory, copy, true)
    requires var path := Join(directory, e.name);
      if here.None? then SealedAt(path, e.node) == []
      else RegularAt(path, here.value, true) && SealedAt(path, here.value) == SealedAt(path, e.node)
    ensures Regular(directory, WithCopy(copy, e.name, here), true)
    ensures Sealed(directory, WithCopy(copy, e.name, here))
      == Sealed(directory, copy) + SealedAt(Join(directory, e.name), e.node)
  {
    if here.Some? { OneMoreEntry(directory, copy, Entry(e.name, here.value), true, []); }
  }

  /** What the walk holds after the entries `done`: all were regular, `now` is what the limits have
      counted, and the copy seals like the entries it was made from. */
  ghost predicate CopiedSoFar(
    directory: string, done: seq<Entry>, strict: bool, base: seq<SealFile>, now: seq<SealFile>, copy: seq<Entry>)
  {
    && Regular(directory, done, strict) && now == base + Sealed(directory, done)
    && Regular(directory, copy, true) && Sealed(directory, copy) == Sealed(directory, done)
  }

  lemma NextSealed(directory: string, entries: seq<Entry>, i: nat)
    requires i < |entries|
    ensures Sealed(directory, entries[..i + 1])
      == Sealed(directory, entries[..i]) + SealedAt(Join(directory, entries[i].name), entries[i].node)
  {
    assert entries[..i + 1] == entries[..i] + [entries[i]];
    OneMoreEntry(directory, entries[..i], entries[i], false, []);
  }

  lemma CopyStep(
    directory: string, entries: seq<Entry>, i: nat, strict: bool, base: seq<SealFile>, now: seq<SealFile>,
    copy: seq<Entry>, here: Option<Node>)
    requires i < |entries| && CopiedSoFar(directory, entries[..i], strict, base, now, copy)
    requires RegularAt(Join(directory, entries[i].name), entries[i].node, strict)
    requires var path := Join(directory, entries[i].name);
      if here.None? then SealedAt(path, entries[i].node) == []
      else RegularAt(path, here.value, true) && SealedAt(path, here.value) == SealedAt(path, entries[i].node)
    ensures CopiedSoFar(directory, entries[..i + 1], strict, base,
      now + SealedAt(Join(directory, entries[i].name), entries[i].node), WithCopy(copy, entries[i].name, here))
  {
    NextEntry(directory, entries, i, strict, base);
    NextSealed(directory, entries, i);
    CopyGrows(directory, copy, entries[i], here);
  }

  lemma WholeCopyGrows(entries: seq<Entry>, i: nat)
    requires i < |entries|
    ensures WithCopy(entries[..i], entries[i].name, Some(entries[i].node)) == entries[..i + 1]
  {
  }

  lemma CopyStops(
    directory: string, entries: seq<Entry>, i: nat, strict: bool, base: seq<SealFile>, now: seq<SealFile>,
    copy: seq<Entry>)
    requires i < |entries| && CopiedSoFar(directory, entries[..i], strict, base, now, copy)
    requires var path, node := Join(directory, entries[i].name), entries[i].node;
      !(RegularAt(path, node, strict) && InLimits(now + SealedAt(path, node)))
    ensures !(Regular(directory, entries, strict) && InLimits(base + Sealed(directory, entries)))
  {
    NextEntry(directory, entries, i, strict, base);
    PartialWalkOverflows(directory, entries, i + 1, strict, base);
  }

  /** `copyAgentReleaseTree`'s walk: regular files are copied with their executable bit, metadata is
      rejected or left behind, and the limits count what was copied so far. */
  method CopyVisit(
    directory: string, entries: seq<Entry>, ignoreMetadata: bool, ghost copied: seq<SealFile>, files: nat, bytes: nat)
    returns (ok: bool, copy: seq<Entry>, files': nat, bytes': nat)
    requires files == |copied| && bytes == Bytes(copied) && InLimits(copied)
    ensures ok <==> Regular(directory, entries, !ignoreMetadata) && InLimits(copied + Sealed(directory, entries))
    ensures ok ==> files' == |copied + Sealed(directory, entries)|
    ensures ok ==> bytes' == Bytes(copied + Sealed(directory, entries))
    ensures ok ==> Regular(directory, copy, true) && Sealed(directory, copy) == Sealed(directory, entries)
    ensures ok && !ignoreMetadata ==> copy == entries
    decreases entries
  {
    ok, copy, files', bytes' := true, [], files, bytes;
    ghost var now := copied;
    assert copied + [] == copied;
    for i := 0 to |entries|
      invariant ok && CopiedSoFar(directory, entries[..i], !ignoreMetadata, copied, now, copy)
      invariant InLimits(now) && files' == |now| && bytes' == Bytes(now)
      invariant !ignoreMetadata ==> copy == entries[..i]
    {
      var path := Join(directory, entries[i].name);
      var here;
      ok, here, files', bytes' := CopyEntry(path, entries[i].node, ignoreMetadata, now, files', bytes');
      if !ok {
        CopyStops(directory, entries, i, !ignoreMetadata, copied, now, copy);
        return;
      }
      CopyStep(directory, entries, i, !ignoreMetadata, copied, now, copy, here);
      now := now + SealedAt(path, entries[i].node);
      WholeCopyGrows(entries, i);
      copy := WithCopy(copy, entries[i].name, here);
    }
    assert entries[..|entries|] == entries;
  }

  method CopyEntry(path: string, node: Node, ignoreMetadata: bool, ghost copied: seq<SealFile>, files: nat, bytes: nat)
    returns (ok: bool, copy: Option<Node>, files': nat, bytes': nat)
    requires files == |copied| && bytes == Bytes(copied) && InLimits(copied)
    ensures ok <==> RegularAt(path, node, !ignoreMetadata) && InLimits(copied + SealedAt(path, node))
    ensures ok ==> files' == |copied + SealedAt(path, node)| && bytes' == Bytes(copied + SealedAt(path, node))
    ensures ok && copy.None? ==> SealedAt(path, node) == []
    ensures ok && copy.Some? ==> RegularAt(path, copy.value, true) && SealedAt(path, copy.value) == SealedAt(path, node)
    ensures ok && !ignoreMetadata ==> copy == Some(node)
    decreases node
  {
    ok, copy, files', bytes' := false, None, files, bytes;
    if Metadata(path) {
      assert copied + SealedAt(path, node) == copied;
      ok := ignoreMetadata;
      return;
    }
    match node {
      case Symlink =>
      case Special =>
      case Dir(entries) =>
        var inside;
        ok, inside, files', bytes' := CopyVisit(path, entries, ignoreMetadata, copied, files, bytes);
        copy := Some(Dir(inside));
      case File(size, hash, executable) =>
        BytesOfConcat(copied, SealedAt(path, node));
        assert Bytes([SealFile(path, size, hash, executable)]) == size;
        files', bytes' := files + 1, bytes + size;
        ok := files' <= MAX_FILES && bytes' <= MAX_BYTES;
        copy := Some(File(size, hash, executable));
    }
  }

  lemma {:induction false} PartialWalkOverflows(
    directory: string, entries: seq<Entry>, i: nat, strict: bool, files: seq<SealFile>)
    requires i <= |entries|
    requires !(Regular(directory, entries[..i], strict) && InLimits(files + Sealed(directory, entries[..i])))
    ensures !(Regular(directory, entries, strict) && InLimits(files + Sealed(directory, entries)))
    decreases |entries| - i
  {
    if i == |entries| {
      assert entries[..i] == entries;
    } else {
      NextEntry(directory, entries, i, strict, files);
      var more := SealedAt(Join(directory, entries[i].name), entries[i].node);
      BytesOfConcat(files + Sealed(directory, entries[..i]), more);
      PartialWalkOverflows(directory, entries, i + 1, strict, files);
    }
  }

  /** The root listing without the release metadata. */
  function Stripped(root: seq<Entry>): seq<Entry> {
    if root == [] then []
    else
      var last := root[|root| - 1];
      Stripped(root[..|root| - 1]) + if Metadata(last.name) then [] else [last]
  }

  /** Writing metadata into the root changes nothing a seal sees. */
  lemma {:induction false} MetadataIsInvisible(root: seq<Entry>)
    ensures Sealed("", Stripped(root)) == Sealed("", root)
    ensures Regular("", Stripped(root), false) == Regular("", root, false)
    decreases |root|
  {
    if root != [] {
      var init, last := root[..|root| - 1], root[|root| - 1];
      MetadataIsInvisible(init);
      assert root == init + [last];
      OneMoreEntry("", init, last, false, []);
      OneMoreEntry("", Stripped(init), last, false, []);
      assert Stripped(init) + [] == Stripped(init) && Sealed("", init) + [] == Sealed("", init);
    }
  }

  lemma {:induction false} StrictIsRegular(directory: string, entries: seq<Entry>)
    requires Regular(directory, entries, true)
    ensures Regular(directory, entries, false)
    decreases entries
  {
    if entries != [] {
      var last := entries[|entries| - 1];
      StrictIsRegular(directory, entries[..|entries| - 1]);
      if last.node.Dir? { StrictIsRegular(Join(directory, last.name), last.node.entries); }
    }
  }

  /** `verifyAgentSealedRelease`, whose entry-point check is `valid`. */
  method VerifySealed(tree: seq<Entry>, seal: seq<SealFile>, valid: seq<Entry> -> bool) returns (ok: bool)
    ensures ok <==> valid(tree) && Regular("", tree, false) && InLimits(seal) && Sealed("", tree) == seal
  {
    if !valid(tree) { return false; }
    var sealed, observed, total := SealVisit("", tree, [], 0);
    assert [] + Sealed("", tree) == Sealed("", tree);
    ok := sealed && observed == seal;
  }

  /** A release that is installed already: whether its prompt is the one at hand, its seal and its tree. */
  datatype Installed = Installed(samePrompt: bool, seal: seq<SealFile>, tree: seq<Entry>)

  /** `stageAgentCandidate`: an installed release is returned if it is the same and intact. Otherwise the
      candidate is copied, checked and sealed, prompt and seal are written beside it, and the result is
      verified. Whatever the listing looks like with the metadata in it, a copied tree always passes its
      own seal, the copy is the candidate itself, and the seal lists exactly the candidate's files. */
  method StageAgentCandidate(installed: Option<Installed>, candidate: seq<Entry>, valid: seq<Entry> -> bool,
                             withMetadata: seq<Entry> -> seq<Entry>)
    returns (r: Option<seq<SealFile>>)
    requires forall root :: Stripped(withMetadata(root)) == Stripped(root)
    requires forall root :: valid(withMetadata(root)) == valid(root)
    ensures installed.None? ==>
      (r.Some? <==> Regular("", candidate, true) && InLimits(Sealed("", candidate)) && valid(candidate))
    ensures installed.None? && r.Some? ==> r.value == Sealed("", candidate)
    ensures installed.Some? ==>
      var Installed(samePrompt, seal, tree) := installed.value;
      && (r.Some? <==> samePrompt && valid(tree) && Regular("", tree, false) && InLimits(seal)
                       && Sealed("", tree) == seal)
      && (r.Some? ==> r.value == seal)
  {
    if installed.Some? {
      if !installed.value.samePrompt { return None; }
      var intact := VerifySealed(installed.value.tree, installed.value.seal, valid);
      return if intact then Some(installed.value.seal) else None;
    }
    var copied, copy, files, bytes := CopyVisit("", candidate, false, [], 0, 0);
    assert [] + Sealed("", candidate) == Sealed("", candidate);
    if !copied || !valid(copy) { return None; }
    StrictIsRegular("", copy);
    var ok, seal, total := SealVisit("", copy, [], 0);
    assert [] + Sealed("", copy) == Sealed("", copy);
    var staged := withMetadata(copy);
    MetadataIsInvisible(copy);
    MetadataIsInvisible(staged);
    var again := VerifySealed(staged, seal, valid);
    r := if ok && again then Some(seal) else None;
  }
}

/** Hand-over of the work itself: the project catalog and the sessions of every project. */
module HandoffWork {
  import opened Outcomes
  import HandoffLists

  // ---------------------------------------------------------------------------
  // Project catalog
  // ---------------------------------------------------------------------------

  /** A catalog entry; an absent field is `None`, a required string must also be non-empty. */
  datatype Project = Project(room: Option<string>, conversation: Option<string>, project: Option<string>, body: string)

  datatype ProjectCatalog = ProjectCatalog(version: int, projects: seq<Project>)

  predicate Present(s: Option<string>) { s.Some? && s.value != "" }

  function RoomKey(p: Project): Option<string> { if Present(p.room) then p.room else None }

  function Conflict(left: Project, right: Project): Option<Project> { None }

  /** The projects the hand-over must carry: all of the candidate's, and the source's except those
      whose room field equals the retained one. */
  ghost predicate Carried(source: seq<Project>, target: seq<Project>, retained: Option<string>, p: Project) {
    p in target || (p in source && p.room != retained)
  }

  ghost predicate UniqueRooms(ps: seq<Project>) {
    forall i, j :: 0 <= i < j < |ps| ==> ps[i].room != ps[j].room
  }

  ghost predicate UniqueConversations(ps: seq<Project>) {
    && (forall i :: 0 <= i < |ps| ==> Present(ps[i].conversation))
    && (forall i, j :: 0 <= i < j < |ps| ==> ps[i].conversation != ps[j].conversation)
  }

  ghost predicate UniqueProjectIds(ps: seq<Project>) {
    && (forall i :: 0 <= i < |ps| && ps[i].project.Some? ==> Present(ps[i].project))
    && (forall i, j :: 0 <= i < j < |ps| && ps[i].project.Some? ==> ps[i].project != ps[j].project)
  }

  ghost predicate RoomOrdered(ps: seq<Project>, le: (string, string) -> bool) {
    forall i, j :: 0 <= i < j < |ps| ==> ps[i].room.Some? && ps[j].room.Some? && le(ps[i].room.value, ps[j].room.value)
  }

  /** Rooms are present and identify projects. */
  ghost predicate RoomsIdentify(ps: seq<Project>) {
    && (forall p :: p in ps ==> Present(p.room))
    && (forall p, q :: p in ps && q in ps && p.room == q.room ==> p == q)
  }

  lemma {:induction false} FoldOfProjects(ps: seq<Project>)
    ensures HandoffLists.Fold(ps, RoomKey, Conflict).Some? <==> RoomsIdentify(ps)
    ensures HandoffLists.Fold(ps, RoomKey, Conflict).Some? ==>
              var m := HandoffLists.Fold(ps, RoomKey, Conflict).value;
              && (forall p :: p in ps ==> p.room.Some? && p.room.value in m && m[p.room.value] == p)
              && (forall k :: k in m ==> m[k] in ps && m[k].room == Some(k))
    decreases |ps|
  {
    if ps != [] {
      var init, last := ps[..|ps| - 1], ps[|ps| - 1];
      assert ps == init + [last];
      FoldOfProjects(init);
      assert last in ps && forall p :: p in init ==> p in ps;
    }
  }

  /** All values are present strings, pairwise different. */
  method AssertUnique(values: seq<Option<string>>) returns (ok: bool)
    ensures ok <==> && (forall i :: 0 <= i < |values| ==> Present(values[i]))
                    && (forall i, j :: 0 <= i < j < |values| ==> values[i] != values[j])
  {
    var seen: set<Option<string>> := {};
    for n := 0 to |values|
      invariant forall i :: 0 <= i < n ==> Present(values[i]) && values[i] in seen
      invariant forall v :: v in seen ==> v in values[..n]
      invariant forall i, j :: 0 <= i < j < n ==> values[i] != values[j]
    {
      if !Present(values[n]) { return false; }
      if values[n] in seen {
        var i :| 0 <= i < n && values[i] == values[n];
        return false;
      }
      seen := seen + {values[n]};
    }
    ok := true;
  }

  /** `values.map(...).filter(defined)`, keeping where each value came from. */
  method DefinedProjectIds(ps: seq<Project>) returns (ids: seq<Option<string>>, ghost at: seq<nat>)
    ensures |at| == |ids|
    ensures forall k :: 0 <= k < |at| ==> at[k] < |ps| && ids[k] == ps[at[k]].project && ids[k].Some?
    ensures forall i :: 0 <= i < |ps| && ps[i].project.Some? ==> i in at
    ensures forall k, l :: 0 <= k < l < |at| ==> at[k] < at[l]
  {
    ids, at := [], [];
    for n := 0 to |ps|
      invariant |at| == |ids|
      invariant forall k :: 0 <= k < |at| ==> at[k] < n && ids[k] == ps[at[k]].project && ids[k].Some?
      invariant forall i :: 0 <= i < n && ps[i].project.Some? ==> i in at
      invariant forall k, l :: 0 <= k < l < |at| ==> at[k] < at[l]
    {
      if ps[n].project.Some? { ids, at := ids + [ps[n].project], at + [n]; }
    }
  }

  lemma DefinedIdsDecide(ps: seq<Project>, ids: seq<Option<string>>, at: seq<nat>)
    requires |at| == |ids|
    requires forall k :: 0 <= k < |at| ==> at[k] < |ps| && ids[k] == ps[at[k]].project && ids[k].Some?
    requires forall i :: 0 <= i < |ps| && ps[i].project.Some? ==> i in at
    requires forall k, l :: 0 <= k < l < |at| ==> at[k] < at[l]
    ensures UniqueProjectIds(ps) <==> && (forall k :: 0 <= k < |ids| ==> Present(ids[k]))
                                      && (forall k, l :: 0 <= k < l < |ids| ==> ids[k] != ids[l])
  {
    if (forall k :: 0 <= k < |ids| ==> Present(ids[k])) && (forall k, l :: 0 <= k < l < |ids| ==> ids[k] != ids[l]) {
      forall i | 0 <= i < |ps| && ps[i].project.Some? ensures Present(ps[i].project) {
        assert i in at;
      }
      forall i, j | 0 <= i < j < |ps| && ps[i].project.Some? ensures ps[i].project != ps[j].project {
        if ps[j].project.Some? {
          assert i in at && j in at;
          var k, l :| 0 <= k < |at| && 0 <= l < |at| && at[k] == i && at[l] == j;
          assert k < l;
        }
      }
    }
  }

  /** `p` alone, or `p` and `q` together, rule a merged catalog out. */
  ghost predicate Faulty(p: Project) {
    !Present(p.room) || !Present(p.conversation) || p.project == Some("")
  }

  ghost predicate Clash(p: Project, q: Project) {
    p != q && (p.room == q.room || p.conversation == q.conversation || (p.project.Some? && p.project == q.project))
  }

  /** `mergeProjectCatalog`: fails exactly when a carried project is faulty or two of them clash;
      otherwise it lists exactly the carried projects, in room order, all their IDs unique. Every source
      project outside the retained room is among them exactly when a room is retained or none that the
      candidate lacks is without a room ID. */
  method MergeProjectCatalog(source: ProjectCatalog, target: ProjectCatalog, retained: Option<string>,
                             le: (string, string) -> bool)
    returns (r: Option<seq<Project>>)
    requires HandoffLists.Collation(le)
    ensures r.Some? ==> forall p :: p in r.value <==> Carried(source.projects, target.projects, retained, p)
    ensures r.Some? ==> UniqueRooms(r.value) && UniqueConversations(r.value) && UniqueProjectIds(r.value)
    ensures r.Some? ==> RoomOrdered(r.value, le)
    ensures r.Some? ==>
              ((forall p :: p in source.projects && (retained.None? || p.room != retained) ==> p in r.value) <==>
                 (retained.Some? || forall p :: p in source.projects && p !in target.projects ==> p.room.Some?))
    ensures r.None? <==>
            || source.version != 1 || target.version != 1
            || (exists p :: Carried(source.projects, target.projects, retained, p) && Faulty(p))
            || (exists p, q :: Carried(source.projects, target.projects, retained, p)
                               && Carried(source.projects, target.projects, retained, q) && Clash(p, q))
  {
    if source.version != 1 || target.version != 1 { return None; }
    var moving := WithoutRoom(source.projects, retained);
    r := MergeProjects(moving, target.projects, le);
    assert forall p :: p in target.projects + moving <==> Carried(source.projects, target.projects, retained, p);
  }

  method MergeProjects(moving: seq<Project>, staying: seq<Project>, le: (string, string) -> bool)
    returns (r: Option<seq<Project>>)
    requires HandoffLists.Collation(le)
    ensures r.Some? ==> forall p :: p in r.value <==> p in staying + moving
    ensures r.Some? ==> UniqueRooms(r.value) && UniqueConversations(r.value) && UniqueProjectIds(r.value)
    ensures r.Some? ==> RoomOrdered(r.value, le)
    ensures r.None? <==> || (exists p :: p in staying + moving && Faulty(p))
                         || (exists p, q :: p in staying + moving && q in staying + moving && Clash(p, q))
  {
    r := HandoffLists.MergeKeyed(moving, staying, RoomKey, Conflict, le);
    ghost var all := staying + moving;
    FoldOfProjects(all);
    if r.Some? {
      ghost var keys :| HandoffLists.Arranged(keys, HandoffLists.Fold(all, RoomKey, Conflict).value, le, r.value);
      ArrangedProjects(all, le, keys, r.value);
      UniqueExactly(r.value);
      var unique := AssertUniqueFields(r.value);
      if !unique { r := None; }
    }
  }

  method AssertUniqueFields(ps: seq<Project>) returns (ok: bool)
    ensures ok <==> UniqueConversations(ps) && UniqueProjectIds(ps)
  {
    var found := seq(|ps|, i requires 0 <= i < |ps| => ps[i].conversation);
    assert forall i :: 0 <= i < |ps| ==> found[i] == ps[i].conversation;
    var conversations := AssertUnique(found);
    assert conversations <==> UniqueConversations(ps);
    var ids, at := DefinedProjectIds(ps);
    DefinedIdsDecide(ps, ids, at);
    var projectIds := AssertUnique(ids);
    ok := conversations && projectIds;
  }

  method WithoutRoom(ps: seq<Project>, retained: Option<string>) returns (r: seq<Project>)
    ensures forall p :: p in r <==> p in ps && p.room != retained
  {
    r := [];
    for i := 0 to |ps|
      invariant forall p :: p in r <==> p in ps[..i] && p.room != retained
    {
      if ps[i].room != retained { r := r + [ps[i]]; }
    }
    assert ps[..|ps|] == ps;
  }

  lemma ArrangedProjects(all: seq<Project>, le: (string, string) -> bool, keys: seq<string>, ps: seq<Project>)
    requires HandoffLists.Fold(all, RoomKey, Conflict).Some?
    requires HandoffLists.Arranged(keys, HandoffLists.Fold(all, RoomKey, Conflict).value, le, ps)
    ensures forall p :: p in ps <==> p in all
    ensures UniqueRooms(ps) && forall p :: p in ps ==> Present(p.room)
    ensures RoomOrdered(ps, le)
  {
    FoldOfProjects(all);
    var m := HandoffLists.Fold(all, RoomKey, Conflict).value;
    assert forall i :: 0 <= i < |ps| ==> keys[i] in m && ps[i] in all && ps[i].room == Some(keys[i]);
    forall p | p in all ensures p in ps {
      assert p.room.value in keys;
      var i :| 0 <= i < |keys| && keys[i] == p.room.value;
      assert ps[i] == p;
    }
  }

  lemma UniqueExactly(ps: seq<Project>)
    requires UniqueRooms(ps) && forall p :: p in ps ==> Present(p.room)
    ensures UniqueConversations(ps) && UniqueProjectIds(ps) <==>
            && (forall p :: p in ps ==> !Faulty(p))
            && (forall p, q :: p in ps && q in ps ==> !Clash(p, q))
  {
    if (forall p :: p in ps ==> !Faulty(p)) && (forall p, q :: p in ps && q in ps ==> !Clash(p, q)) {
      forall i, j | 0 <= i < j < |ps|
        ensures ps[i].conversation != ps[j].conversation && (ps[i].project.Some? ==> ps[i].project != ps[j].project)
      {
        assert ps[i] in ps && ps[j] in ps && !Clash(ps[i], ps[j]);
      }
      forall i | 0 <= i < |ps| ensures !Faulty(ps[i]) { assert ps[i] in ps; }
    }
    if UniqueConversations(ps) && UniqueProjectIds(ps) {
      forall p, q | p in ps && q in ps ensures !Clash(p, q) {
        var i, j :| 0 <= i < |ps| && 0 <= j < |ps| && ps[i] == p && ps[j] == q;
      }
    }
  }

  lemma NothingListed(ps: seq<Project>)
    requires forall p :: p !in ps
    ensures ps == []
  {
    if ps != [] {
      FirstIsListed(ps);
      assert false;
    }
  }

  lemma FirstIsListed(ps: seq<Project>)
    requires ps != []
    ensures ps[0] in ps
  {
  }

  /** With no room retained, a source project without a room ID is left behind and the merge succeeds. */
  method RoomlessProjectDropped(le: (string, string) -> bool) returns (r: Option<seq<Project>>)
    requires HandoffLists.Collation(le)
    ensures r == Some([])
  {
    var roomless := Project(None, Some("c"), None, "");
    r := MergeProjectCatalog(ProjectCatalog(1, [roomless]), ProjectCatalog(1, []), None, le);
    assert forall p :: !Carried([roomless], [], None, p);
    if r.Some? { NothingListed(r.value); }
  }
}

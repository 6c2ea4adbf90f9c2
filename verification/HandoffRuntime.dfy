/** Hand-over of the runtime state: sessions survive unchanged but for their scratch directory, and
    the active ones are counted. */
module HandoffRuntime {
  import opened Outcomes
  import HandoffStores

  datatype Session = Session(id: string, scratch: bool, active: bool, cwd: string, body: string)

  datatype RuntimeProject = RuntimeProject(sessions: seq<Session>, body: string)

  type Projects = map<string, RuntimeProject>

  datatype RuntimeState = RuntimeState(version: int, workspaceId: string, projects: Projects)

  datatype Handover = Handover(projects: Projects, projectCount: nat, sessionCount: nat)

  /** `b` is session `a` handed over: a scratch session moves to its directory under the target, any
      other keeps its own, and nothing else about it changes. */
  ghost predicate Arrives(a: Session, b: Session, scratchDirectory: string -> string) {
    && b.id == a.id && b.scratch == a.scratch && b.active == a.active && b.body == a.body
    && (a.scratch ==> b.cwd == scratchDirectory(a.id))
    && (!a.scratch ==> b.cwd == a.cwd)
  }

  /** `b` is `a` with its scratch sessions relocated and nothing else changed. */
  ghost predicate Moved(a: RuntimeProject, b: RuntimeProject, scratchDirectory: string -> string) {
    && b.body == a.body
    && |b.sessions| == |a.sessions|
    && forall i :: 0 <= i < |a.sessions| ==> Arrives(a.sessions[i], b.sessions[i], scratchDirectory)
  }

  // ----- counting -----------------------------------------------------------------

  function ActiveIn(sessions: seq<Session>): nat {
    if sessions == [] then 0
    else ActiveIn(sessions[..|sessions| - 1]) + if sessions[|sessions| - 1].active then 1 else 0
  }

  /** The active sessions of all projects together. */
  ghost function ActiveTotal(ps: Projects): nat
    decreases |ps|
  {
    if ps == map[] then 0
    else
      var room :| room in ps;
      ActiveIn(ps[room].sessions) + ActiveTotal(ps - {room})
  }

  /** The total does not depend on where the sum starts. */
  lemma {:induction false} ActiveTotalFrom(ps: Projects, room: string)
    requires room in ps
    ensures ActiveTotal(ps) == ActiveIn(ps[room].sessions) + ActiveTotal(ps - {room})
    decreases |ps|
  {
    var first :| first in ps && ActiveTotal(ps) == ActiveIn(ps[first].sessions) + ActiveTotal(ps - {first});
    if first != room {
      ActiveTotalFrom(ps - {first}, room);
      ActiveTotalFrom(ps - {room}, first);
      assert ps - {first} - {room} == ps - {room} - {first};
    }
  }

  // ----- session IDs --------------------------------------------------------------

  ghost predicate Has(ps: Projects, room: string, i: int) {
    room in ps && 0 <= i < |ps[room].sessions|
  }

  ghost predicate HasId(ps: Projects, id: string) {
    exists room, i :: Has(ps, room, i) && ps[room].sessions[i].id == id
  }

  /** Session IDs are present and identify one session among all projects. */
  ghost predicate UniqueSessions(ps: Projects) {
    && (forall room, i :: Has(ps, room, i) ==> ps[room].sessions[i].id != "")
    && (forall room, i, room', i' ::
          Has(ps, room, i) && Has(ps, room', i') && ps[room].sessions[i].id == ps[room'].sessions[i'].id ==>
            room == room' && i == i')
  }

  /** The IDs of one project are present, new and distinct. */
  ghost predicate NewIds(sessions: seq<Session>, known: set<string>) {
    && (forall i :: 0 <= i < |sessions| ==> sessions[i].id != "" && sessions[i].id !in known)
    && (forall i, j :: 0 <= i < j < |sessions| ==> sessions[i].id != sessions[j].id)
  }

  ghost predicate Lists(sessions: seq<Session>, id: string) {
    exists i :: 0 <= i < |sessions| && sessions[i].id == id
  }

  lemma NewIdsGrow(sessions: seq<Session>, s: Session, known: set<string>, ids: set<string>)
    requires NewIds(sessions, known)
    requires forall id :: id in ids <==> id in known || Lists(sessions, id)
    ensures NewIds(sessions + [s], known) <==> s.id != "" && s.id !in ids
    ensures forall id :: Lists(sessions + [s], id) <==> Lists(sessions, id) || id == s.id
  {
    var longer := sessions + [s];
    assert longer[|sessions|] == s && forall i :: 0 <= i < |sessions| ==> longer[i] == sessions[i];
    assert forall i :: 0 <= i < |sessions| ==> Lists(sessions, longer[i].id);
    if Lists(sessions, s.id) {
      var i :| 0 <= i < |sessions| && sessions[i].id == s.id;
      assert longer[i].id == longer[|sessions|].id;
    }
    forall id | Lists(sessions, id) ensures Lists(longer, id) {
      var i :| 0 <= i < |sessions| && sessions[i].id == id;
      assert longer[i].id == id;
    }
  }

  /** What one project's walk holds after the sessions `done`. */
  ghost predicate Walked(done: seq<Session>, known: set<string>, moved: seq<Session>, ids: set<string>, active: nat,
                         scratchDirectory: string -> string) {
    && |moved| == |done|
    && (forall i :: 0 <= i < |done| ==> Arrives(done[i], moved[i], scratchDirectory))
    && NewIds(done, known)
    && (forall id :: id in ids <==> id in known || Lists(done, id))
    && active == ActiveIn(done)
  }

  lemma WalkGrows(
    done: seq<Session>, s: Session, s': Session, known: set<string>, moved: seq<Session>, ids: set<string>, active: nat,
    scratchDirectory: string -> string)
    requires Walked(done, known, moved, ids, active, scratchDirectory) && Arrives(s, s', scratchDirectory)
    ensures NewIds(done + [s], known) <==> s.id != "" && s.id !in ids
    ensures s.id != "" && s.id !in ids ==>
      Walked(done + [s], known, moved + [s'], ids + {s.id},
             active + (if s.active then 1 else 0), scratchDirectory)
  {
    NewIdsGrow(done, s, known, ids);
    assert (done + [s])[..|done|] == done;
  }

  /** The sessions of one project: relocate, reject a repeated ID, count the active ones. */
  method RelocateSessions(sessions: seq<Session>, known: set<string>, scratchDirectory: string -> string)
    returns (ok: bool, moved: seq<Session>, ids: set<string>, active: nat)
    ensures ok <==> NewIds(sessions, known)
    ensures ok ==> |moved| == |sessions|
    ensures ok ==> forall i :: 0 <= i < |sessions| ==> Arrives(sessions[i], moved[i], scratchDirectory)
    ensures ok ==> forall id :: id in ids <==> id in known || Lists(sessions, id)
    ensures ok ==> active == ActiveIn(sessions)
  {
    ok, moved, ids, active := true, [], known, 0;
    for n := 0 to |sessions|
      invariant Walked(sessions[..n], known, moved, ids, active, scratchDirectory)
    {
      var s := sessions[n];
      var s' := s;
      if s.scratch { s' := s.(cwd := scratchDirectory(s.id)); }
      WalkGrows(sessions[..n], s, s', known, moved, ids, active, scratchDirectory);
      assert sessions[..n + 1] == sessions[..n] + [s];
      if s.id == "" || s.id in ids {
        NewIdsPrefix(sessions, n + 1, known);
        return false, moved, ids, active;
      }
      ids := ids + {s.id};
      moved := moved + [s'];
      if s.active { active := active + 1; }
    }
    assert sessions[..|sessions|] == sessions;
  }

  lemma NewIdsPrefix(sessions: seq<Session>, n: nat, known: set<string>)
    requires n <= |sessions| && !NewIds(sessions[..n], known)
    ensures !NewIds(sessions, known)
  {
    assert forall i :: 0 <= i < n ==> sessions[..n][i] == sessions[i];
  }

  /** The projects visited so far have unique session IDs, and these are the IDs seen. */
  ghost predicate Checked(done: Projects, ids: set<string>) {
    UniqueSessions(done) && forall id :: id in ids <==> HasId(done, id)
  }

  /** Adding a project keeps session IDs unique exactly when its own are new and distinct. */
  lemma CheckedGrows(done: Projects, room: string, project: RuntimeProject, ids: set<string>, more: set<string>)
    requires room !in done && Checked(done, ids)
    ensures UniqueSessions(done[room := project]) <==> NewIds(project.sessions, ids)
    ensures NewIds(project.sessions, ids) && (forall id :: id in more <==> id in ids || Lists(project.sessions, id)) ==>
              Checked(done[room := project], more)
  {
    var after := done[room := project];
    assert forall r, i :: Has(done, r, i) ==> Has(after, r, i) && after[r].sessions[i] == done[r].sessions[i];
    assert forall i :: 0 <= i < |project.sessions| ==>
      Has(after, room, i) && after[room].sessions[i] == project.sessions[i];
    assert forall r, i :: Has(after, r, i) ==> if r == room then 0 <= i < |project.sessions| else Has(done, r, i);
  }

  /** `moved` holds the relocated form of exactly the projects in `done`. */
  ghost predicate Relocation(done: Projects, moved: Projects, scratchDirectory: string -> string) {
    && moved.Keys == done.Keys
    && forall room :: room in done ==> room in moved && Moved(done[room], moved[room], scratchDirectory)
  }

  /** One visited project more, in every part of the account. */
  lemma AccountGrows(done: Projects, moved: Projects, room: string, project: RuntimeProject, sessions: seq<Session>,
                     scratchDirectory: string -> string)
    requires room !in done && Relocation(done, moved, scratchDirectory)
    requires Moved(project, project.(sessions := sessions), scratchDirectory)
    ensures Relocation(done[room := project], moved[room := project.(sessions := sessions)], scratchDirectory)
    ensures ActiveTotal(done[room := project]) == ActiveTotal(done) + ActiveIn(project.sessions)
  {
    var next := done[room := project];
    ActiveTotalFrom(next, room);
    assert next - {room} == done;
  }

  /** The state of the walk over the projects: `done` were visited, with these results. */
  ghost predicate Visited(
    done: Projects, moved: Projects, ids: set<string>, count: nat, scratchDirectory: string -> string)
  {
    Relocation(done, moved, scratchDirectory) && Checked(done, ids) && count == ActiveTotal(done)
  }

  lemma NothingVisited(scratchDirectory: string -> string)
    ensures Visited(map[], map[], {}, 0, scratchDirectory)
  {}

  method VisitProject(room: string, project: RuntimeProject, ghost done: Projects, moved: Projects, ids: set<string>,
                      count: nat, scratchDirectory: string -> string)
    returns (ok: bool, moved': Projects, ids': set<string>, count': nat)
    requires room !in done && Visited(done, moved, ids, count, scratchDirectory)
    ensures ok <==> UniqueSessions(done[room := project])
    ensures ok ==> Visited(done[room := project], moved', ids', count', scratchDirectory)
  {
    var sessions, active;
    ok, sessions, ids', active := RelocateSessions(project.sessions, ids, scratchDirectory);
    CheckedGrows(done, room, project, ids, ids');
    moved', count' := moved[room := project.(sessions := sessions)], count + active;
    if ok { AccountGrows(done, moved, room, project, sessions, scratchDirectory); }
  }

  /** All projects in some order. */
  method RelocateProjects(ps: Projects, scratchDirectory: string -> string)
    returns (ok: bool, moved: Projects, count: nat)
    ensures ok <==> UniqueSessions(ps)
    ensures ok ==> Relocation(ps, moved, scratchDirectory) && count == ActiveTotal(ps)
  {
    ok, moved, count := true, map[], 0;
    var keys := KeysOf(ps);
    var ids: set<string> := {};
    ghost var done: Projects := map[];
    NothingVisited(scratchDirectory);
    for n := 0 to |keys|
      invariant forall room :: room in done <==> room in keys[..n]
      invariant forall room :: room in done ==> room in ps && done[room] == ps[room]
      invariant Visited(done, moved, ids, count, scratchDirectory)
    {
      var room := keys[n];
      assert keys[..n + 1] == keys[..n] + [room];
      ghost var next := done[room := ps[room]];
      ok, moved, ids, count := VisitProject(room, ps[room], done, moved, ids, count, scratchDirectory);
      if !ok {
        SubsetUnique(next, ps);
        return;
      }
      done := next;
    }
    assert keys[..|keys|] == keys;
    assert done == ps;
    ok := true;
  }

  lemma SubsetUnique(some: Projects, all: Projects)
    requires forall room :: room in some ==> room in all && all[room] == some[room]
    requires !UniqueSessions(some)
    ensures !UniqueSessions(all)
  {
    assert forall room, i :: Has(some, room, i) ==> Has(all, room, i);
  }

  /** The source's projects without the retained room. */
  function Leaving(ps: Projects, retained: Option<string>): (r: Projects)
    ensures forall room :: room in r <==> room in ps && retained != Some(room)
    ensures forall room :: room in r ==> r[room] == ps[room]
  {
    map room | room in ps && Some(room) != retained :: ps[room]
  }

  /** The active sessions of all projects, each by its room and its place there. */
  ghost function ActiveSet(ps: Projects): set<(string, int)> {
    set room, i | room in ps && 0 <= i < |ps[room].sessions| && ps[room].sessions[i].active :: (room, i)
  }

  ghost function ActivePlaces(room: string, sessions: seq<Session>): set<(string, int)> {
    set i | 0 <= i < |sessions| && sessions[i].active :: (room, i)
  }

  lemma {:induction false} ActiveInCounts(room: string, sessions: seq<Session>)
    ensures |ActivePlaces(room, sessions)| == ActiveIn(sessions)
    decreases |sessions|
  {
    if sessions != [] {
      var n := |sessions| - 1;
      ActiveInCounts(room, sessions[..n]);
      var before, place := ActivePlaces(room, sessions[..n]), (room, n);
      assert place !in before;
      assert ActivePlaces(room, sessions) == if sessions[n].active then before + {place} else before;
    }
  }

  /** The total is the number of active sessions. */
  lemma {:induction false} ActiveTotalCounts(ps: Projects)
    ensures ActiveTotal(ps) == |ActiveSet(ps)|
    decreases |ps|
  {
    if ps == map[] {
      assert ActiveSet(ps) == {};
    } else {
      var room :| room in ps;
      ActiveTotalFrom(ps, room);
      ActiveTotalCounts(ps - {room});
      ActiveInCounts(room, ps[room].sessions);
      var here, rest := ActivePlaces(room, ps[room].sessions), ActiveSet(ps - {room});
      assert ActiveSet(ps) == here + rest && here !! rest;
    }
  }

  /** `to` is project by project what the merge has to make of both states. */
  ghost predicate HandedOver(source: Projects, target: Projects, retained: Option<string>, to: Projects,
                             scratchDirectory: string -> string) {
    && (forall room :: room in to <==> room in target || (room in source && retained != Some(room)))
    && (forall room :: room in target ==> room in to && Moved(target[room], to[room], scratchDirectory))
    && (forall room :: room in source && retained != Some(room) ==>
          room in to && Moved(source[room], to[room], scratchDirectory))
  }

  lemma SameActive(done: Projects, moved: Projects, scratchDirectory: string -> string)
    requires Relocation(done, moved, scratchDirectory)
    ensures ActiveSet(moved) == ActiveSet(done)
  {
  }

  /** `mergeRuntimeState`: succeeds exactly when both states belong to the Workspace, agree on shared
      rooms and no session ID repeats; then nothing but scratch directories changes, every project
      arrives, and the counts are those of the merged state. */
  method MergeRuntimeState(source: RuntimeState, target: RuntimeState, workspaceId: string, retained: Option<string>,
                           scratchDirectory: string -> string)
    returns (r: Option<Handover>)
    ensures r.Some? <==>
            && source.version == 3 && target.version == 3
            && source.workspaceId == workspaceId && target.workspaceId == workspaceId
            && (forall room :: room in source.projects && room in target.projects && retained != Some(room) ==>
                  source.projects[room] == target.projects[room])
            && UniqueSessions(Leaving(source.projects, retained) + target.projects)
    ensures r.Some? ==>
              && HandedOver(source.projects, target.projects, retained, r.value.projects, scratchDirectory)
              && r.value.projectCount == |r.value.projects|
              && r.value.sessionCount == |ActiveSet(r.value.projects)|
  {
    if source.version != 3 || target.version != 3
       || source.workspaceId != workspaceId || target.workspaceId != workspaceId { return None; }
    var leaving := Leaving(source.projects, retained);
    HandoffStores.AgreeMeansBounded(leaving, target.projects);
    var joined := HandoffStores.MergeRecords(leaving, target.projects);
    if joined.None? { return None; }
    var ok, moved, count := RelocateProjects(joined.value, scratchDirectory);
    if !ok { return None; }
    SameActive(joined.value, moved, scratchDirectory);
    ActiveTotalCounts(joined.value);
    r := Some(Handover(moved, |moved|, count));
  }
}

/** The process adapter of a version controller: it starts at most one Gateway, drains it before it
    is signalled, and forgets it only when its whole process group is gone. */
module ProcessHost {
  import opened Outcomes

  type Release = string

  /** One spawned process; a spawn that failed has no process ID. */
  datatype Child = Child(serial: nat, pid: Option<nat>)

  datatype Pinned = Pinned(releaseId: Release, buildId: string, executable: string)

  datatype Health = Health(buildId: string, nodeId: string, ready: bool, fenced: bool)

  /** A drain that was started for a child and has not settled yet. */
  datatype Drain = Drain(child: Child)

  /** What is awaited: the resolution of a release and the check of its stores, a drain that settles in
      time and how it ended, a signal sent to a group, and a look at it. */
  datatype Wait =
    | Resolution(id: Release)
    | Compatibility(id: Release)
    | DrainTime(child: Child)
    | DrainEnd(child: Child)
    | Sending(child: Child)
    | Probing(child: Child)

  datatype Awaited = Awaited(wait: Wait, well: bool)

  /** One look at the lock file and the health of whatever answers. */
  datatype Poll = Poll(readable: bool, lockPid: nat, health: Health)

  /** What was seen is this child, holding the lock, as its own release and node, and ready. */
  predicate IsProof(p: Poll, child: Child, admitted: Pinned, nodeId: string) {
    && p.readable && child.pid == Some(p.lockPid) && p.health.buildId == admitted.buildId
    && p.health.nodeId == nodeId && p.health.ready && !p.health.fenced
  }

  datatype Event =
    | Spawned(child: Child, replaced: Option<Child>, tracked: set<Child>, exited: set<Child>, running: set<Child>,
        drains: map<Release, Drain>, failed: bool)
    | DrainStarted(child: Child, id: Release, drains: map<Release, Drain>)
    | Drained(child: Child)
    | Signalled(child: Child)
    | Forgotten(child: Child, groups: set<Child>)
    | Terminated(child: Child)
    | Killed(child: Child, groups: set<Child>)
    | Verified(child: Child, lockPid: nat, health: Health, admitted: Pinned, nodeId: string)

  /** A spawn finds every tracked child exited, the one it replaces included, nothing running and no
      drain unsettled, and clears what was held against the release; a drain is started only if the
      release has none pending; a signal follows a drain of that very child that succeeded; a child is
      forgotten when nothing of its process group is left; one is killed only if it outlived its
      termination; and a verified child holds the writer lock and reports its own build. */
  ghost predicate EventOk(trace: seq<Event>, i: nat)
    requires i < |trace|
  {
    match trace[i]
    case Spawned(child, replaced, tracked, exited, running, drains, failed) =>
      && tracked <= exited && running == {} && drains == map[] && !failed
      && (replaced.Some? ==> replaced.value in exited)
    case DrainStarted(_, id, drains) => id !in drains
    case Drained(_) => true
    case Signalled(child) => child.pid.Some? && Drained(child) in trace[..i]
    case Forgotten(child, groups) => child !in groups
    case Terminated(child) => child.pid.Some?
    case Killed(child, groups) => child in groups && Terminated(child) in trace[..i]
    case Verified(child, lockPid, health, admitted, nodeId) =>
      && child.pid == Some(lockPid) && health.buildId == admitted.buildId && health.nodeId == nodeId
      && health.ready && !health.fenced
  }

  ghost predicate TraceOk(trace: seq<Event>) {
    forall i :: 0 <= i < |trace| ==> EventOk(trace, i)
  }

  /** The start of a drain, unless the release has one pending already. */
  function Starting(child: Child, id: Release, drains: map<Release, Drain>): seq<Event> {
    if id in drains then [] else [DrainStarted(child, id, drains)]
  }

  /** A child that still runs is drained and then signalled; one that ended needs neither. */
  function GoodbyeTo(child: Child, gone: bool, id: Release, drains: map<Release, Drain>): seq<Event> {
    if gone then [] else Starting(child, id, drains) + [Drained(child), Signalled(child)]
  }

  /** A drain that settled in time and ended well. */
  function Settled(child: Child): seq<Awaited> {
    [Awaited(DrainTime(child), true), Awaited(DrainEnd(child), true)]
  }

  predicate IsCheckOf(e: Event, child: Child, admitted: Pinned, nodeId: string) {
    e.Verified? && e.child == child && e.admitted == admitted && e.nodeId == nodeId
  }

  lemma OneMoreEvent(trace: seq<Event>, e: Event)
    requires TraceOk(trace)
    requires EventOk(trace + [e], |trace|)
    ensures TraceOk(trace + [e])
  {
    var longer := trace + [e];
    forall i | 0 <= i < |longer| ensures EventOk(longer, i) {
      if i < |trace| {
        assert EventOk(trace, i);
        assert longer[..i] == trace[..i] && longer[i] == trace[i];
      }
    }
  }

  /** The operating system: which processes run, which groups still have members, and which exits
      were reported. Left to itself it only ends processes. */
  class Machine {
    var running: set<Child>
    var groups: set<Child>
    var exited: set<Child>
    var spawned: nat

    ghost predicate Valid()
      reads this
    {
      && running <= groups && running !! exited
      && (forall c :: c in running || c in groups || c in exited ==> c.serial < spawned)
    }

    constructor ()
      ensures Valid() && running == {} && groups == {} && exited == {}
    {
      running, groups, exited, spawned := {}, {}, {}, 0;
    }

    method Elapse()
      requires Valid()
      modifies this
      ensures Valid() && running <= old(running) && groups <= old(groups) && old(exited) <= exited
      ensures spawned == old(spawned)
    {
      var survivors: set<Child> := *;
      var kept: set<Child> := *;
      var reported: set<Child> := *;
      running := running * survivors;
      groups := running + groups * kept;
      exited := exited + (set c | c in reported && c.serial < spawned && c !in running);
    }

    method Spawn() returns (child: Child)
      requires Valid()
      modifies this
      ensures Valid() && child.serial == old(spawned) && spawned == old(spawned) + 1 && exited == old(exited)
      ensures running == if child.pid.Some? then old(running) + {child} else old(running)
    {
      var pid: Option<nat> := *;
      child := Child(spawned, pid);
      spawned := spawned + 1;
      if pid.Some? { running, groups := running + {child}, groups + {child}; }
    }
  }

  class GatewayExecutionTrackProcessHost {
    var children: map<Release, Child>
    var admitted: map<Release, Pinned>
    var failures: set<Release>
    var drains: map<Release, Drain>
    const dataDirectory: string
    const os: Machine
    /** What the last admission resolved to. */
    var resolved: Pinned
    ghost var trace: seq<Event>
    ghost var polls: seq<Poll>
    /** Everything awaited that can fail, and how it ended. */
    ghost var waits: seq<Awaited>
    /** How often something awaited failed, was refused or came too late. */
    ghost var faults: nat

    ghost predicate Inv()
      reads this, os
    {
      && os.Valid() && TraceOk(trace)
      && (forall id :: id in children ==> children[id].serial < os.spawned)
      && os.running <= children.Values
      && (forall a, b :: a in os.running && b in os.running ==> a == b)
      && (forall id :: id in drains && id in children ==> drains[id].child == children[id])
      && (forall id :: id in admitted ==> admitted[id].releaseId == id)
    }

    constructor (dataDirectory: string, os: Machine)
      requires os.Valid() && os.running == {}
      ensures Inv() && children == map[] && drains == map[] && trace == [] && this.os == os
      ensures this.dataDirectory == dataDirectory
    {
      this.dataDirectory := dataDirectory;
      this.os := os;
      children, admitted, failures, drains, trace := map[], map[], {}, map[], [];
      resolved, polls, waits, faults := Pinned("", "", ""), [], [], 0;
    }

    twostate predicate Faulted()
      reads this
    {
      faults > old(faults)
    }

    /** Whether something awaited ends well. */
    method Outcome(wait: Wait) returns (ok: bool)
      modifies this`faults, this`waits
      ensures faults == old(faults) + if ok then 0 else 1
      ensures waits == old(waits) + [Awaited(wait, ok)]
    {
      ok := *;
      waits := waits + [Awaited(wait, ok)];
      if !ok { faults := faults + 1; }
    }

    /** Any await: processes end, exits are reported, and drains started earlier settle. */
    method Await()
      requires Inv()
      modifies this`failures, this`drains, os
      ensures Inv() && os.groups <= old(os.groups) && os.running <= old(os.running)
      ensures forall id :: id in drains ==> id in old(drains) && drains[id] == old(drains)[id]
    {
      os.Elapse();
      var late: set<Release> := *;
      drains := drains - late;
      var failed: set<Release> := *;
      failures := failures + failed;
    }

    method ValidateRelease(id: Release, directory: string) returns (ok: bool)
      requires Inv()
      modifies this`failures, this`drains, this`admitted, this`resolved, this`faults, this`waits, os
      ensures Inv() && faults >= old(faults)
      ensures ok ==> waits == old(waits) + [Awaited(Resolution(id), true), Awaited(Compatibility(id), true)]
      ensures ok ==> directory == dataDirectory && admitted == old(admitted)[id := resolved] && faults == old(faults)
      ensures ok ==> resolved.releaseId == id && resolved.buildId != "" && "/" <= resolved.executable
      ensures !ok ==> admitted == old(admitted)
      ensures ok || Faulted() || directory != dataDirectory
              || resolved.releaseId != id || resolved.buildId == "" || !("/" <= resolved.executable)
    {
      if directory != dataDirectory { return false; }
      Await();
      ok := Outcome(Resolution(id));
      if !ok { return false; }
      resolved := *;
      if resolved.releaseId != id || resolved.buildId == "" || !("/" <= resolved.executable) { return false; }
      Await();
      ok := Outcome(Compatibility(id));
      if ok { admitted := admitted[id := resolved]; }
    }

    /** An earlier drain has not settled, or a release other than the running one is asked for. */
    ghost predicate Busy(id: Release)
      reads this, os
    {
      || drains != map[]
      || (!(id in children && children[id] !in os.exited)
          && exists other :: other in children && children[other] !in os.exited)
    }

    /** Starts the release, or leaves its running process alone, or refuses. */
    method Activate(id: Release, directory: string, nodeId: string) returns (ok: bool)
      requires Inv()
      modifies this, os
      ensures Inv() && old(trace) <= trace
      ensures ok ==> directory == dataDirectory && id in children && old(drains) == map[]
      ensures ok && children != old(children) ==>
                && id in old(admitted) && children.Keys == old(children).Keys + {id}
                && trace != [] && IsCheckOf(trace[|trace| - 1], children[id], old(admitted)[id], nodeId)
      ensures old(Busy(id)) || directory != dataDirectory ==> !ok && children == old(children) && trace == old(trace)
      ensures old(drains == map[] && id in children && children[id] !in os.exited) && directory == dataDirectory ==>
                ok && children == old(children) && trace == old(trace)
      ensures id !in old(admitted) && !old(id in children && children[id] !in os.exited) ==>
                !ok && children == old(children) && trace == old(trace)
      ensures !old(Busy(id)) && directory == dataDirectory && id in old(admitted)
              && !old(id in children && children[id] !in os.exited) ==>
                id in children && children == old(children)[id := children[id]]
                && children[id].serial == old(os.spawned)
      ensures ok || Faulted() || old(Busy(id)) || directory != dataDirectory || id !in old(admitted)
              || children[id].pid.None? || id in failures || children[id] in os.exited
    {
      if directory != dataDirectory || drains != map[] { return false; }
      if id in children && children[id] !in os.exited { return true; }
      if exists other :: other in children && children[other] !in os.exited { return false; }
      if id !in admitted { return false; }
      failures := failures - {id};
      var child := SpawnFor(id);
      Await();
      if child.pid.None? { return false; }
      ok := VerifyActive(id, directory, nodeId);
    }

    method SpawnFor(id: Release) returns (child: Child)
      requires Inv() && drains == map[] && children.Values <= os.exited && id !in failures
      modifies this`children, this`trace, os
      ensures Inv() && children == old(children)[id := child]
      ensures trace == old(trace) + [Spawned(child, if id in old(children) then Some(old(children)[id]) else None,
                                             old(children).Values, old(os.exited), old(os.running), drains, false)]
      ensures child.serial == old(os.spawned)
    {
      ghost var running := os.running;
      child := os.Spawn();
      ghost var replaced := if id in children then Some(children[id]) else None;
      ghost var e := Spawned(child, replaced, children.Values, os.exited, running, drains, id in failures);
      OneMoreEvent(trace, e);
      trace := trace + [e];
      children := children[id := child];
      assert children[id] == child;
    }

    /** Polls until the child holds the lock and is healthy, it fails, or the deadline passes. */
    method VerifyActive(id: Release, directory: string, nodeId: string) returns (ok: bool)
      requires Inv()
      modifies this`failures, this`drains, this`trace, this`polls, this`faults, os
      ensures Inv() && old(trace) <= trace && old(polls) <= polls && faults >= old(faults)
      ensures ok ==> directory == dataDirectory && id in children && id in admitted
      ensures ok ==> trace != [] && IsCheckOf(trace[|trace| - 1], children[id], admitted[id], nodeId)
      ensures ok ==> |polls| > |old(polls)| && IsProof(polls[|polls| - 1], children[id], admitted[id], nodeId)
      ensures !ok && id in children && id in admitted ==>
                forall k :: |old(polls)| <= k < |polls| ==> !IsProof(polls[k], children[id], admitted[id], nodeId)
      ensures ok || Faulted() || directory != dataDirectory || Fallen(id)
    {
      if directory != dataDirectory { return false; }
      var deadline: int := *;
      while true
        invariant Inv() && trace == old(trace) && old(polls) <= polls && faults == old(faults)
        invariant id in children && id in admitted ==>
                    forall k :: |old(polls)| <= k < |polls| ==> !IsProof(polls[k], children[id], admitted[id], nodeId)
        decreases deadline
      {
        if Fallen(id) { return false; }
        Await();
        var seen := Look();
        if id in admitted && IsProof(seen, children[id], admitted[id], nodeId) {
          ghost var e := Verified(children[id], seen.lockPid, seen.health, admitted[id], nodeId);
          OneMoreEvent(trace, e);
          trace := trace + [e];
          return true;
        }
        Await();
        if deadline <= 0 {
          faults := faults + 1;
          return false;
        }
        deadline := deadline - 1;
      }
    }

    /** There is no process of the release, or it was reported to have ended or failed. */
    predicate Fallen(id: Release)
      reads this, os
    {
      id !in children || children[id].pid.None? || children[id] in os.exited || id in failures
    }

    method Look() returns (seen: Poll)
      modifies this`polls
      ensures polls == old(polls) + [seen]
    {
      seen := *;
      polls := polls + [seen];
    }

    /** Gives execution up: on success the release is no longer tracked, or never had a process. */
    method ReleaseExecution(id: Release) returns (ok: bool)
      requires Inv()
      modifies this`children, this`failures, this`drains, this`trace, this`faults, this`waits, os
      ensures Inv() && old(trace) <= trace && faults >= old(faults)
      ensures if ok then faults == old(faults) else Faulted()
      ensures ok && id in old(children) && old(children)[id].pid.Some? ==>
                trace == old(trace)
                         + GoodbyeTo(old(children)[id], old(children)[id] in old(os.exited), id, old(drains))
                         + [Forgotten(old(children)[id], os.groups)]
      ensures ok && id in old(children) && old(children)[id].pid.Some? && old(children)[id] !in old(os.exited) ==>
                old(waits) + Settled(old(children)[id]) + [Awaited(Sending(old(children)[id]), true)] <= waits
      ensures ok && id in children ==> children == old(children) && children[id].pid.None?
      ensures ok && id !in children ==> children == old(children) - {id}
      ensures ok && id in old(children) && old(children)[id].pid.Some? ==>
                id !in children && old(children)[id] !in os.groups && old(children)[id] !in os.running
      ensures !ok ==> children == old(children)
    {
      if id !in children || children[id].pid.None? { return true; }
      var child := children[id];
      if child !in os.exited {
        ok := DrainChild(id);
        if !ok { return false; }
        ok := SignalChild(child);
        if !ok { return false; }
      }
      ok := AwaitGroupEnd(child);
      if !ok { return false; }
      OneMoreEvent(trace, Forgotten(child, os.groups));
      trace := trace + [Forgotten(child, os.groups)];
      StillTracked(children, id, os.running);
      children := children - {id};
    }

    /** Starts or rejoins the drain. A timeout ends only this wait: the drain stays on record. */
    method DrainChild(id: Release) returns (ok: bool)
      requires Inv() && id in children && children[id].pid.Some?
      modifies this`failures, this`drains, this`trace, this`faults, this`waits, os
      ensures Inv() && old(trace) <= trace && os.groups <= old(os.groups) && faults >= old(faults)
      ensures trace == old(trace) + Starting(children[id], id, old(drains)) +
                       if ok then [Drained(children[id])] else []
      ensures ok ==> id !in drains && faults == old(faults)
      ensures ok ==> waits == old(waits) + Settled(children[id])
      ensures ok || Faulted()
    {
      if id !in drains { StartDrain(id); }
      var drain := drains[id];
      Await();
      var inTime := Outcome(DrainTime(drain.child));
      if !inTime { return false; }
      drains := drains - {id};
      ok := Outcome(DrainEnd(drain.child));
      if ok {
        OneMoreEvent(trace, Drained(drain.child));
        trace := trace + [Drained(drain.child)];
      }
    }

    method StartDrain(id: Release)
      requires Inv() && id in children && id !in drains
      modifies this`drains, this`trace
      ensures Inv() && drains == old(drains)[id := Drain(children[id])]
      ensures trace == old(trace) + Starting(children[id], id, old(drains))
    {
      ghost var e := DrainStarted(children[id], id, drains);
      OneMoreEvent(trace, e);
      trace := trace + [e];
      drains := drains[id := Drain(children[id])];
    }

    method SignalChild(child: Child) returns (ok: bool)
      requires Inv() && child.pid.Some? && Drained(child) in trace
      modifies this`trace, this`faults, this`waits
      ensures Inv() && trace == old(trace) + [Signalled(child)] && waits == old(waits) + [Awaited(Sending(child), ok)]
      ensures faults == old(faults) + if ok then 0 else 1
    {
      OneMoreEvent(trace, Signalled(child));
      trace := trace + [Signalled(child)];
      ok := Outcome(Sending(child));
    }

    /** `controllerDisconnected`: every child is asked to end, and what outlives the deadline is killed.
        Nothing is started or forgotten, and no drain is waited for. */
    method ControllerDisconnected() returns (ok: bool)
      requires Inv()
      modifies this`failures, this`drains, this`trace, this`faults, this`waits, os
      ensures Inv() && old(trace) <= trace
      ensures ok ==> forall id :: id in children ==> Ended(children[id])
      ensures ok || Faulted()
    {
      var ids := KeysOf(children);
      ok := TerminateAll(ids);
      if !ok { return; }
      for i := 0 to |ids|
        invariant Inv() && old(trace) <= trace && faults >= old(faults)
        invariant forall k :: 0 <= k < |ids| ==> Warned(children[ids[k]], trace)
        invariant forall k :: 0 <= k < i ==> Ended(children[ids[k]])
      {
        ok := EndChild(children[ids[i]]);
        if !ok { return; }
      }
    }

    /** Nothing of the child is left, or it was killed. */
    ghost predicate Ended(child: Child)
      reads this, os
    {
      child.pid.None? || child !in os.groups || exists g :: Killed(child, g) in trace
    }

    method TerminateAll(ids: seq<Release>) returns (ok: bool)
      requires Inv() && forall k :: 0 <= k < |ids| ==> ids[k] in children
      modifies this`trace, this`faults, this`waits
      ensures Inv() && old(trace) <= trace && faults >= old(faults)
      ensures ok || Faulted()
      ensures ok ==> forall k :: 0 <= k < |ids| ==> Warned(children[ids[k]], trace)
    {
      for i := 0 to |ids|
        invariant Inv() && old(trace) <= trace && faults == old(faults)
        invariant forall k :: 0 <= k < i ==> Warned(children[ids[k]], trace)
      {
        if children[ids[i]].pid.Some? {
          ok := Terminate(children[ids[i]]);
          if !ok { return false; }
        }
      }
      ok := true;
    }

    method Terminate(child: Child) returns (ok: bool)
      requires Inv() && child.pid.Some?
      modifies this`trace, this`faults, this`waits
      ensures Inv() && trace == old(trace) + [Terminated(child)] && waits == old(waits) + [Awaited(Sending(child), ok)]
      ensures faults == old(faults) + if ok then 0 else 1
    {
      OneMoreEvent(trace, Terminated(child));
      trace := trace + [Terminated(child)];
      ok := Outcome(Sending(child));
    }

    method Kill(child: Child) returns (ok: bool)
      requires Inv() && child in os.groups && Terminated(child) in trace
      modifies this`trace, this`faults, this`waits
      ensures Inv() && trace == old(trace) + [Killed(child, os.groups)]
      ensures waits == old(waits) + [Awaited(Sending(child), ok)]
      ensures faults == old(faults) + if ok then 0 else 1
    {
      OneMoreEvent(trace, Killed(child, os.groups));
      trace := trace + [Killed(child, os.groups)];
      ok := Outcome(Sending(child));
    }

    method EndChild(child: Child) returns (ok: bool)
      requires Inv() && Warned(child, trace)
      modifies this`failures, this`drains, this`trace, this`faults, this`waits, os
      ensures Inv() && old(trace) <= trace && (ok ==> Ended(child)) && os.groups <= old(os.groups)
      ensures faults == old(faults) + if ok then 0 else 1
    {
      if child.pid.None? { return true; }
      var deadline: int := *;
      while child in os.groups && deadline > 0
        invariant Inv() && trace == old(trace) && os.groups <= old(os.groups) && faults == old(faults)
        decreases deadline
      {
        Await();
        deadline := deadline - 1;
      }
      ok := Outcome(Probing(child));
      if ok && child in os.groups { ok := Kill(child); }
    }

    /** Polls the process group, which may also refuse to be probed. */
    method AwaitGroupEnd(child: Child) returns (ok: bool)
      requires Inv()
      modifies this`failures, this`drains, this`faults, this`waits, os
      ensures Inv() && (ok ==> child !in os.groups) && old(waits) <= waits
      ensures if ok then faults == old(faults) else Faulted()
    {
      var deadline: int := *;
      while child in os.groups
        invariant Inv() && faults == old(faults) && old(waits) <= waits
        decreases deadline
      {
        var probed := Outcome(Probing(child));
        if !probed { return false; }
        if deadline <= 0 {
          faults := faults + 1;
          return false;
        }
        Await();
        deadline := deadline - 1;
      }
      return true;
    }
  }

  /** Whatever is left of a child was sent its termination, or it never had a process. */
  ghost predicate Warned(child: Child, trace: seq<Event>) {
    child.pid.None? || Terminated(child) in trace
  }

  datatype Operation =
    | Admit(id: Release, directory: string)
    | Start(id: Release, directory: string, nodeId: string)
    | Release(id: Release)
    | Check(id: Release, directory: string, nodeId: string)
    | Disconnect

  /** What a call that ends well leaves of the table of children it found as `before`. */
  predicate Done(operation: Operation, before: map<Release, Child>, after: map<Release, Child>) {
    match operation
    case Admit(_, _) => after == before
    case Start(id, _, _) => id in after && before - {id} == after - {id}
    case Release(id) => (id in after ==> after[id].pid.None?) && before - {id} == after - {id}
    case Check(id, _, _) => id in after && after == before
    case Disconnect => after == before
  }

  method Serve(host: GatewayExecutionTrackProcessHost, operation: Operation) returns (ok: bool)
    requires host.Inv()
    modifies host, host.os
    ensures host.Inv() && old(host.trace) <= host.trace
    ensures ok ==> Done(operation, old(host.children), host.children)
  {
    match operation {
      case Admit(id, directory) => ok := host.ValidateRelease(id, directory);
      case Start(id, directory, nodeId) => ok := host.Activate(id, directory, nodeId);
      case Release(id) => ok := host.ReleaseExecution(id);
      case Check(id, directory, nodeId) => ok := host.VerifyActive(id, directory, nodeId);
      case Disconnect => ok := host.ControllerDisconnected();
    }
  }

  /** Every run of serialized calls: never two Gateways at once, every process that still runs is
      on record, and every step was in order. */
  method Run(host: GatewayExecutionTrackProcessHost, operations: seq<Operation>)
    returns (results: seq<bool>, ghost tables: seq<map<Release, Child>>)
    requires host.Inv()
    modifies host, host.os
    ensures host.Inv() && old(host.trace) <= host.trace
    ensures |results| == |operations| == |tables| - 1 && tables[0] == old(host.children)
    ensures forall i :: 0 <= i < |operations| && results[i] ==> Done(operations[i], tables[i], tables[i + 1])
    ensures TraceOk(host.trace)
    ensures host.os.running <= host.children.Values && |host.os.running| <= 1
  {
    results, tables := [], [host.children];
    for i := 0 to |operations|
      invariant host.Inv() && old(host.trace) <= host.trace
      invariant |results| == i == |tables| - 1 && tables[0] == old(host.children) && tables[i] == host.children
      invariant forall k :: 0 <= k < i && results[k] ==> Done(operations[k], tables[k], tables[k + 1])
    {
      var ok := Serve(host, operations[i]);
      results, tables := results + [ok], tables + [host.children];
    }
    AtMostOne(host.os.running);
  }

  lemma StillTracked(children: map<Release, Child>, id: Release, running: set<Child>)
    requires id in children && running <= children.Values && children[id] !in running
    ensures running <= (children - {id}).Values
  {
    forall c | c in running ensures c in (children - {id}).Values {
      var k :| k in children && children[k] == c;
      assert k in children - {id} && (children - {id})[k] == c;
    }
  }

  lemma AtMostOne(s: set<Child>)
    requires forall a, b :: a in s && b in s ==> a == b
    ensures |s| <= 1
  {
    if a :| a in s { assert s == {a}; }
  }
}

/** The selector that moves execution between the two tracks, with its host: every awaited call
    may fail or be the last thing the supervisor process does. */
module TrackSelector {
  import opened Outcomes
  import opened TrackRecords

  datatype Call =
    | Validate(release: Release)
    | ValidateForward(release: Release)
    | EnsureStandby(release: Release)
    | RetireStandby(release: Release)
    | ReleaseExecution(release: Release)
    | Backup
    | PrepareForwardHost
    | Activate(release: Release)
    | VerifyActive(release: Release)

  /** A host call, with the record on disk, the releases running and those forgotten when it was issued. */
  datatype Event = Event(call: Call, file: TrackState, running: set<Release>, dropped: set<Release>)

  /** Whatever happened before: execution is granted only to the persisted target of an intent
      that is already `Activating`; a forward-only target is opened only behind a persisted backup
      and write boundary; and the backup is taken only of a directory not yet upgraded, with both
      recorded tracks stopped. Apart from releases that off-track selections made the record forget,
      everything that runs is on record, only the granted release runs at a grant, and nothing at a
      backup. */
  ghost predicate EventOk(e: Event) {
    && (e.call.Activate? ==> e.file.phase == Activating && e.file.target == Some(e.call.release))
    && (e.call.Activate? && e.file.forwardOnly ==> e.file.backup.Some? && e.file.writeStarted)
    && (e.call.Backup? ==>
          && e.file.forwardOnly && e.file.backup.None? && !e.file.writeStarted
          && Pair(e.file) !! e.running)
    && e.running <= Pair(e.file) + e.dropped
    && (e.call.Activate? ==> e.running <= {e.call.release} + e.dropped)
    && (e.call.Backup? ==> e.running <= e.dropped)
  }

  /** The generations under which execution was granted, and those whose directory was backed up. */
  ghost function Grants(trace: seq<Event>): set<nat> {
    if trace == [] then {}
    else
      var last := trace[|trace| - 1];
      Grants(trace[..|trace| - 1]) + if last.call.Activate? then {last.file.generation} else {}
  }

  ghost function BackedUp(trace: seq<Event>): set<nat> {
    if trace == [] then {}
    else
      var last := trace[|trace| - 1];
      BackedUp(trace[..|trace| - 1]) + if last.call.Backup? then {last.file.generation} else {}
  }

  /** Every event is in order under a record of the run `h`; no backup comes after a grant of its
      generation; and every forward-only grant comes after a backup of its generation, in this trace or
      already on record (`before`) when it begins. */
  ghost predicate TraceOk(trace: seq<Event>, before: set<nat>, h: seq<TrackState>) {
    trace == [] ||
    var init, last := trace[..|trace| - 1], trace[|trace| - 1];
    && TraceOk(init, before, h) && EventOk(last) && last.file in h
    && (last.call.Backup? ==> last.file.generation !in Grants(init))
    && (last.call.Activate? && last.file.forwardOnly ==> last.file.generation in before + BackedUp(init))
  }

  /** One event more. */
  lemma TraceGrows(trace: seq<Event>, e: Event, before: set<nat>, h: seq<TrackState>)
    ensures Grants(trace + [e]) == Grants(trace) + if e.call.Activate? then {e.file.generation} else {}
    ensures BackedUp(trace + [e]) == BackedUp(trace) + if e.call.Backup? then {e.file.generation} else {}
    ensures TraceOk(trace + [e], before, h) <==>
      && TraceOk(trace, before, h) && EventOk(e) && e.file in h
      && (e.call.Backup? ==> e.file.generation !in Grants(trace))
      && (e.call.Activate? && e.file.forwardOnly ==> e.file.generation in before + BackedUp(trace))
  {
    assert (trace + [e])[..|trace|] == trace;
  }

  /** One record more. */
  lemma {:induction false} TraceStays(trace: seq<Event>, before: set<nat>, h: seq<TrackState>, s: TrackState)
    requires TraceOk(trace, before, h)
    ensures TraceOk(trace, before, h + [s])
    decreases |trace|
  {
    if trace != [] { TraceStays(trace[..|trace| - 1], before, h, s); }
  }

  lemma {:induction false} EventInOrder(trace: seq<Event>, before: set<nat>, h: seq<TrackState>, i: nat)
    requires TraceOk(trace, before, h) && i < |trace|
    ensures EventOk(trace[i]) && trace[i].file in h
    decreases |trace|
  {
    var n := |trace| - 1;
    if i < n { EventInOrder(trace[..n], before, h, i); }
  }

  lemma {:induction false} BackupOf(trace: seq<Event>, g: nat) returns (j: nat)
    requires g in BackedUp(trace)
    ensures j < |trace| && trace[j].call.Backup? && trace[j].file.generation == g
  {
    var n := |trace| - 1;
    if g in BackedUp(trace[..n]) { j := BackupOf(trace[..n], g); } else { j := n; }
  }

  lemma {:induction false} GrantOf(trace: seq<Event>, i: nat)
    requires i < |trace| && trace[i].call.Activate?
    ensures trace[i].file.generation in Grants(trace)
    decreases |trace|
  {
    var n := |trace| - 1;
    if i < n { GrantOf(trace[..n], i); }
  }

  /** No backup is taken once a grant was issued under its generation. */
  lemma {:induction false} NoBackupAfterGrant(trace: seq<Event>, before: set<nat>, h: seq<TrackState>, i: nat, j: nat)
    requires TraceOk(trace, before, h) && i < j < |trace| && trace[i].call.Activate? && trace[j].call.Backup?
    ensures trace[i].file.generation != trace[j].file.generation
    decreases |trace|
  {
    var n := |trace| - 1;
    if j < n { NoBackupAfterGrant(trace[..n], before, h, i, j); } else { GrantOf(trace[..n], i); }
  }

  /** The releases that the intents of a history made the record forget. */
  ghost function Forgotten(h: seq<TrackState>): set<Release> {
    if |h| < 2 then {}
    else
      var n := |h| - 1;
      Forgotten(h[..n]) + if h[n].generation == h[n - 1].generation then {} else Pair(h[n - 1]) - Pair(h[n])
  }

  lemma ForgottenGrows(h: seq<TrackState>, s: TrackState)
    requires h != []
    ensures var last := h[|h| - 1];
      Forgotten(h + [s]) == Forgotten(h) + if s.generation == last.generation then {} else Pair(last) - Pair(s)
  {
    assert (h + [s])[..|h|] == h;
  }

  /** The record at `k` names release `d` no more, which the one before it, in attention, did. */
  ghost predicate ForgottenAt(h: seq<TrackState>, k: int, d: Release) {
    && 0 < k < |h| && h[k].generation == h[k - 1].generation + 1 && h[k - 1].phase == Attention
    && d in Pair(h[k - 1]) && d !in Pair(h[k])
  }

  /** What was forgotten, an intent in attention forgot. */
  lemma {:induction false} ForgottenInAttention(h: seq<TrackState>, d: Release) returns (k: int)
    requires HistoryOk(h) && d in Forgotten(h)
    ensures ForgottenAt(h, k, d)
  {
    var n := |h| - 1;
    if d in Forgotten(h[..n]) {
      k := ForgottenInAttention(h[..n], d);
      assert ForgottenAt(h[..n], k, d);
    } else {
      k := n;
      assert Follows(h[n - 1], h[n]);
    }
  }

  /** Whatever the interruptions and retries, one generation only ever grants execution to the
      release its intent selected; for a forward-only intent no older reader is granted before the
      record turns steady, nor after it until the next intent. */
  lemma GrantsFollowTheIntent(h: seq<TrackState>, trace: seq<Event>, before: set<nat>, i: nat, k: nat)
    requires HistoryOk(h) && TraceOk(trace, before, h)
    requires i < |trace| && trace[i].call.Activate?
    requires k < |h| && h[k].generation == trace[i].file.generation
    ensures trace[i].call.release == Selected(h[k]) && trace[i].file.forwardOnly == h[k].forwardOnly
  {
    EventInOrder(trace, before, h, i);
    var m :| 0 <= m < |h| && h[m] == trace[i].file;
    if m <= k { GenerationDeterminesSelection(h, m, k); } else { GenerationDeterminesSelection(h, k, m); }
  }

  /** A grant under a generation whose intent was requested forward-only comes after the backup of that
      generation, unless that was taken before the trace begins. */
  lemma {:induction false} GrantAfterBackup(h: seq<TrackState>, trace: seq<Event>, before: set<nat>, k: nat, i: nat)
    returns (j: nat)
    requires HistoryOk(h) && TraceOk(trace, before, h) && i < |trace| && trace[i].call.Activate?
    requires k < |h| && h[k].forwardOnly && h[k].generation == trace[i].file.generation
    requires h[k].generation !in before
    ensures j < i && trace[j].call.Backup? && trace[j].file.generation == h[k].generation
    decreases |trace|
  {
    var n := |trace| - 1;
    if i < n {
      j := GrantAfterBackup(h, trace[..n], before, k, i);
    } else {
      GrantsFollowTheIntent(h, trace, before, i, k);
      j := BackupOf(trace[..n], h[k].generation);
    }
  }

  /** The calls of one completed handoff, up to the persisted steady record. */
  function HandoffCalls(s: TrackState): seq<Call>
    requires s.target.Some?
  {
    var t := s.target.value;
    [if s.forwardOnly then ValidateForward(t) else Validate(t), ReleaseExecution(s.active), ReleaseExecution(t)]
    + (if s.forwardOnly then (if s.backup.None? then [Backup] else []) + [PrepareForwardHost] else [])
    + [Activate(t), VerifyActive(t)]
  }

  class TrackHost {
    var running: set<Release>
    const forwardCapable: bool
    const canRetire: bool
    /** What the last backup and the last host preparation answered. */
    var backupPath: string
    var hostReady: bool
    ghost var trace: seq<Event>
    ghost var calls: seq<Call>
    /** How many awaited calls and file transactions did not end well. */
    ghost var faults: nat
    /** How many of them ended in a crash, and how many file transactions threw. */
    ghost var crashes: nat
    ghost var unsaved: nat

    constructor (forwardCapable: bool, canRetire: bool)
      ensures running == {} && trace == [] && calls == [] && faults == crashes == unsaved == 0
      ensures this.forwardCapable == forwardCapable && this.canRetire == canRetire
    {
      running, backupPath, hostReady := {}, "", false;
      faults, crashes, unsaved := 0, 0, 0;
      this.forwardCapable := forwardCapable;
      this.canRetire := canRetire;
      trace := [];
      calls := [];
    }

    /** A crash ends the call it comes in, and a call that ends well has lost no write of the record. */
    twostate predicate Ended(fate: Fate)
      reads this
    {
      && crashes == old(crashes) + (if fate.Crash? then 1 else 0)
      && old(unsaved) <= unsaved && (fate.Ok? ==> unsaved == old(unsaved))
    }

    ghost method Count(fate: Fate)
      modifies this`faults, this`crashes
      ensures faults == old(faults) + (if fate.Ok? then 0 else 1) && Ended(fate)
    {
      if !fate.Ok? { faults := faults + 1; }
      if fate.Crash? { crashes := crashes + 1; }
    }

    /** Any call that starts nothing. Running releases may die meanwhile; a release that
        returns normally has relinquished its track. */
    method Ask(call: Call, ghost file: TrackState, ghost dropped: set<Release>) returns (fate: Fate)
      requires !call.Activate?
      modifies this
      ensures running <= old(running)
      ensures trace == old(trace) + [Event(call, file, old(running), dropped)]
      ensures calls == old(calls) + [call]
      ensures call.ReleaseExecution? && fate.Ok? ==> call.release !in running
      ensures faults == old(faults) + (if fate.Ok? then 0 else 1) && Ended(fate) && unsaved == old(unsaved)
      ensures !call.Backup? ==> backupPath == old(backupPath)
      ensures !call.PrepareForwardHost? ==> hostReady == old(hostReady)
    {
      trace := trace + [Event(call, file, running, dropped)];
      calls := calls + [call];
      fate := *;
      Count(fate);
      if call.Backup? { backupPath := *; }
      if call.PrepareForwardHost? { hostReady := *; }
      var survivors: set<Release> := *;
      running := running * survivors;
      if call.ReleaseExecution? && fate.Ok? { running := running - {call.release}; }
    }

    /** A grant may start the release and still fail or never be heard of again. */
    method Grant(release: Release, ghost file: TrackState, ghost dropped: set<Release>) returns (fate: Fate)
      modifies this
      ensures running <= old(running) + {release}
      ensures trace == old(trace) + [Event(Activate(release), file, old(running), dropped)]
      ensures calls == old(calls) + [Activate(release)]
      ensures faults == old(faults) + (if fate.Ok? then 0 else 1) && Ended(fate) && unsaved == old(unsaved)
    {
      trace := trace + [Event(Activate(release), file, running, dropped)];
      calls := calls + [Activate(release)];
      fate := *;
      Count(fate);
      var survivors: set<Release> := *;
      running := (running + {release}) * survivors;
    }
  }

  class ExecutionTracks {
    var file: TrackState
    const host: TrackHost
    ghost var history: seq<TrackState>
    /** The releases that accepted intents made the record forget while they might have been running. */
    ghost var dropped: set<Release>
    /** The generation already backed up when the run begins, if any. */
    ghost const first: set<nat>

    ghost predicate Inv()
      reads this, host
    {
      && history != [] && history[|history| - 1] == file && HistoryOk(history)
      && TraceOk(host.trace, first, history)
      && (forall g :: g in Grants(host.trace) ==> g <= file.generation)
      && (file.forwardOnly && file.generation in Grants(host.trace) ==> file.backup.Some?)
      && host.running <= Pair(file) + dropped
      && dropped == Forgotten(history)
      && (file.backup.Some? ==> file.generation in first + BackedUp(host.trace))
    }

    /** What no operation, however it ends, takes back. */
    twostate predicate Extends()
      reads this, host
    {
      && old(history) <= history
      && old(host.trace) <= host.trace
      && old(dropped) <= dropped
      && old(host.faults) <= host.faults
    }

    /** Something awaited did not end well. */
    twostate predicate Faulted()
      reads host
    {
      host.faults > old(host.faults)
    }

    constructor (initial: TrackState, host: TrackHost)
      requires Sound(initial) && host.running <= Pair(initial) && host.trace == []
      ensures Inv() && file == initial && this.host == host && dropped == {} && history == [initial]
      ensures first == if initial.backup.Some? then {initial.generation} else {}
    {
      first := if initial.backup.Some? then {initial.generation} else {};
      file := initial;
      this.host := host;
      history := [initial];
      dropped := {};
    }

    /** A read-only transaction on the state file. */
    method Status() returns (fate: Fate, state: TrackState)
      modifies host`faults, host`crashes, host`unsaved
      ensures host.Ended(fate)
      ensures state == file && host.faults >= old(host.faults)
      ensures fate.Ok? ==> Valid(state)
      ensures Valid(file) ==> fate.Ok? || (Faulted() && (fate.Throws? ==> host.unsaved > old(host.unsaved)))
    {
      state := file;
      fate := Transaction();
      if fate.Ok? && !Valid(state) { fate := Throws; }
    }

    /** How a transaction on the file ends, as far as the file system decides. */
    method Transaction() returns (fate: Fate)
      modifies host`faults, host`crashes, host`unsaved
      ensures host.Ended(fate) && (fate.Throws? ==> host.unsaved > old(host.unsaved))
      ensures host.faults == old(host.faults) + if fate.Ok? then 0 else 1
    {
      fate := *;
      host.Count(fate);
      if fate.Throws? { host.unsaved := host.unsaved + 1; }
    }

    /** The generation-checked replacement of the record. A crash leaves the old or the new one. */
    method SaveRecord(next: TrackState) returns (fate: Fate)
      requires Inv()
      requires Sound(next) && Follows(file, next) && next.generation == file.generation
      requires host.running <= Pair(next) + dropped
      requires next.backup.Some? ==> next.generation in first + BackedUp(host.trace)
      modifies this`file, this`history, this`dropped, host`faults, host`crashes, host`unsaved
      ensures host.Ended(fate) && (fate.Throws? ==> host.unsaved > old(host.unsaved))
      ensures Inv() && old(history) <= history && dropped == old(dropped)
      ensures host.faults == old(host.faults) + if fate.Ok? then 0 else 1
      ensures fate.Ok? ==> file == next && history == old(history) + [next]
      ensures fate.Throws? ==> file == old(file) && history == old(history)
      ensures file in {old(file), next}
    {
      var r := Transact(file, Save(next));
      fate := Transaction();
      var durable: bool := *;
      if fate.Ok? || (fate.Crash? && durable) {
        Persist(r.value);
      }
    }

    /** The next record of the run, and what it forgets. */
    method Persist(next: TrackState)
      requires Inv() && Sound(next) && Follows(file, next)
      requires host.running <= Pair(file) + Pair(next) + dropped
      requires next.generation == file.generation ==> host.running <= Pair(next) + dropped
      requires next.generation == file.generation && next.forwardOnly ==>
                 next.backup.Some? || next.generation !in Grants(host.trace)
      requires next.backup.Some? ==> next.generation in first + BackedUp(host.trace)
      modifies this`file, this`history, this`dropped
      ensures Inv() && file == next && history == old(history) + [next]
      ensures dropped == old(dropped) +
                         if next.generation == old(file.generation) then {} else Pair(old(file)) - Pair(next)
    {
      ForgottenGrows(history, next);
      HistoryGrows(history, next);
      TraceStays(host.trace, first, history, next);
      if next.generation != file.generation { dropped := dropped + (Pair(file) - Pair(next)); }
      file := next;
      history := history + [file];
    }

    /** The intent transaction, a compare-and-set on generation and phase. */
    method CommitIntent(release: Release, quoted: nat, seen: Phase, forwardOnly: bool) returns (fate: Fate)
      requires Inv()
      requires file.generation == quoted && file.phase == seen ==> Selectable(file, release)
      modifies this`file, this`history, this`dropped, host`faults, host`crashes, host`unsaved
      ensures host.Ended(fate)
      ensures Inv() && Extends()
      ensures old(file.generation) != quoted || old(file.phase) != seen ==> fate.Throws? && file == old(file)
      ensures old(file.generation) == quoted && old(file.phase) == seen ==> fate.Ok? || Faulted()
      ensures fate.Ok? ==> file == Intent(old(file), release, forwardOnly)
      ensures fate.Ok? ==>
                && file.generation == quoted + 1 && file.phase == Releasing && file.target == Some(release)
                && file.forwardOnly == forwardOnly && file.backup.None? && !file.writeStarted
                && file.standby == old(file.standby)
                && (seen == Attention && release == old(file.active) ==> Some(file.active) == old(file.target))
                && (seen == Steady || release != old(file.active) ==> file.active == old(file.active))
      ensures file.generation != old(file.generation) ==> file.forwardOnly == forwardOnly
      ensures fate.Throws? ==> file == old(file)
      ensures file == old(file) || file == Intent(old(file), release, forwardOnly)
      ensures StaysOnTrack(old(file), release) ==> dropped == old(dropped)
    {
      var r := Transact(file, Commit(release, quoted, seen, forwardOnly));
      if r.None? { return Throws; }
      fate := Transaction();
      var durable: bool := *;
      if fate.Ok? || (fate.Crash? && durable) {
        if StaysOnTrack(file, release) { IntentCoversRunningExactly(file, release, forwardOnly); }
        Persist(r.value);
      }
    }

    /** Await a host call that starts nothing. */
    method Await(call: Call) returns (fate: Fate)
      requires Inv() && !call.Activate?
      requires call.Backup? ==>
                 && file.forwardOnly && file.backup.None? && !file.writeStarted
                 && Pair(file) !! host.running && host.running <= dropped
      modifies host
      ensures host.Ended(fate) && host.unsaved == old(host.unsaved)
      ensures Inv() && old(host.trace) <= host.trace
      ensures host.running <= old(host.running)
      ensures host.calls == old(host.calls) + [call]
      ensures call.ReleaseExecution? && fate.Ok? ==> call.release !in host.running
      ensures call.Backup? ==> file.generation in first + BackedUp(host.trace)
      ensures host.faults == old(host.faults) + if fate.Ok? then 0 else 1
      ensures !call.Backup? ==> host.backupPath == old(host.backupPath)
      ensures !call.PrepareForwardHost? ==> host.hostReady == old(host.hostReady)
    {
      TraceGrows(host.trace, Event(call, file, host.running, dropped), first, history);
      fate := host.Ask(call, file, dropped);
    }

    /** Await the grant of execution to the persisted target. */
    method AwaitGrant(release: Release) returns (fate: Fate)
      requires Inv() && file.phase == Activating && file.target == Some(release)
      requires file.forwardOnly ==> file.writeStarted
      requires host.running <= {release} + dropped
      modifies host
      ensures host.Ended(fate) && host.unsaved == old(host.unsaved)
      ensures Inv() && old(host.trace) <= host.trace
      ensures host.calls == old(host.calls) + [Activate(release)]
      ensures host.running <= {release} + dropped
      ensures host.faults == old(host.faults) + if fate.Ok? then 0 else 1
    {
      TraceGrows(host.trace, Event(Activate(release), file, host.running, dropped), first, history);
      fate := host.Grant(release, file, dropped);
    }

    /** The requests that are turned down on sight of record and host. */
    predicate Unselectable(release: Release, quoted: nat, allowForwardOnly: bool)
      reads this, host
    {
      || !IsReleaseId(release) || file.generation != quoted || file.phase in {Releasing, Activating}
      || (file.phase == Attention && file.forwardOnly && file.target != Some(release))
      || (file.phase == Attention && release !in Pair(file) && file.standby != Some(release))
      || (!host.forwardCapable && (allowForwardOnly || file.forwardOnly))
      || (!host.canRetire && file.phase == Steady && file.standby.Some?)
    }

    method RequestSelection(release: Release, quoted: nat, deferred: bool, allowForwardOnly: bool)
      returns (fate: Fate, state: TrackState)
      requires Inv()
      modifies this, host
      ensures host.Ended(fate)
      ensures Inv() && Extends()
      ensures StaysOnTrack(old(file), release) ==> dropped == old(dropped)
      ensures file.generation in {old(file.generation), old(file.generation) + 1}
      ensures fate.Ok? ==> quoted == old(file.generation) && IsReleaseId(release) && Selected(file) == release
      ensures fate.Ok? || Faulted() || old(Unselectable(release, quoted, allowForwardOnly))
      ensures file.generation != old(file.generation) ==> file.forwardOnly == allowForwardOnly
      ensures fate.Ok? && old(file.phase) == Steady && release != old(file.active) ==>
                file.generation == old(file.generation) + 1
      ensures fate.Ok? && deferred ==> state == file
      ensures fate.Ok? && deferred ==>
                || (file == old(file) && host.calls == old(host.calls))
                || (file.phase == Releasing
                    && host.calls == old(host.calls) + AdmitCalls(release, old(file), allowForwardOnly))
      ensures fate.Ok? && !deferred ==>
                file.phase == Steady || (file.forwardOnly && file.backup.Some? && !host.hostReady)
      ensures (fate.Ok? && !deferred && old(file.phase) == Steady && release != old(file.active) && !allowForwardOnly)
              ==> file.phase == Steady && file.active == release && file.standby == Some(old(file.active))
      ensures (fate.Ok? && file.generation != old(file.generation)
               && |AdmitCalls(release, old(file), allowForwardOnly)| == 3) ==> host.canRetire
      ensures old(file.generation) != quoted || old(file.phase) in {Releasing, Activating} ==>
                !fate.Ok? && file == old(file) && host.trace == old(host.trace)
    {
      state := file;
      if !IsReleaseId(release) { return Throws, state; }
      fate, state := Status();
      if !fate.Ok? { return; }
      var current := state;
      if current.generation != quoted { return Throws, state; }
      if current.phase != Steady && current.phase != Attention { return Throws, state; }
      if current.phase == Attention && current.forwardOnly {
        if current.target != Some(release) { return Throws, state; }
        if deferred { return Ok, current; }
        fate, state := Complete();
        return;
      }
      if current.phase == Attention && release !in Pair(current) && current.standby != Some(release) {
        return Throws, state;
      }
      if release == current.active && current.phase == Steady { return Ok, current; }
      fate, state := SelectNew(release, deferred, allowForwardOnly);
    }

    /** Admit the release, commit the intent, and complete it unless deferred. */
    method SelectNew(release: Release, deferred: bool, allowForwardOnly: bool) returns (fate: Fate, state: TrackState)
      requires Inv() && Selectable(file, release)
      modifies this, host
      ensures host.Ended(fate)
      ensures Inv() && Extends()
      ensures StaysOnTrack(old(file), release) ==> dropped == old(dropped)
      ensures file.generation in {old(file.generation), old(file.generation) + 1}
      ensures file.generation != old(file.generation) ==> file.forwardOnly == allowForwardOnly
      ensures fate.Ok? ==> file.generation == old(file.generation) + 1 && Selected(file) == release && state == file
      ensures fate.Ok? && deferred ==>
                file.phase == Releasing
                && host.calls == old(host.calls) + AdmitCalls(release, old(file), allowForwardOnly)
      ensures (fate.Ok? && !deferred && old(file.phase) == Steady && release != old(file.active) && !allowForwardOnly)
              ==> file.phase == Steady && file.active == release && file.standby == Some(old(file.active))
      ensures fate.Ok? && |AdmitCalls(release, old(file), allowForwardOnly)| == 3 ==> host.canRetire
      ensures fate.Ok? && !deferred ==>
                file.phase == Steady || (file.forwardOnly && file.backup.Some? && !host.hostReady)
      ensures fate.Ok? || Faulted() || (allowForwardOnly && !host.forwardCapable)
              || (!host.canRetire && old(file.phase) == Steady && old(file.standby).Some?)
    {
      state := file;
      fate := Ok;
      :- Admit(release, state, allowForwardOnly);
      :- CommitIntent(release, state.generation, state.phase, allowForwardOnly);
      state := file;
      if !deferred { fate, state := Complete(); }
    }

    /** The calls that admit a release: check it, free a standby slot if another release holds it, warm it up. */
    static function AdmitCalls(release: Release, current: TrackState, forwardOnly: bool): seq<Call> {
      [if forwardOnly then ValidateForward(release) else Validate(release)]
      + (if current.phase == Steady && current.standby.Some? && current.standby.value != release
         then [RetireStandby(current.standby.value)] else [])
      + [EnsureStandby(release)]
    }

    /** Check the selected release and free a standby slot for it. */
    method Admit(release: Release, current: TrackState, allowForwardOnly: bool) returns (fate: Fate)
      requires Inv()
      modifies host
      ensures host.Ended(fate) && host.unsaved == old(host.unsaved)
      ensures Inv() && old(host.trace) <= host.trace && host.faults >= old(host.faults)
      ensures fate.Ok? && allowForwardOnly ==> host.forwardCapable
      ensures fate.Ok? && |AdmitCalls(release, current, allowForwardOnly)| == 3 ==> host.canRetire
      ensures fate.Ok? ==> host.calls == old(host.calls) + AdmitCalls(release, current, allowForwardOnly)
      ensures fate.Ok? || Faulted() || (allowForwardOnly && !host.forwardCapable)
              || (!host.canRetire && current.phase == Steady
                  && current.standby.Some? && current.standby.value != release)
    {
      fate := Ok;
      :- Validated(release, allowForwardOnly);
      if current.phase == Steady && current.standby.Some? && current.standby.value != release {
        if !host.canRetire { return Throws; }
        :- Await(RetireStandby(current.standby.value));
      }
      fate := Await(EnsureStandby(release));
    }

    /** Take up the persisted intent again. */
    method Resume() returns (fate: Fate, state: TrackState)
      requires Inv()
      modifies this, host
      ensures host.Ended(fate)
      ensures Inv() && Extends() && dropped == old(dropped)
      ensures file.generation == old(file.generation)
      ensures old(file.phase) == Steady ==> file == old(file) && host.trace == old(host.trace)
      ensures fate.Ok? || Faulted() || (file.forwardOnly && !host.forwardCapable)
      ensures fate.Ok? && old(file.phase) != Steady ==> IsCompleted(old(file), file) || IsWaiting(old(file), file)
      ensures fate.Ok? ==> state == file
    {
      fate, state := Status();
      if !fate.Ok? || state.phase == Steady { return; }
      fate, state := Complete();
    }

    method StartDefault() returns (fate: Fate)
      requires Inv()
      modifies this, host
      ensures host.Ended(fate)
      ensures Inv() && Extends() && dropped == old(dropped)
      ensures file.generation == old(file.generation)
      ensures fate.Ok? && old(file.phase) == Steady ==> file == old(file)
      ensures fate.Ok? && old(file.phase) == Steady ==>
                host.calls == old(host.calls) + LaunchCalls(file.active) +
                              (if file.standby.Some? then [EnsureStandby(file.standby.value)] else [])
      ensures fate.Ok? || Faulted() || (file.forwardOnly && !host.forwardCapable && old(file.phase) != Steady)
      ensures fate.Ok? && old(file.phase) != Steady ==> IsCompleted(old(file), file) || IsWaiting(old(file), file)
      ensures fate.Throws? && file.phase != Attention ==>
                host.unsaved > old(host.unsaved)
    {
      var state;
      fate, state := Status();
      if !fate.Ok? { return; }
      if state.phase != Steady {
        fate, state := Complete();
        return;
      }
      fate := StartSteady();
    }

    /** Start the release of a steady record, which is in `Activating` meanwhile. */
    method StartSteady() returns (fate: Fate)
      requires Inv() && file.phase == Steady
      modifies this, host
      ensures host.Ended(fate)
      ensures Inv() && Extends() && dropped == old(dropped)
      ensures file.generation == old(file.generation)
      ensures fate.Ok? ==> file == old(file)
      ensures fate.Ok? ==>
                host.calls == old(host.calls) + LaunchCalls(file.active) +
                              (if file.standby.Some? then [EnsureStandby(file.standby.value)] else [])
      ensures fate.Ok? || Faulted()
      ensures fate.Throws? && file.phase != Attention ==> host.unsaved > old(host.unsaved)
    {
      var state := file;
      var starting := state.(phase := Activating, target := Some(state.active));
      fate := Ok;
      :- SaveRecord(starting);
      fate := StartAttempt(starting);
      if fate.Ok? {
        fate := PrepareOptionalStandby(state);
      } else if fate.Throws? {
        var saved := SaveRecord(starting.(phase := Attention));
        if saved.Crash? { fate := Crash; }
      }
    }

    /** The `try` block of `StartDefault`. */
    method StartAttempt(starting: TrackState) returns (fate: Fate)
      requires Inv() && file == starting && starting.phase == Activating
      requires starting.target == Some(starting.active)
      requires starting.forwardOnly ==> starting.writeStarted
      modifies this, host
      ensures host.Ended(fate)
      ensures Inv() && Extends() && dropped == old(dropped)
      ensures file in {starting, starting.(phase := Steady, target := None)}
      ensures fate.Ok? ==> file == starting.(phase := Steady, target := None)
      ensures fate.Throws? ==> file == starting
      ensures fate.Ok? ==> host.calls == old(host.calls) + LaunchCalls(starting.active)
      ensures host.faults == old(host.faults) + if fate.Ok? then 0 else 1
    {
      fate := Ok;
      :- Launch(starting.active);
      fate := SaveRecord(starting.(phase := Steady, target := None));
    }

    static function LaunchCalls(release: Release): seq<Call> {
      [Validate(release), EnsureStandby(release), Activate(release), VerifyActive(release)]
    }

    /** Check, warm up, grant and verify. */
    method Launch(release: Release) returns (fate: Fate)
      requires Inv() && file.phase == Activating && file.target == Some(release) && file.active == release
      requires file.forwardOnly ==> file.writeStarted
      modifies host
      ensures host.Ended(fate) && host.unsaved == old(host.unsaved)
      ensures Inv() && old(host.trace) <= host.trace && host.running <= {release} + dropped
      ensures fate.Ok? ==> host.calls == old(host.calls) + LaunchCalls(release)
      ensures host.faults == old(host.faults) + if fate.Ok? then 0 else 1
    {
      fate := Ok;
      :- Await(Validate(release));
      :- Await(EnsureStandby(release));
      fate := GrantAndVerify(release);
    }

    method GrantAndVerify(release: Release) returns (fate: Fate)
      requires Inv() && file.phase == Activating && file.target == Some(release)
      requires file.forwardOnly ==> file.writeStarted
      requires host.running <= {release} + dropped
      modifies host
      ensures host.Ended(fate) && host.unsaved == old(host.unsaved)
      ensures Inv() && old(host.trace) <= host.trace && host.running <= {release} + dropped
      ensures fate.Ok? ==> host.calls == old(host.calls) + [Activate(release), VerifyActive(release)]
      ensures host.faults == old(host.faults) + if fate.Ok? then 0 else 1
    {
      fate := Ok;
      :- AwaitGrant(release);
      fate := Await(VerifyActive(release));
    }

    /** `t` is what a handoff of `s` has to leave when it is done: the target active; the release it took
        over from as standby, unless the data is upgraded; and of a forward-only one, its backup. */
    static ghost predicate IsCompleted(s: TrackState, t: TrackState) {
      && s.target.Some? && t.phase == Steady && t.target.None? && t.generation == s.generation
      && t.active == s.target.value && t.forwardOnly == s.forwardOnly == t.writeStarted
      && (s.forwardOnly ==> t.standby.None? && t.backup.Some? && (s.backup.Some? ==> t.backup == s.backup))
      && (!s.forwardOnly ==>
            && t.backup == s.backup
            && t.standby == if t.active != s.active then Some(s.active) else s.standby)
    }

    /** A forward-only handoff of `s` that waits, backed up and otherwise as it was, for the target's host. */
    ghost predicate IsWaiting(s: TrackState, t: TrackState)
      reads host
    {
      && s.forwardOnly && !host.hostReady && t == s.(backup := t.backup)
      && t.backup.Some? && (s.backup.Some? ==> t.backup == s.backup)
    }

    /** Finish the persisted handoff. The surrounding `catch` records `Attention` from the
        in-memory copy, even when the steady record had already been written. */
    method Complete() returns (fate: Fate, state: TrackState)
      requires Inv() && file.phase != Steady
      modifies this, host
      ensures host.Ended(fate)
      ensures Inv() && Extends() && dropped == old(dropped)
      ensures file.generation == old(file.generation) && Selected(file) == old(Selected(file))
      ensures file.forwardOnly == old(file.forwardOnly)
      ensures fate.Ok? ==> file == state
      ensures fate.Ok? ==> IsCompleted(old(file), file) || IsWaiting(old(file), file)
      ensures fate.Ok? || Faulted() || (file.forwardOnly && !host.forwardCapable)
      ensures fate.Throws? && file.phase != Attention ==> host.unsaved > old(host.unsaved)
    {
      var attempt := file;
      fate, attempt, state := Handoff(attempt);
      if fate.Throws? {
        var saved := SaveRecord(attempt.(phase := Attention));
        if saved.Crash? { fate := Crash; }
      }
    }

    /** The `try` block of `Complete`; `s` is its in-memory record when it stops. */
    method Handoff(before: TrackState) returns (fate: Fate, s: TrackState, result: TrackState)
      requires Inv() && file == before && before.phase != Steady
      modifies this, host
      ensures host.Ended(fate)
      ensures Inv() && Extends() && dropped == old(dropped)
      ensures file.generation == before.generation && Selected(file) == Selected(before)
      ensures file.forwardOnly == before.forwardOnly
      ensures s.backup.Some? ==> s.generation in first + BackedUp(host.trace)
      ensures Sound(s) && s.phase != Steady && s.generation == before.generation && Follows(file, s)
      ensures host.running <= Pair(s) + dropped
      ensures fate.Ok? ==> file == result
      ensures fate.Ok? ==> IsCompleted(before, file) || IsWaiting(before, file)
      ensures Extends() && (fate.Ok? || Faulted() || (before.forwardOnly && !host.forwardCapable))
      ensures fate.Ok? && file.phase == Steady ==>
                host.calls == old(host.calls) + HandoffCalls(before) +
                              (if file.standby.Some? then [EnsureStandby(file.standby.value)] else [])
    {
      var reloaded;
      fate, s, reloaded := Vacate(before);
      result := s;
      if !fate.Ok? || reloaded { return; }
      fate, s, result := TakeOver(s);
    }

    /** The record is turned steady behind a verified grant, and the standby warmed up. */
    method TakeOver(before: TrackState) returns (fate: Fate, s: TrackState, result: TrackState)
      requires Inv() && file == before && before.phase != Steady
      requires before.forwardOnly ==> before.writeStarted
      requires host.running <= dropped
      modifies this, host
      ensures host.Ended(fate)
      ensures Inv() && Extends() && dropped == old(dropped)
      ensures s == before.(phase := Activating) && result == Completed(before)
      ensures file in {before, s, result}
      ensures host.running <= {s.target.value} + dropped
      ensures fate.Ok? ==> file == result
      ensures fate.Ok? || Faulted()
      ensures fate.Ok? ==>
                host.calls == old(host.calls) + [Activate(s.target.value), VerifyActive(s.target.value)] +
                              (if file.standby.Some? then [EnsureStandby(file.standby.value)] else [])
    {
      s := before.(phase := Activating);
      result := Completed(before);
      fate := Ok;
      :- Switch(before);
      fate := PrepareOptionalStandby(result);
    }

    /** Grant execution to the target of a vacated directory and record it once verified. */
    method Switch(s: TrackState) returns (fate: Fate)
      requires Inv() && file == s && s.phase != Steady
      requires s.forwardOnly ==> s.writeStarted
      requires host.running <= dropped
      modifies this, host
      ensures host.Ended(fate)
      ensures Inv() && Extends() && dropped == old(dropped)
      ensures file in {s, s.(phase := Activating), Completed(s)}
      ensures host.running <= {s.target.value} + dropped
      ensures fate.Ok? ==> file == Completed(s)
      ensures host.faults == old(host.faults) + if fate.Ok? then 0 else 1
      ensures fate.Ok? ==> host.calls == old(host.calls) + [Activate(s.target.value), VerifyActive(s.target.value)]
    {
      fate := Ok;
      :- SaveRecord(s.(phase := Activating));
      :- GrantAndVerify(s.target.value);
      fate := SaveRecord(Completed(s));
    }

    /** Stop both recorded tracks; a forward-only intent then prepares its target's first write. */
    method Vacate(before: TrackState) returns (fate: Fate, s: TrackState, reloaded: bool)
      requires Inv() && file == before && before.phase != Steady
      modifies this, host
      ensures host.Ended(fate)
      ensures Inv() && Extends() && dropped == old(dropped)
      ensures Prepared(before, s) && Prepared(before, file) && Follows(file, s)
      ensures s.backup.Some? ==> s.generation in first + BackedUp(host.trace)
      ensures fate.Ok? ==> file == s
      ensures fate.Ok? && s.forwardOnly ==> s.backup.Some? && reloaded == !host.hostReady
      ensures fate.Ok? && s.forwardOnly && !reloaded ==> s.writeStarted
      ensures fate.Ok? && reloaded ==> s == before.(backup := s.backup)
      ensures fate.Ok? || Faulted() || (before.forwardOnly && !host.forwardCapable)
      ensures fate.Ok? && !s.forwardOnly ==> s == before && !reloaded
      ensures fate.Ok? ==> host.running <= dropped
      ensures host.running <= Pair(before) + dropped
      ensures fate.Ok? ==> host.calls == old(host.calls) + HandoffCalls(before)[..|HandoffCalls(before)| - 2]
    {
      s := before;
      reloaded := false;
      :- ReleaseBoth(before);
      fate := Ok;
      if s.forwardOnly { fate, s, reloaded := PrepareForward(before); }
    }

    /** Check the target once more and stop both recorded tracks, whichever of them may run. */
    method ReleaseBoth(before: TrackState) returns (fate: Fate)
      requires Inv() && file == before && before.phase != Steady
      modifies host
      ensures host.Ended(fate) && host.unsaved == old(host.unsaved)
      ensures Inv() && old(host.trace) <= host.trace
      ensures host.running <= old(host.running)
      ensures fate.Ok? ==> Pair(before) !! host.running && host.running <= dropped
      ensures fate.Ok? ==> host.calls == old(host.calls) + HandoffCalls(before)[..3]
      ensures host.faults >= old(host.faults)
      ensures fate.Ok? || Faulted() || (before.forwardOnly && !host.forwardCapable)
    {
      fate := Ok;
      :- Validated(before.target.value, before.forwardOnly);
      :- Await(ReleaseExecution(before.active));
      fate := Await(ReleaseExecution(before.target.value));
    }

    /** The check of a release, by the rule for its kind. */
    method Validated(release: Release, forwardOnly: bool) returns (fate: Fate)
      requires Inv()
      modifies host
      ensures host.Ended(fate) && host.unsaved == old(host.unsaved)
      ensures Inv() && old(host.trace) <= host.trace && host.running <= old(host.running)
      ensures host.faults >= old(host.faults)
      ensures fate.Ok? ==> host.calls == old(host.calls) +
                           [if forwardOnly then ValidateForward(release) else Validate(release)]
      ensures fate.Ok? && forwardOnly ==> host.forwardCapable
      ensures fate.Ok? || Faulted() || (forwardOnly && !host.forwardCapable)
    {
      if forwardOnly && !host.forwardCapable { return Throws; }
      fate := Await(if forwardOnly then ValidateForward(release) else Validate(release));
    }

    /** The in-memory record of a handoff of `before` that has not reached activation. */
    static ghost predicate Prepared(before: TrackState, s: TrackState) {
      && Sound(s)
      && s == before.(backup := s.backup, writeStarted := s.writeStarted, standby := s.standby)
      && (before.backup.Some? ==> s.backup == before.backup)
      && (before.writeStarted ==> s.writeStarted)
      && (!s.forwardOnly ==> s == before)
    }

    /** Back up the stopped directory unless the intent already did, hand over to the target's own
        host, and mark the write boundary. */
    method PrepareForward(before: TrackState) returns (fate: Fate, s: TrackState, reloaded: bool)
      requires Inv() && file == before && before.phase != Steady && before.forwardOnly
      requires Pair(before) !! host.running
      modifies this, host
      ensures host.Ended(fate)
      ensures Inv() && Extends() && dropped == old(dropped)
      ensures Prepared(before, s) && Prepared(before, file) && Follows(file, s)
      ensures s.backup.Some? ==> s.generation in first + BackedUp(host.trace)
      ensures fate.Ok? ==> file == s && s.backup.Some? && reloaded == !host.hostReady
      ensures fate.Ok? && before.backup.None? ==> s.backup == Some(host.backupPath)
      ensures fate.Ok? && !reloaded ==> s.writeStarted && s.standby.None?
      ensures fate.Ok? && reloaded ==> s == before.(backup := s.backup)
      ensures fate.Ok? || Faulted()
      ensures host.running <= old(host.running)
      ensures fate.Ok? ==> host.calls == old(host.calls) +
                           (if before.backup.None? then [Backup] else []) + [PrepareForwardHost]
    {
      s := before;
      reloaded := false;
      fate := Ok;
      if s.backup.None? { fate, s := BackUp(s); }
      if !fate.Ok? { return; }
      :- Await(PrepareForwardHost);
      if !host.hostReady { return Ok, s, true; }
      s := s.(writeStarted := true, standby := None);
      fate := SaveRecord(s);
    }

    /** Back up the stopped directory and record where to. */
    method BackUp(before: TrackState) returns (fate: Fate, s: TrackState)
      requires Inv() && file == before && before.phase != Steady && before.forwardOnly && before.backup.None?
      requires Pair(before) !! host.running
      modifies this, host
      ensures host.Ended(fate)
      ensures Inv() && Extends() && dropped == old(dropped)
      ensures s == before.(backup := s.backup) && Sound(s) && file in {before, s} && Follows(file, s)
      ensures s.backup.Some? ==> s.generation in first + BackedUp(host.trace)
      ensures fate.Ok? ==> file == s && s.backup == Some(host.backupPath)
      ensures fate.Ok? || Faulted()
      ensures host.running <= old(host.running)
      ensures fate.Ok? ==> host.calls == old(host.calls) + [Backup]
    {
      s := before;
      if s.writeStarted { return Throws, s; }
      :- Await(Backup);
      s := s.(backup := Some(host.backupPath));
      fate := SaveRecord(s);
    }

    /** A verified writer stays active whatever becomes of the standby. */
    method PrepareOptionalStandby(state: TrackState) returns (fate: Fate)
      requires Inv() && file == state
      modifies this, host
      ensures host.Ended(fate)
      ensures Inv() && Extends() && dropped == old(dropped)
      ensures file == state
      ensures state.standby.None? ==> fate.Ok? && host.calls == old(host.calls)
      ensures state.standby.Some? ==> host.calls == old(host.calls) + [EnsureStandby(state.standby.value)]
      ensures fate.Ok? || Faulted()
      ensures fate.Throws? ==> host.unsaved > old(host.unsaved)
      ensures fate.Ok? && state.standby.Some? ==> history == old(history) + [state]
    {
      if state.standby.None? { return Ok; }
      fate := Await(EnsureStandby(state.standby.value));
      if fate.Crash? { return; }
      fate := SaveRecord(state);
    }
  }

  // ---------------------------------------------------------------------------
  // Whole runs
  // ---------------------------------------------------------------------------

  datatype Command =
    | Select(release: Release, quoted: nat, deferred: bool, allowForwardOnly: bool)
    | ResumeIntent
    | Start

  /** Where a command that ends well leaves the record it found as `before`. */
  ghost predicate Done(command: Command, before: TrackState, after: TrackState) {
    match command
    case Select(release, quoted, _, _) => quoted == before.generation && Selected(after) == release
    case ResumeIntent =>
      && after.generation == before.generation
      && (after.phase == Steady || (after.forwardOnly && after.backup.Some? && after.target == before.target))
    case Start =>
      && after.generation == before.generation
      && (before.phase == Steady ==> after == before)
      && (after.phase == Steady || (after.forwardOnly && after.backup.Some? && after.target == before.target))
  }

  method Serve(tracks: ExecutionTracks, command: Command) returns (fate: Fate)
    requires tracks.Inv()
    modifies tracks, tracks.host
    ensures tracks.Inv() && tracks.Extends()
    ensures fate.Ok? ==> Done(command, old(tracks.file), tracks.file)
  {
    var state := tracks.file;
    match command {
      case Select(release, quoted, deferred, allowForwardOnly) =>
        fate, state := tracks.RequestSelection(release, quoted, deferred, allowForwardOnly);
      case ResumeIntent => fate, state := tracks.Resume();
      case Start => fate := tracks.StartDefault();
    }
  }

  /** Every run: any commands in any order, each ending in success, rejection or a crash of the
      supervisor, after which the next command is served from the file alone. */
  method Run(tracks: ExecutionTracks, commands: seq<Command>) returns (fates: seq<Fate>, ghost states: seq<TrackState>)
    requires tracks.Inv()
    modifies tracks, tracks.host
    ensures tracks.Inv() && tracks.Extends()
    ensures |fates| == |commands| == |states| - 1 && states[0] == old(tracks.file) && states[|commands|] == tracks.file
    ensures forall i :: 0 <= i < |commands| && fates[i].Ok? ==> Done(commands[i], states[i], states[i + 1])
    ensures HistoryOk(tracks.history) && TraceOk(tracks.host.trace, tracks.first, tracks.history)
    ensures tracks.host.running <= Pair(tracks.file) + tracks.dropped
    ensures tracks.dropped == Forgotten(tracks.history)
  {
    fates, states := [], [tracks.file];
    for i := 0 to |commands|
      invariant tracks.Inv() && tracks.Extends()
      invariant |fates| == i == |states| - 1 && states[0] == old(tracks.file) && states[i] == tracks.file
      invariant forall k :: 0 <= k < i && fates[k].Ok? ==> Done(commands[k], states[k], states[k + 1])
    {
      var fate := Serve(tracks, commands[i]);
      fates, states := fates + [fate], states + [tracks.file];
    }
  }
}

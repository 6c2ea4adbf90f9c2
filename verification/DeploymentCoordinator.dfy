/** The blue/green deployment coordinator with its host. Requests are serialized, every awaited
    dependency may fail, and the process may die at any await. */
module DeploymentCoordinator {
  import opened Outcomes
  import opened DeploymentRecords

  datatype Call =
    | PrepareCandidate | DiscardCandidate | DrainDeployments | TransferState | CommitCandidate
    | RetainedRecovery | RotateRecovery | RestoreRecovery | RollbackPreCommit | RecoverPreparation | RecoverCommit

  datatype Answer = Committed | NotCommitted | Unknown

  /** What a dependency reports: the slots of both deployments where it names them, the one slot it is
      about, the slot it retained, or what became of a commit. */
  datatype Reply = Reply(active: Option<Slot>, candidate: Option<Slot>, slot: Slot, found: bool,
                         recovery: Option<RecoverySlot>, answer: Answer)

  /** A dependency call, with the record on disk, whether the commit was effective, and how it ended. */
  datatype Event = Event(call: Call, state: CoordinatorState, committed: bool, fate: Fate, reply: Reply)

  /** A slot the host reports must be the one the durable transaction is bound to. */
  predicate Matches(expected: Option<Slot>, actual: Slot) {
    expected.Some? && SlotOk(actual) && actual.id == expected.value.id
  }

  /** Both slots of a reply, the recorded ones where it names none, are those of the record. */
  predicate BothMatch(status: Status, reply: Reply) {
    && status.candidate.Some?
    && Matches(Some(status.active), OrElse(reply.active, status.active))
    && Matches(status.candidate, OrElse(reply.candidate, status.candidate.value))
  }

  /** What the host retained is the active deployment that is being replaced. */
  predicate RetainedMatches(status: Status, recovery: Option<RecoverySlot>) {
    recovery.Some? ==> RecoveryOk(recovery.value) && recovery.value.slot.id == status.active.id
  }

  /** The reply to a call under record `state` is about the deployments of that record. */
  ghost predicate Fits(call: Call, state: CoordinatorState, reply: Reply) {
    match call
    case RollbackPreCommit => BothMatch(state.status, reply)
    case DrainDeployments => BothMatch(state.status, reply)
    case TransferState => Matches(state.status.candidate, reply.slot)
    case PrepareCandidate => Matches(state.status.candidate, reply.slot)
    case RecoverPreparation => reply.found ==> Matches(state.status.candidate, reply.slot)
    case RetainedRecovery => RetainedMatches(state.status, reply.recovery)
    case _ => true
  }

  /** The commit is attempted only behind its durable marker; after it took effect nothing is
      rolled back, and a marked transaction is never discarded; the retained slot is moved and put
      back only while the record names it as rotated. */
  ghost predicate CallOk(call: Call, state: CoordinatorState, committed: bool) {
    match call
    case RollbackPreCommit => !committed
    case CommitCandidate => !committed && state.commitStarted && state.status.phase == Committing
    case DiscardCandidate => !committed && !state.commitStarted
    case RecoverCommit => state.commitStarted
    case RotateRecovery => state.rotated.Some?
    case RestoreRecovery => state.rotated.Some?
    case DrainDeployments => state.status.phase == Draining && state.schedule.None?
    case TransferState => state.status.phase == Transferring
    case _ => true
  }

  /** The two calls before a commit in state `s`: this transaction was drained, then its state was
      transferred, both with success, to the very candidate that is committed. */
  ghost predicate Transferred(trace: seq<Event>, s: CoordinatorState) {
    var n := |trace|;
    && n >= 2 && trace[n - 1].call == TransferState && trace[n - 1].fate.Ok?
    && trace[n - 2].call == DrainDeployments && trace[n - 2].fate.Ok?
    && trace[n - 1].state.status.updateId == trace[n - 2].state.status.updateId == s.status.updateId
    && s.status.candidate == Some(trace[n - 1].reply.slot)
  }

  /** Call `i` is in order, and a commit follows its own drain and transfer. */
  ghost predicate EventAt(trace: seq<Event>, i: int) {
    0 <= i < |trace| ==>
      && CallOk(trace[i].call, trace[i].state, trace[i].committed)
      && (trace[i].call == CommitCandidate ==> Transferred(trace[..i], trace[i].state))
  }

  ghost predicate TraceOk(trace: seq<Event>) {
    forall i {:trigger EventAt(trace, i)} :: EventAt(trace, i)
  }

  lemma TraceGrows(trace: seq<Event>, e: Event)
    requires TraceOk(trace) && CallOk(e.call, e.state, e.committed)
    requires e.call == CommitCandidate ==> Transferred(trace, e.state)
    ensures TraceOk(trace + [e])
  {
    var longer := trace + [e];
    forall i ensures EventAt(longer, i) {
      assert EventAt(trace, i);
      if 0 <= i < |trace| {
        assert longer[..i] == trace[..i];
      } else if i == |trace| {
        assert longer[..i] == trace;
      }
    }
  }

  /** No commit without its transfer: whatever the run, the call before a commit transferred the state of
      the same update to the candidate committed, and the one before that drained it. */
  lemma CommitAfterTransfer(trace: seq<Event>, i: nat)
    requires TraceOk(trace) && i < |trace| && trace[i].call == CommitCandidate
    ensures i >= 2 && trace[i - 1].call == TransferState && trace[i - 1].fate.Ok?
    ensures trace[i - 2].call == DrainDeployments && trace[i - 2].fate.Ok?
    ensures trace[i - 2].state.status.updateId == trace[i - 1].state.status.updateId == trace[i].state.status.updateId
    ensures trace[i].state.status.candidate == Some(trace[i - 1].reply.slot)
    ensures trace[i - 1].state.status.phase == Transferring && trace[i - 2].state.status.phase == Draining
  {
    assert EventAt(trace, i) && EventAt(trace, i - 1) && EventAt(trace, i - 2);
  }

  /** The numbers at `i` and `j` rise strictly and stay within `bound`. */
  ghost predicate RisesAt(ns: seq<nat>, bound: int, i: int, j: int) {
    && (0 <= i < j < |ns| ==> ns[i] < ns[j])
    && (0 <= i < |ns| ==> ns[i] <= bound)
  }

  /** So no schedule is started twice. */
  ghost predicate Rising(ns: seq<nat>, bound: int) {
    forall i, j {:trigger RisesAt(ns, bound, i, j)} :: RisesAt(ns, bound, i, j)
  }

  lemma RisingGrows(ns: seq<nat>, bound: int, n: nat)
    requires Rising(ns, bound) && n > bound
    ensures Rising(ns + [n], n)
  {
    forall i, j ensures RisesAt(ns + [n], n, i, j) {
      assert RisesAt(ns, bound, i, j) && RisesAt(ns, bound, j, i);
    }
  }

  lemma RisingWithin(ns: seq<nat>, bound: int, more: int)
    requires Rising(ns, bound) && bound <= more
    ensures Rising(ns, more)
  {
    forall i, j ensures RisesAt(ns, more, i, j) {
      assert RisesAt(ns, bound, i, j);
    }
  }

  function OrElse<T>(o: Option<T>, default: T): T {
    if o.Some? then o.value else default
  }

  class DeploymentHost {
    /** The commit of the current transaction has taken effect. */
    var committed: bool
    /** What the last call reported. */
    var reply: Reply
    const canRotate: bool
    const canRestore: bool
    const canRecoverPreparation: bool
    const canDiscard: bool
    ghost var trace: seq<Event>
    ghost var calls: seq<Call>
    /** How many awaited calls and transactions did not end well, or reported what cannot be. */
    ghost var faults: nat
    /** How many of them ended in a crash, and how many transactions on the file threw. */
    ghost var crashes: nat
    ghost var unsaved: nat

    constructor (canRotate: bool, canRestore: bool, canRecoverPreparation: bool, canDiscard: bool)
      ensures !committed && trace == [] && calls == [] && faults == crashes == unsaved == 0
      ensures this.canRotate == canRotate && this.canRestore == canRestore
      ensures this.canRecoverPreparation == canRecoverPreparation && this.canDiscard == canDiscard
    {
      committed := false;
      reply := Reply(None, None, Slot(Identity("", None, ""), 0, 0), false, None, Unknown);
      this.canRotate := canRotate;
      this.canRestore := canRestore;
      this.canRecoverPreparation := canRecoverPreparation;
      this.canDiscard := canDiscard;
      trace, calls, faults, crashes, unsaved := [], [], 0, 0, 0;
    }

    /** A crash ends the request it comes in. */
    twostate predicate Ended(fate: Fate)
      reads this
    {
      crashes == old(crashes) + (if fate.Crash? then 1 else 0) && old(unsaved) <= unsaved
    }

    /** Any dependency that does not decide the commit. */
    method Ask(call: Call, ghost state: CoordinatorState) returns (fate: Fate)
      requires call !in {CommitCandidate, RecoverCommit}
      modifies this`trace, this`calls, this`faults, this`crashes, this`reply
      ensures Recorded(call, state, committed, fate) && Ended(fate)
    {
      fate := *;
      reply := *;
      Record(call, state, committed, fate);
    }

    /** `commitCandidate`: returning normally means it took effect; failing or dying means nothing. */
    method Commit(ghost state: CoordinatorState) returns (fate: Fate)
      modifies this
      ensures Recorded(CommitCandidate, state, old(committed), fate) && Ended(fate) && unsaved == old(unsaved)
      ensures fate.Ok? ==> committed
      ensures old(committed) ==> committed
    {
      fate := *;
      reply := *;
      Record(CommitCandidate, state, committed, fate);
      var effective: bool := *;
      committed := committed || fate.Ok? || effective;
    }

    /** `recoverCommit`: a definite answer is truthful. */
    method AskCommit(ghost state: CoordinatorState) returns (fate: Fate)
      modifies this`trace, this`calls, this`faults, this`crashes, this`reply
      ensures Recorded(RecoverCommit, state, committed, fate) && Ended(fate)
      ensures fate.Ok? && reply.answer == Committed ==> committed
      ensures fate.Ok? && reply.answer == NotCommitted ==> !committed
    {
      fate := *;
      reply := *;
      if fate.Ok? && reply.answer != Unknown {
        reply := reply.(answer := if committed then Committed else NotCommitted);
      }
      Record(RecoverCommit, state, committed, fate);
    }

    /** One call more, and one fault more unless it ended well with a reply about the right deployments. */
    twostate predicate Recorded(call: Call, state: CoordinatorState, effective: bool, fate: Fate)
      reads this
    {
      && trace == old(trace) + [Event(call, state, effective, fate, reply)]
      && calls == old(calls) + [call]
      && faults == old(faults) + if fate.Ok? && Fits(call, state, reply) then 0 else 1
    }

    ghost method Record(call: Call, state: CoordinatorState, effective: bool, fate: Fate)
      modifies this`trace, this`calls, this`faults, this`crashes
      ensures Recorded(call, state, effective, fate)
      ensures crashes == old(crashes) + if fate.Crash? then 1 else 0
    {
      trace := trace + [Event(call, state, effective, fate, reply)];
      calls := calls + [call];
      if !fate.Ok? || !Fits(call, state, reply) { faults := faults + 1; }
      if fate.Crash? { crashes := crashes + 1; }
    }
  }

  class Coordinator {
    var state: CoordinatorState
    /** A promotion timer of this process is pending. */
    var armed: bool
    const host: DeploymentHost
    ghost var history: seq<Entry>
    /** Number of accepted schedules, and the numbers of those whose promotion was started. */
    ghost var schedules: nat
    ghost var started: seq<nat>

    ghost predicate Inv()
      reads this, host
    {
      && history != [] && history[|history| - 1].state == state && HistoryOk(history) && Sound(state)
      && (history[|history| - 1].committed && state.status.phase != Steady ==> host.committed)
      && (host.committed ==> state.commitStarted && HasTransition(state.status))
      && TraceOk(host.trace)
      && Rising(started, if state.schedule.Some? then schedules - 1 else schedules)
    }

    twostate predicate Extends()
      reads this, host
    {
      && old(history) <= history && old(host.trace) <= host.trace && old(started) <= started
      && old(schedules) <= schedules && old(host.faults) <= host.faults
    }

    /** Nothing that ends well has lost a transaction, unless it says so by asking for repair. */
    twostate predicate Concluded(fate: Fate)
      reads this, host
    {
      host.Ended(fate) && (fate.Ok? && state.status.phase != RepairRequired ==> host.unsaved == old(host.unsaved))
    }

    /** Something awaited did not end well. */
    twostate predicate Faulted()
      reads host
    {
      host.faults > old(host.faults)
    }

    /** `defaultState` of a computer that has no state file yet. */
    constructor (active: Slot, host: DeploymentHost)
      requires SlotOk(active) && !host.committed && host.trace == []
      ensures Inv() && this.host == host && !armed && schedules == 0 && started == []
      ensures state == CoordinatorState(Status(0, Steady, active, None, None, None), false, None, None)
    {
      state := CoordinatorState(Status(0, Steady, active, None, None, None), false, None, None);
      history := [Entry(CoordinatorState(Status(0, Steady, active, None, None, None), false, None, None), false)];
      armed := false;
      this.host := host;
      schedules := 0;
      started := [];
    }

    // ----- the state file ------------------------------------------------------------

    /** How a transaction on the file ends, as far as the file system decides. */
    method Transaction() returns (fate: Fate)
      modifies host`faults, host`crashes, host`unsaved
      ensures host.Ended(fate) && host.unsaved == old(host.unsaved) + if fate.Throws? then 1 else 0
      ensures host.faults == old(host.faults) + if fate.Ok? then 0 else 1
    {
      fate := *;
      if !fate.Ok? { host.faults := host.faults + 1; }
      if fate.Crash? { host.crashes := host.crashes + 1; }
      if fate.Throws? { host.unsaved := host.unsaved + 1; }
    }

    method ReadState() returns (fate: Fate, s: CoordinatorState)
      requires StateOk(state)
      modifies host`faults, host`crashes, host`unsaved
      ensures host.Ended(fate) && host.unsaved == old(host.unsaved) + if fate.Throws? then 1 else 0
      ensures s == state && host.faults == old(host.faults) + if fate.Ok? then 0 else 1
    {
      s := state;
      fate := Transaction();
    }

    /** One validated transaction. A crash leaves the old or the new state. A take-over closes the
        transaction its commit belonged to. */
    method Write(next: CoordinatorState) returns (fate: Fate)
      requires Inv()
      requires StateOk(next) ==> StepOk(state, next, host.committed)
      requires StateOk(next) && next.schedule.Some? ==> next.schedule == state.schedule
      modifies this`state, this`history, host`committed, host`faults, host`crashes, host`unsaved
      ensures host.Ended(fate) && (!fate.Throws? ==> host.unsaved == old(host.unsaved))
      ensures fate.Throws? ==> host.unsaved > old(host.unsaved) || !StateOk(next)
      ensures Inv() && old(history) <= history && host.faults >= old(host.faults)
      ensures fate.Ok? ==> state == next && StateOk(next) && host.faults == old(host.faults)
      ensures fate.Ok? || Faulted() || !StateOk(next)
      ensures fate.Throws? ==> state == old(state) && host.committed == old(host.committed)
      ensures state == old(state) || state == next
      ensures host.committed <==> old(host.committed) && (state.status.phase != Steady || state == old(state))
    {
      if !StateOk(next) { return Throws; }
      fate := Transaction();
      var durable: bool := *;
      if fate.Ok? || (fate.Crash? && durable) { Persist(next); }
    }

    /** The next state of the run. */
    method Persist(next: CoordinatorState)
      requires Inv() && StepOk(state, next, host.committed)
      requires next.schedule.Some? ==> next.schedule == state.schedule
      modifies this`state, this`history, host`committed
      ensures Inv() && history == old(history) + [Entry(next, old(host.committed))] && state == next
      ensures host.committed <==> old(host.committed) && next.status.phase != Steady
    {
      HistoryGrows(history, Entry(next, host.committed));
      RisingWithin(started, if state.schedule.Some? then schedules - 1 else schedules, schedules);
      history := history + [Entry(next, host.committed)];
      host.committed := host.committed && next.status.phase != Steady;
      state := next;
    }

    /** The status, with the marker where it is given; a slot that is rotated stays so until steady, a
        schedule while draining, and a marker that is not given only while committing or in repair. */
    method WriteStatus(status: Status, marker: Option<bool>) returns (fate: Fate)
      requires Inv()
      requires StateOk(WithStatus(state, status, marker)) ==>
                 StepOk(state, WithStatus(state, status, marker), host.committed)
      modifies this`state, this`history, host`committed, host`faults, host`crashes, host`unsaved
      ensures host.Ended(fate) && (!fate.Throws? ==> host.unsaved == old(host.unsaved))
      ensures fate.Throws? ==> host.unsaved > old(host.unsaved) || !StateOk(WithStatus(old(state), status, marker))
      ensures Inv() && old(history) <= history && host.faults >= old(host.faults)
      ensures fate.Ok? ==> state == WithStatus(old(state), status, marker) && StateOk(state)
      ensures fate.Ok? ==>
                && state.status == status
                && (marker.Some? ==> state.commitStarted == marker.value)
                && (marker.None? ==>
                      state.commitStarted == (old(state.commitStarted) && MayBeMarked(status.phase)))
                && (status.phase == Steady ==> state.rotated.None?)
                && (status.phase != Steady ==> state.rotated == old(state.rotated))
                && (status.phase == Draining ==> state.schedule == old(state.schedule))
                && (status.phase != Draining ==> state.schedule.None?)
      ensures fate.Ok? ==> host.faults == old(host.faults)
      ensures fate.Ok? || Faulted() || !StateOk(WithStatus(old(state), status, marker))
      ensures fate.Throws? ==> state == old(state) && host.committed == old(host.committed)
      ensures state == old(state) || state == WithStatus(old(state), status, marker)
      ensures host.committed <==> old(host.committed) && (state.status.phase != Steady || state == old(state))
    {
      fate := Write(WithStatus(state, status, marker));
    }

    method MarkRepairRequired(commitStarted: bool) returns (fate: Fate)
      requires Inv() && state.status.phase != Steady
      requires host.committed ==> commitStarted
      modifies this`state, this`history, host`committed, host`faults, host`crashes, host`unsaved
      ensures Concluded(fate)
      ensures Inv() && old(history) <= history && host.faults >= old(host.faults)
      ensures fate.Ok? ==>
                && state.status == old(state.status).(phase := RepairRequired)
                && state.commitStarted == commitStarted && state.rotated == old(state.rotated) && state.schedule.None?
      ensures fate.Ok? || Faulted()
      ensures fate.Throws? ==> state == old(state) && host.unsaved > old(host.unsaved)
      ensures host.committed == old(host.committed)
    {
      fate := WriteStatus(state.status.(phase := RepairRequired), Some(commitStarted));
    }

    // ----- awaited dependencies ------------------------------------------------------

    method Await(call: Call) returns (fate: Fate)
      requires Inv() && call !in {CommitCandidate, RecoverCommit}
      requires CallOk(call, state, host.committed)
      modifies host`trace, host`calls, host`faults, host`crashes, host`reply
      ensures Concluded(fate)
      ensures Inv() && host.Recorded(call, state, host.committed, fate) && host.unsaved == old(host.unsaved)
    {
      fate := host.Ask(call, state);
      TraceGrows(old(host.trace), Event(call, state, host.committed, fate, host.reply));
    }

    // ----- recovery ------------------------------------------------------------------

    /** Back to trial, or to repair when that goes wrong. */
    method RollbackToTrial() returns (fate: Fate)
      requires Inv() && !host.committed && state.status.phase != Steady && HasTransition(state.status)
      modifies this`state, this`history, host
      ensures Concluded(fate)
      ensures Inv() && Extends() && !host.committed
      ensures fate.Ok? ==> (state.status.phase == Trial || state.status.phase == RepairRequired) && !state.commitStarted
      ensures fate.Ok? && state.status.phase != Trial ==> Faulted()
      ensures fate.Ok? && state.status.phase == Trial && old(state.status.phase) != Trial ==>
                Advanced(old(state), state, Trial, OrElse(host.reply.active, old(state.status.active)),
                         OrElse(host.reply.candidate, old(state.status.candidate).value), false)
      ensures fate.Ok? || host.faults >= old(host.faults) + if fate.Crash? then 1 else 2
      ensures host.calls == old(host.calls) + [RollbackPreCommit]
      ensures fate.Throws? ==> state == old(state) && host.unsaved > old(host.unsaved)
    {
      fate := RollbackAttempt();
      if fate.Throws? {
        fate := MarkRepairRequired(false);
      }
    }

    method RollbackAttempt() returns (fate: Fate)
      requires Inv() && !host.committed && state.status.phase != Steady && HasTransition(state.status)
      modifies this`state, this`history, host
      ensures Concluded(fate)
      ensures Inv() && Extends() && !host.committed
      ensures fate.Ok? ==>
                Advanced(old(state), state, Trial, OrElse(host.reply.active, old(state.status.active)),
                         OrElse(host.reply.candidate, old(state.status.candidate).value), false)
      ensures fate.Ok? || Faulted()
      ensures host.calls == old(host.calls) + [RollbackPreCommit]
      ensures fate.Throws? ==> state == old(state)
    {
      fate := Ok;
      :- Await(RollbackPreCommit);
      var active := OrElse(host.reply.active, state.status.active);
      var candidate := OrElse(host.reply.candidate, state.status.candidate.value);
      if !BothMatch(state.status, host.reply) { return Throws; }
      fate := WriteStatus(state.status.(phase := Trial, active := active, candidate := Some(candidate)), Some(false));
    }

    /** The take-over of an effective commit, with what the host retained of the old release. */
    method FinishCommit() returns (fate: Fate)
      requires Inv() && host.committed
      modifies this`state, this`history, host
      ensures Concluded(fate)
      ensures Inv() && Extends()
      ensures fate.Ok? ==> !host.committed && CommitStep(old(state), state)
      ensures fate.Ok? ==> TakenOver(old(state), state, host.reply.recovery)
      ensures fate.Ok? ==> RetainedMatches(old(state).status, host.reply.recovery)
      ensures fate.Ok? ==> host.calls == old(host.calls) + [RetainedRecovery]
      ensures fate.Ok? ==> host.trace == old(host.trace) + [Event(RetainedRecovery, old(state), true, Ok, host.reply)]
      ensures fate.Ok? || Faulted()
      ensures fate.Throws? ==> state == old(state) && host.committed
    {
      var status := state.status;
      :- Await(RetainedRecovery);
      var recovery := host.reply.recovery;
      if !RetainedMatches(status, recovery) { return Throws; }
      fate := WriteStatus(CommittedStatus(status, recovery), Some(false));
    }

    /** Recovery of an interrupted switch; `rethrow` is the variant after a failed promotion, which
        does not catch its own failures. */
    method SettleCommit(rethrow: bool) returns (fate: Fate)
      requires Inv() && state.commitStarted && HasTransition(state.status)
      modifies this`state, this`history, host
      ensures Concluded(fate)
      ensures Inv() && Extends()
      ensures fate.Ok? ==> AtRest(state.status.phase)
      ensures fate.Ok? && state.status.phase == Steady ==> old(host.committed) && CommitStep(old(state), state)
      ensures fate.Ok? && state.status.phase == Trial ==> !old(host.committed)
      ensures fate.Ok? && state.status.phase == RepairRequired ==> Faulted() || host.reply.answer == Unknown
      ensures fate.Ok? || Faulted()
      ensures fate.Throws? && !rethrow ==> host.unsaved > old(host.unsaved)
      ensures fate.Throws? ==> state == old(state)
    {
      fate := SettleAttempt();
      if fate.Throws? && !rethrow {
        fate := MarkRepairRequired(true);
      }
    }

    method SettleAttempt() returns (fate: Fate)
      requires Inv() && state.commitStarted && HasTransition(state.status)
      modifies this`state, this`history, host
      ensures Concluded(fate)
      ensures Inv() && Extends()
      ensures fate.Ok? ==> AtRest(state.status.phase)
      ensures fate.Ok? && state.status.phase == Steady ==> old(host.committed) && CommitStep(old(state), state)
      ensures fate.Ok? && state.status.phase == Trial ==> !old(host.committed)
      ensures fate.Ok? && state.status.phase == RepairRequired ==> Faulted() || host.reply.answer == Unknown
      ensures fate.Ok? || Faulted()
      ensures fate.Throws? ==> state == old(state) && host.committed == old(host.committed)
    {
      fate := host.AskCommit(state);
      TraceGrows(old(host.trace), Event(RecoverCommit, state, host.committed, fate, host.reply));
      if !fate.Ok? { return; }
      match host.reply.answer {
        case Committed => fate := FinishCommit();
        case NotCommitted => fate := RollbackToTrial();
        case Unknown => fate := MarkRepairRequired(true);
      }
    }

    // ----- promotion -----------------------------------------------------------------

    /** Drain, transfer, mark, commit, take over, in this order and with nothing between. */
    method SwitchAttempt() returns (fate: Fate)
      requires Inv() && state.status.phase == Draining && state.schedule.None?
      modifies this`state, this`history, host
      ensures Concluded(fate)
      ensures Inv() && Extends()
      ensures fate.Ok? ==> state.status.phase == Steady && Matches(old(state.status.candidate), state.status.active)
      ensures fate.Ok? ==> state.status.generation == old(state.status.generation) + 1
      ensures fate.Ok? ==>
                host.calls == old(host.calls) + [DrainDeployments, TransferState, CommitCandidate, RetainedRecovery]
      ensures fate.Ok? ==>
                var n := |old(host.trace)|;
                && |host.trace| == n + 4 && state.status.active == host.trace[n + 1].reply.slot
                && state.status.recovery == host.trace[n + 3].reply.recovery
      ensures fate.Ok? || Faulted()
      ensures fate.Throws? ==>
                (var p := state.status.phase; p == Draining || p == Transferring || p == Committing)
      ensures fate.Throws? ==> Matches(old(state.status.candidate), state.status.candidate.value)
      ensures fate.Throws? && state.status.phase != Committing ==> !state.commitStarted
    {
      fate := Ok;
      :- DrainAndTransfer();
      :- MarkCommit();
      :- CommitNow();
      fate := FinishCommit();
    }

    /** Both deployments are drained and the candidate receives all state. */
    method DrainAndTransfer() returns (fate: Fate)
      requires Inv() && state.status.phase == Draining && state.schedule.None?
      modifies this`state, this`history, host
      ensures Concluded(fate)
      ensures Inv() && Extends() && !host.committed && !state.commitStarted
      ensures (state.status.phase == Draining || state.status.phase == Transferring)
      ensures state.status.active.id == old(state.status.active.id) && state.rotated == old(state.rotated)
      ensures Matches(old(state.status.candidate), state.status.candidate.value)
      ensures state.status.generation == old(state.status.generation)
      ensures state.status.updateId == old(state.status.updateId)
      ensures fate.Ok? ==> host.calls == old(host.calls) + [DrainDeployments, TransferState]
      ensures fate.Ok? ==>
                var n := |old(host.trace)|;
                && |host.trace| == n + 2
                && host.trace[n] == Event(DrainDeployments, old(state), false, Ok, host.trace[n].reply)
                && host.trace[n + 1] == Event(TransferState, state, false, Ok, host.reply)
                && Advanced(old(state), state, Transferring,
                            OrElse(host.trace[n].reply.active, old(state.status.active)),
                            OrElse(host.trace[n].reply.candidate, old(state.status.candidate).value), false)
      ensures fate.Ok? && !Matches(state.status.candidate, host.reply.slot) ==> Faulted()
      ensures fate.Ok? || Faulted()
    {
      fate := Ok;
      :- Await(DrainDeployments);
      var active := OrElse(host.reply.active, state.status.active);
      var candidate := OrElse(host.reply.candidate, state.status.candidate.value);
      if !BothMatch(state.status, host.reply) { return Throws; }
      :- WriteStatus(state.status.(phase := Transferring, active := active, candidate := Some(candidate)), None);
      fate := Await(TransferState);
    }

    /** The durable marker, with the candidate as the transfer left it. */
    method MarkCommit() returns (fate: Fate)
      requires Inv() && !host.committed && state.status.phase == Transferring && |host.trace| >= 2
      requires host.trace[|host.trace| - 1] == Event(TransferState, state, false, Ok, host.reply)
      requires var drain := host.trace[|host.trace| - 2];
        drain.call == DrainDeployments && drain.fate.Ok? && drain.state.status.updateId == state.status.updateId
      modifies this`state, this`history, host`committed, host`faults, host`crashes, host`unsaved
      ensures Concluded(fate)
      ensures Inv() && old(history) <= history && host.faults >= old(host.faults) && !host.committed
      ensures fate.Ok? ==>
                && Advanced(old(state), state, Committing, old(state.status.active), host.reply.slot, true)
                && Matches(old(state.status.candidate), state.status.candidate.value)
                && Transferred(host.trace, state) && host.faults == old(host.faults)
      ensures fate.Ok? || Faulted() || !Matches(old(state.status.candidate), host.reply.slot)
      ensures fate.Throws? ==> state == old(state)
    {
      if !Matches(state.status.candidate, host.reply.slot) { return Throws; }
      fate := WriteStatus(state.status.(phase := Committing, candidate := Some(host.reply.slot)), Some(true));
    }

    method CommitNow() returns (fate: Fate)
      requires Inv() && !host.committed && state.commitStarted && state.status.phase == Committing
      requires Transferred(host.trace, state)
      modifies host
      ensures Concluded(fate)
      ensures Inv() && old(host.trace) <= host.trace && (fate.Ok? ==> host.committed)
      ensures host.Recorded(CommitCandidate, state, false, fate) && host.unsaved == old(host.unsaved)
    {
      fate := host.Commit(state);
      TraceGrows(old(host.trace), Event(CommitCandidate, state, false, fate, host.reply));
    }

    /** A promotion that fails is settled by the marker on disk, and the failure is reported anyway. */
    method PerformPromotion() returns (fate: Fate)
      requires Inv() && state.status.phase == Draining && state.schedule.None?
      modifies this`state, this`history, host
      ensures Concluded(fate)
      ensures Inv() && Extends()
      ensures fate.Ok? ==> state.status.phase == Steady && Matches(old(state.status.candidate), state.status.active)
      ensures fate.Ok? ==>
                host.calls == old(host.calls) + [DrainDeployments, TransferState, CommitCandidate, RetainedRecovery]
      ensures fate.Ok? || Faulted()
      ensures fate.Throws? ==>
                || (state.status.phase == Trial || state.status.phase == RepairRequired)
                || (state.status.phase == Steady && Matches(old(state.status.candidate), state.status.active))
                || host.faults >= old(host.faults) + 2
    {
      fate := SwitchAttempt();
      if fate.Throws? {
        var latest;
        var recovered;
        recovered, latest := ReadState();
        if recovered.Ok? {
          if latest.commitStarted || latest.status.phase == Committing {
            recovered := SettleCommit(true);
          } else {
            recovered := RollbackToTrial();
          }
        }
        if recovered.Crash? { fate := Crash; }
      }
    }

    method Promote(updateId: string) returns (fate: Fate)
      requires Inv()
      modifies this, host
      ensures Concluded(fate)
      ensures Inv() && Extends() && armed == old(armed)
      ensures fate.Ok? ==> old(state.status.phase) == Trial && old(state.status.updateId) == Some(updateId)
      ensures fate.Ok? ==> state.status.phase == Steady && Matches(old(state.status.candidate), state.status.active)
      ensures fate.Ok? ==>
                host.calls == old(host.calls) + [DrainDeployments, TransferState, CommitCandidate, RetainedRecovery]
      ensures fate.Ok? || Faulted() || old(state.status.updateId) != Some(updateId) || old(state.status.phase) != Trial
    {
      var current;
      fate, current := ReadState();
      if !fate.Ok? { return; }
      if current.status.updateId != Some(updateId) || current.status.phase != Trial { return Throws; }
      :- WriteStatus(current.status.(phase := Draining), None);
      fate := PerformPromotion();
    }

    method SchedulePromote(updateId: string, mode: Mode, at: nat) returns (fate: Fate)
      requires Inv()
      modifies this, host
      ensures Concluded(fate)
      ensures Inv() && Extends()
      ensures fate.Ok? ==> state.status.phase == Draining && state.schedule.Some?
      ensures fate.Ok? ==> state.schedule.value.updateId == updateId && state.schedule.value.mode == mode
      ensures fate.Ok? ==>
                || (state == old(state) && armed == old(armed))
                || (armed && old(state.status.phase) == Trial && state.schedule.value.at == at)
      ensures fate.Ok? || Faulted() || old(state.status.updateId) != Some(updateId)
              || old(state.status.phase !in {Trial, Draining})
              || old(state.status.phase == Draining && (state.schedule.None? || state.schedule.value.mode != mode))
      ensures fate.Throws? ==> state == old(state)
    {
      var current;
      fate, current := ReadState();
      if !fate.Ok? { return; }
      if current.status.phase == Draining && current.schedule.Some?
         && current.schedule.value.updateId == updateId && current.schedule.value.mode == mode { return Ok; }
      if current.status.updateId != Some(updateId) || current.status.phase != Trial { return Throws; }
      :- WriteSchedule(Schedule(updateId, mode, at));
      armed := true;
      fate := Ok;
    }

    /** One transaction moves to draining and records the schedule. */
    method WriteSchedule(schedule: Schedule) returns (fate: Fate)
      requires Inv() && state.status.phase == Trial && state.status.updateId == Some(schedule.updateId)
      modifies this`state, this`history, this`schedules, host`faults, host`crashes, host`unsaved
      ensures host.Ended(fate) && host.unsaved == old(host.unsaved) + if fate.Throws? then 1 else 0
      ensures Inv() && Extends()
      ensures fate.Ok? ==>
                state == old(state).(status := old(state.status).(phase := Draining), schedule := Some(schedule))
      ensures fate.Ok? ==> schedules == old(schedules) + 1
      ensures fate.Ok? || Faulted()
      ensures fate.Throws? ==> state == old(state)
    {
      var status := state.status.(phase := Draining);
      var next := state.(status := status, schedule := Some(schedule), commitStarted := false);
      fate := Transaction();
      var durable: bool := *;
      if fate.Ok? || (fate.Crash? && durable) {
        HistoryGrows(history, Entry(next, host.committed));
        history := history + [Entry(next, host.committed)];
        state := next;
        schedules := schedules + 1;
      }
    }

    /** The promotion timer fires: the schedule is consumed durably before anything starts. */
    method FireTimer() returns (fate: Fate)
      requires Inv()
      modifies this, host
      ensures Concluded(fate)
      ensures Inv() && Extends() && !armed
      ensures |started| <= |old(started)| + 1
      ensures started != old(started) ==> old(state.schedule).Some? && started[|started| - 1] == old(schedules)
      ensures old(armed && state.schedule.Some?) ==> started != old(started) || Faulted()
      ensures started != old(started) && fate.Ok? ==>
                state.status.phase == Steady && Matches(old(state.status.candidate), state.status.active)
      ensures !old(armed) ==> fate.Ok? && unchanged(this) && unchanged(host)
      ensures fate.Ok? || Faulted()
      ensures started == old(started) && fate.Ok? ==> state == old(state) && host.calls == old(host.calls)
    {
      if !armed { return Ok; }
      armed := false;
      var s;
      fate, s := ReadState();
      if !fate.Ok? || s.schedule.None? || s.status.phase != Draining { return; }
      :- ConsumeSchedule();
      fate := PerformPromotion();
    }

    method ConsumeSchedule() returns (fate: Fate)
      requires Inv() && state.schedule.Some?
      modifies this`state, this`history, this`started, host`committed,
               host`faults, host`crashes, host`unsaved
      ensures Concluded(fate)
      ensures Inv() && Extends() && state.status == old(state.status)
      ensures fate.Ok? ==> state.schedule.None? && started == old(started) + [schedules]
      ensures fate.Ok? || Faulted()
      ensures !fate.Ok? ==> started == old(started)
    {
      RisingGrows(started, schedules - 1, schedules);
      fate := Ok;
      :- Write(state.(schedule := None));
      started := started + [schedules];
    }

    // ----- candidates ----------------------------------------------------------------

    /** The requests for a candidate that are turned down on sight of record and host. */
    predicate Unpreparable(updateId: string, node: string, release: string, build: string)
      reads this, host
    {
      || (state.status.candidate.Some?
          && !(state.status.candidate.value.id.release == Some(release) && state.status.phase == Trial))
      || (state.status.candidate.None? && state.status.phase != Steady)
      || !SlotOk(Slot(Identity(node, Some(release), build), 0, 0)) || !OpaqueId(updateId)
      || node == state.status.active.id.node
      || (state.status.recovery.Some? && !(host.canRotate && host.canRestore))
    }

    method Prepare(updateId: string, node: string, release: string, build: string) returns (fate: Fate)
      requires Inv()
      modifies this, host
      ensures Concluded(fate)
      ensures Inv() && Extends() && armed == old(armed)
      ensures fate.Ok? ==> state.status.phase == Trial && state.status.candidate.value.id.release == Some(release)
      ensures fate.Ok? && old(state.status.phase) == Steady ==>
                && state.status.candidate.value.id == Identity(node, Some(release), build)
                && state.status.updateId == Some(updateId) && state.status.active == old(state.status.active)
                && state.status.generation == old(state.status.generation)
                && host.calls == old(host.calls) + (if old(state.status.recovery).Some? then [RotateRecovery] else [])
                                 + [PrepareCandidate]
      ensures old(state.status.phase) != Steady ==> state == old(state) && host.calls == old(host.calls)
      ensures fate.Ok? && old(state.status.phase == Steady && state.status.recovery.Some?) ==>
                host.canRotate && host.canRestore
      ensures fate.Ok? || Faulted() || old(Unpreparable(updateId, node, release, build))
    {
      var current;
      fate, current := ReadState();
      if !fate.Ok? { return; }
      if current.status.candidate.Some? {
        var same := current.status.candidate.value.id.release == Some(release) && current.status.phase == Trial;
        return if same then Ok else Throws;
      }
      if current.status.phase != Steady { return Throws; }
      var candidate := Slot(Identity(node, Some(release), build), 0, 0);
      if !SlotOk(candidate) || node == current.status.active.id.node { return Throws; }
      fate := PrepareFromSteady(candidate, updateId);
    }

    method PrepareFromSteady(candidate: Slot, updateId: string) returns (fate: Fate)
      requires Inv() && state.status.phase == Steady && SlotOk(candidate)
      modifies this`state, this`history, host
      ensures Concluded(fate)
      ensures Inv() && Extends()
      ensures fate.Ok? ==>
                && state.status.phase == Trial && state.status.updateId == Some(updateId)
                && state.status.active == old(state.status.active)
                && state.status.generation == old(state.status.generation)
                && state.rotated == old(state.status.recovery)
      ensures fate.Ok? ==> Matches(Some(candidate), state.status.candidate.value)
      ensures fate.Ok? ==> state.status.candidate == Some(host.reply.slot)
      ensures fate.Ok? ==>
                host.calls == old(host.calls)
                              + (if old(state.status.recovery).Some? then [RotateRecovery] else []) + [PrepareCandidate]
      ensures fate.Throws? ==>
                (var p := state.status.phase; p == Steady || p == RepairRequired || p == Preparing)
      ensures fate.Throws? && state.status.phase == Preparing ==> host.unsaved > old(host.unsaved)
      ensures fate.Throws? && state.status.phase == Steady ==>
                state.status.active == old(state.status.active) && state.status.recovery == old(state.status.recovery)
                && state.status.candidate.None? && state.status.generation == old(state.status.generation)
      ensures fate.Ok? && old(state.status.recovery).Some? ==> host.canRotate && host.canRestore
      ensures fate.Ok? || Faulted() || !OpaqueId(updateId) || candidate.id.node == old(state.status.active.id.node)
              || old(state.status.recovery.Some? && !(host.canRotate && host.canRestore))
    {
      var previous := state.status.recovery;
      if previous.Some? {
        :- RotateOut();
      }
      fate := PrepareNow(candidate, updateId);
    }

    /** The preparation proper, once a retained slot is out of the way. */
    method PrepareNow(candidate: Slot, updateId: string) returns (fate: Fate)
      requires Inv() && state.status.phase == Steady && SlotOk(candidate) && state.status.recovery == state.rotated
      modifies this`state, this`history, host
      ensures Concluded(fate)
      ensures Inv() && Extends()
      ensures fate.Ok? ==>
                && state.status.phase == Trial && state.status.updateId == Some(updateId)
                && state.status.active == old(state.status.active) && state.rotated == old(state.rotated)
                && state.status.generation == old(state.status.generation)
                && Matches(Some(candidate), state.status.candidate.value)
                && state.status.candidate == Some(host.reply.slot)
                && host.calls == old(host.calls) + [PrepareCandidate]
      ensures fate.Throws? ==>
                (var p := state.status.phase; p == Steady || p == RepairRequired || p == Preparing)
      ensures fate.Throws? && state.status.phase == Preparing ==> host.unsaved > old(host.unsaved)
      ensures fate.Throws? && state.status.phase == Steady ==>
                state == old(state) || BackToSteady(old(state), state, old(state.rotated))
      ensures fate.Ok? || Faulted() || !OpaqueId(updateId) || candidate.id.node == old(state.status.active.id.node)
    {
      fate := Ok;
      :- WriteStatus(state.status.(phase := Preparing, recovery := None, candidate := Some(candidate),
                                   updateId := Some(updateId)), None);
      fate := PrepareAttempt();
      if fate.Throws? {
        var cleaned := CleanUpPreparation(state.rotated);
        if cleaned.Crash? { fate := Crash; }
      }
    }

    /** Record the retained slot as rotated, then let the host move it out of the way. */
    method RotateOut() returns (fate: Fate)
      requires Inv() && state.status.phase == Steady && state.status.recovery.Some?
      modifies this`state, this`history, host
      ensures Concluded(fate)
      ensures Inv() && Extends() && !host.committed
      ensures state.status == old(state.status)
      ensures fate.Ok? ==> state == old(state).(rotated := old(state.status.recovery))
      ensures fate.Ok? ==>
                host.trace == old(host.trace) + [Event(RotateRecovery, state, false, Ok, host.reply)]
                && host.calls == old(host.calls) + [RotateRecovery]
      ensures fate.Ok? ==> host.canRotate && host.canRestore
      ensures fate.Throws? && host.calls != old(host.calls) ==>
                host.calls == old(host.calls) + [RotateRecovery, RestoreRecovery]
      ensures fate.Ok? || Faulted() || !host.canRotate || !host.canRestore
      ensures fate.Throws? && host.canRotate && host.canRestore && state.rotated.Some? && old(state.rotated).None? ==>
                host.faults >= old(host.faults) + 2
    {
      if !host.canRotate || !host.canRestore { return Throws; }
      :- Write(state.(rotated := state.status.recovery));
      fate := Await(RotateRecovery);
      if fate.Throws? {
        :- Await(RestoreRecovery);
        var undone := Write(state.(rotated := None));
        if undone.Crash? { fate := Crash; }
      }
    }

    method PrepareAttempt() returns (fate: Fate)
      requires Inv() && state.status.phase == Preparing && !state.commitStarted
      modifies this`state, this`history, host
      ensures Concluded(fate)
      ensures Inv() && Extends()
      ensures fate.Ok? ==>
                Advanced(old(state), state, Trial, old(state.status.active), host.reply.slot, false)
                && Matches(old(state.status.candidate), host.reply.slot)
                && host.calls == old(host.calls) + [PrepareCandidate]
      ensures fate.Ok? || Faulted()
      ensures fate.Throws? ==> state == old(state)
    {
      fate := Ok;
      :- Await(PrepareCandidate);
      if !Matches(state.status.candidate, host.reply.slot) { return Throws; }
      fate := WriteStatus(state.status.(phase := Trial, candidate := Some(host.reply.slot)), None);
    }

    /** A failed preparation is abandoned, or else marked for repair. */
    method CleanUpPreparation(previous: Option<RecoverySlot>) returns (fate: Fate)
      requires Inv() && state.status.phase == Preparing && !state.commitStarted && state.rotated == previous
      modifies this`state, this`history, host
      ensures Concluded(fate)
      ensures Inv() && Extends()
      ensures fate.Ok? ==> BackToSteady(old(state), state, previous) || state.status.phase == RepairRequired
      ensures fate.Ok? && state.status.phase == RepairRequired ==> Faulted()
      ensures fate.Ok? || Faulted()
      ensures fate.Throws? ==> state == old(state) && host.unsaved > old(host.unsaved)
    {
      fate := AbandonPreparation(previous);
      if fate.Throws? { fate := MarkRepairRequired(false); }
    }

    /** Remove the candidate, put the retained slot back, and return to steady. */
    method AbandonPreparation(previous: Option<RecoverySlot>) returns (fate: Fate)
      requires Inv() && state.status.phase == Preparing && !state.commitStarted && state.rotated == previous
      modifies this`state, this`history, host
      ensures Concluded(fate)
      ensures Inv() && Extends()
      ensures fate.Ok? ==> BackToSteady(old(state), state, previous)
      ensures fate.Ok? ==>
                host.calls == old(host.calls) + (if host.canDiscard then [DiscardCandidate] else [])
                              + (if previous.Some? && host.canRestore then [RestoreRecovery] else [])
      ensures fate.Ok? || Faulted()
      ensures fate.Throws? ==> state == old(state)
    {
      if host.canDiscard { :- Await(DiscardCandidate); }
      fate := RestoreSteady();
    }

    /** The candidate is gone: the host puts the rotated slot back, as far as it can, and the record
        returns to steady with it as recovery. */
    method RestoreSteady() returns (fate: Fate)
      requires Inv() && (state.status.phase == Preparing || state.status.phase == Discarding)
      modifies this`state, this`history, host
      ensures Concluded(fate)
      ensures Inv() && Extends()
      ensures fate.Ok? ==> BackToSteady(old(state), state, old(state.rotated))
      ensures fate.Ok? ==>
                host.calls == old(host.calls)
                              + (if old(state.rotated).Some? && host.canRestore then [RestoreRecovery] else [])
      ensures fate.Ok? && old(state.rotated).Some? && host.canRestore ==>
                host.trace == old(host.trace) + [Event(RestoreRecovery, old(state), false, Ok, host.reply)]
      ensures fate.Ok? || Faulted()
      ensures fate.Throws? ==> state == old(state)
    {
      if state.rotated.Some? && host.canRestore { :- Await(RestoreRecovery); }
      fate := WriteStatus(SteadyStatus(state.status, state.rotated), Some(false));
    }

    method Discard(updateId: string) returns (fate: Fate)
      requires Inv()
      modifies this, host
      ensures Concluded(fate)
      ensures Inv() && Extends() && armed == old(armed)
      ensures fate.Ok? ==> old(state.status.phase) == Trial && old(state.status.updateId) == Some(updateId)
      ensures fate.Ok? ==> BackToSteady(old(state), state, old(state.rotated))
      ensures fate.Ok? ==>
                host.calls == old(host.calls) + (if host.canDiscard then [DiscardCandidate] else [])
                              + (if old(state.rotated).Some? then [RestoreRecovery] else [])
      ensures fate.Throws? && state != old(state) ==> host.unsaved > old(host.unsaved)
      ensures fate.Ok? || Faulted() || old(state.status.updateId != Some(updateId) || state.status.phase != Trial)
              || old(state.rotated.Some? && !host.canRestore)
    {
      var current;
      fate, current := ReadState();
      if !fate.Ok? { return; }
      if current.status.updateId != Some(updateId) || current.status.phase != Trial { return Throws; }
      :- WriteStatus(current.status.(phase := Discarding), None);
      fate := DiscardAttempt(!host.canDiscard);
      if fate.Throws? {
        var reverted := WriteStatus(current.status, None);
        if reverted.Crash? { fate := Crash; }
      }
    }

    /** Discard the candidate (unless the host keeps none) and restore the rotated slot. */
    method DiscardAttempt(skip: bool) returns (fate: Fate)
      requires Inv() && state.status.phase == Discarding
      modifies this`state, this`history, host
      ensures Concluded(fate)
      ensures Inv() && Extends()
      ensures fate.Ok? ==> BackToSteady(old(state), state, old(state.rotated))
      ensures fate.Throws? ==> state == old(state)
      ensures fate.Ok? ==>
                host.calls == old(host.calls) + (if skip then [] else [DiscardCandidate])
                              + (if old(state.rotated).Some? then [RestoreRecovery] else [])
      ensures fate.Ok? && old(state.rotated).Some? ==>
                host.trace != old(host.trace)
                && (var last := host.trace[|host.trace| - 1]; last.call == RestoreRecovery && last.state == old(state))
      ensures fate.Ok? || Faulted() || (fate.Throws? && old(state.rotated.Some? && !host.canRestore))
    {
      if !skip { :- Await(DiscardCandidate); }
      if state.rotated.Some? && !host.canRestore { return Throws; }
      fate := RestoreSteady();
    }

    // ----- start-up ------------------------------------------------------------------

    /** A fresh process reconciles whatever the previous one left. `inspected` is the deployment it
        finds installed. */
    method Initialize(inspected: Slot) returns (fate: Fate)
      requires Inv() && SlotOk(inspected)
      modifies this, host
      ensures Concluded(fate)
      ensures Inv() && Extends()
      ensures fate.Ok? ==>
                || AtRest(state.status.phase)
                || (state.status.phase == Draining && state.schedule.Some? && armed)
      ensures fate.Ok? && old(state.status.phase) == Trial ==> state == old(state) && host.calls == old(host.calls)
      ensures fate.Ok? && old(state.status.phase) == Steady ==> state.status.active == inspected && state.rotated.None?
      ensures fate.Ok? && old(state.schedule).Some? ==> state == old(state) && armed
      ensures fate.Ok? && armed ==> state.schedule.Some?
      ensures fate.Ok? || Faulted()
              || old(state.status.phase == Steady && state.status.recovery.Some?
                     && state.status.recovery.value.slot.id.node == inspected.id.node)
    {
      armed := false;
      var s;
      fate, s := ReadState();
      if !fate.Ok? { return; }
      match s.status.phase {
        case Steady => fate := InitializeSteady(inspected);
        case Trial => fate := Ok;
        case RepairRequired => fate := RecoverRepair();
        case Preparing => fate := RecoverPreparing();
        case Discarding => fate := RecoverDiscarding();
        case Draining =>
          armed := s.schedule.Some?;
          fate := Ok;
          if !armed { fate := RollbackToTrial(); }
        case Transferring => fate := RollbackToTrial();
        case Committing => fate := SettleCommit(false);
      }
    }

    /** An interrupted repair is settled by its marker, or rolled back without one. */
    method RecoverRepair() returns (fate: Fate)
      requires Inv() && state.status.phase == RepairRequired
      modifies this`state, this`history, host
      ensures Concluded(fate)
      ensures Inv() && Extends()
      ensures fate.Ok? ==> AtRest(state.status.phase)
      ensures fate.Ok? && !HasTransition(old(state.status)) ==> state == old(state)
      ensures fate.Ok? && HasTransition(old(state.status)) && state.status.phase == RepairRequired ==>
                Faulted() || (old(state.commitStarted) && host.reply.answer == Unknown)
      ensures fate.Ok? || Faulted()
    {
      if !HasTransition(state.status) { return Ok; }
      if state.commitStarted { fate := SettleCommit(false); } else { fate := RollbackToTrial(); }
    }

    /** Put back a slot whose rotation was interrupted, then reconcile. */
    method InitializeSteady(inspected: Slot) returns (fate: Fate)
      requires Inv() && state.status.phase == Steady && SlotOk(inspected)
      modifies this`state, this`history, host
      ensures Concluded(fate)
      ensures Inv() && Extends()
      ensures state.status.phase == Steady && state.status.recovery == old(state.status.recovery)
      ensures fate.Ok? ==> state.status.active == inspected && state.rotated.None? && state.schedule.None?
      ensures fate.Ok? ==>
                host.calls == old(host.calls)
                              + (if old(state.rotated).Some? && host.canRestore then [RestoreRecovery] else [])
      ensures fate.Ok? || Faulted()
              || old(state.status.recovery.Some? && state.status.recovery.value.slot.id.node == inspected.id.node)
    {
      fate := Ok;
      :- UndoRotation();
      fate := ReconcileSteadyActive(inspected);
    }

    /** The host puts the slot back, as far as it can, before the record forgets that it was moved. */
    method UndoRotation() returns (fate: Fate)
      requires Inv() && state.status.phase == Steady
      modifies this`state, this`history, host
      ensures Concluded(fate)
      ensures Inv() && Extends() && state.status == old(state.status)
      ensures fate.Ok? ==> state == old(state).(rotated := None)
      ensures fate.Ok? ==>
                host.calls == old(host.calls)
                              + (if old(state.rotated).Some? && host.canRestore then [RestoreRecovery] else [])
      ensures fate.Ok? || Faulted()
    {
      if state.rotated.None? { return Ok; }
      if host.canRestore { :- Await(RestoreRecovery); }
      fate := Write(state.(rotated := None));
    }

    method ReconcileSteadyActive(inspected: Slot) returns (fate: Fate)
      requires Inv() && state.status.phase == Steady && state.rotated.None? && SlotOk(inspected)
      modifies this`state, this`history, host`committed, host`faults, host`crashes, host`unsaved
      ensures Concluded(fate)
      ensures Inv() && Extends()
      ensures state.status.phase == Steady && state.status.recovery == old(state.status.recovery)
      ensures fate.Ok? ==> state.status.active == inspected && state.rotated.None? && state.schedule.None?
      ensures fate.Ok? ==>
                state.status.generation == old(state.status.generation)
                                           + if inspected.id == old(state.status.active.id) then 0 else 1
      ensures old(state.status.active) == inspected ==> fate.Ok? && history == old(history)
      ensures fate.Ok? || Faulted()
              || old(state.status.recovery.Some? && state.status.recovery.value.slot.id.node == inspected.id.node)
    {
      var status := state.status;
      if status.active == inspected { return Ok; }
      var changed := status.active.id != inspected.id;
      var next := status.(generation := status.generation + (if changed then 1 else 0), active := inspected);
      fate := Write(CoordinatorState(next, false, state.rotated, None));
    }

    method RecoverDiscarding() returns (fate: Fate)
      requires Inv() && state.status.phase == Discarding
      modifies this`state, this`history, host
      ensures Concluded(fate)
      ensures Inv() && Extends()
      ensures fate.Ok? ==> BackToSteady(old(state), state, old(state.rotated)) || state.status.phase == RepairRequired
      ensures fate.Ok? && state.status.phase == RepairRequired ==>
                Faulted() || !host.canDiscard || (old(state.rotated).Some? && !host.canRestore)
      ensures !host.canDiscard ==> host.calls == old(host.calls)
      ensures fate.Throws? ==> host.unsaved > old(host.unsaved)
      ensures fate.Ok? || Faulted()
    {
      fate := Throws;
      if host.canDiscard { fate := DiscardAttempt(false); }
      if fate.Throws? { fate := MarkRepairRequired(false); }
    }

    /** Ask the host what became of an interrupted preparation. */
    method RecoverPreparing() returns (fate: Fate)
      requires Inv() && state.status.phase == Preparing
      modifies this`state, this`history, host
      ensures Concluded(fate)
      ensures Inv() && Extends()
      ensures fate.Ok? ==> AtRest(state.status.phase)
      ensures fate.Ok? && state.status.phase == RepairRequired ==> Faulted() || !host.canRecoverPreparation
      ensures !host.canRecoverPreparation ==> host.calls == old(host.calls)
      ensures fate.Throws? ==> host.unsaved > old(host.unsaved)
      ensures fate.Ok? || Faulted()
    {
      fate := Throws;
      if host.canRecoverPreparation { fate := RecoverPreparingAttempt(); }
      if fate.Throws? { fate := MarkRepairRequired(false); }
    }

    method RecoverPreparingAttempt() returns (fate: Fate)
      requires Inv() && state.status.phase == Preparing
      modifies this`state, this`history, host
      ensures Concluded(fate)
      ensures Inv() && Extends()
      ensures fate.Ok? ==> |host.trace| > |old(host.trace)|
      ensures fate.Ok? ==>
                var found := host.trace[|old(host.trace)|];
                && found.call == RecoverPreparation
                && (if found.reply.found
                    then Advanced(old(state), state, Trial, old(state.status.active), found.reply.slot, false)
                         && Matches(old(state.status.candidate), found.reply.slot)
                    else BackToSteady(old(state), state, old(state.rotated)))
      ensures fate.Ok? || Faulted()
      ensures fate.Throws? ==> state == old(state)
    {
      fate := Ok;
      :- Await(RecoverPreparation);
      if host.reply.found {
        if !Matches(state.status.candidate, host.reply.slot) { return Throws; }
        fate := WriteStatus(state.status.(phase := Trial, candidate := Some(host.reply.slot)), None);
      } else {
        fate := RestoreSteady();
      }
    }
  }

  // ---------------------------------------------------------------------------
  // Whole runs
  // ---------------------------------------------------------------------------

  datatype Command =
    | Boot(inspected: Slot)
    | PrepareRequest(updateId: string, node: string, release: string, build: string)
    | DiscardRequest(updateId: string)
    | PromoteRequest(updateId: string)
    | ScheduleRequest(updateId: string, mode: Mode, at: nat)
    | TimerFires

  /** Where a request that ends well leaves the record it found as `before`. */
  ghost predicate Done(command: Command, before: CoordinatorState, after: CoordinatorState) {
    match command
    case Boot(inspected) =>
      SlotOk(inspected) ==> AtRest(after.status.phase) || (after.status.phase == Draining && after.schedule.Some?)
    case PrepareRequest(_, _, release, _) =>
      after.status.phase == Trial && after.status.candidate.Some?
      && after.status.candidate.value.id.release == Some(release)
    case DiscardRequest(updateId) =>
      && before.status.phase == Trial && before.status.updateId == Some(updateId)
      && BackToSteady(before, after, before.rotated)
    case PromoteRequest(updateId) =>
      && before.status.phase == Trial && before.status.updateId == Some(updateId)
      && after.status.phase == Steady && Matches(before.status.candidate, after.status.active)
    case ScheduleRequest(updateId, mode, _) =>
      && after.status.phase == Draining && after.schedule.Some?
      && after.schedule.value.updateId == updateId && after.schedule.value.mode == mode
    case TimerFires => true
  }

  method ServeRequest(c: Coordinator, command: Command) returns (fate: Fate)
    requires c.Inv() && (command.PrepareRequest? || command.DiscardRequest? || command.PromoteRequest?)
    modifies c, c.host
    ensures c.Inv() && c.Extends()
    ensures fate.Ok? ==> Done(command, old(c.state), c.state)
  {
    fate := Ok;
    match command {
      case PrepareRequest(updateId, node, release, build) => fate := c.Prepare(updateId, node, release, build);
      case DiscardRequest(updateId) => fate := c.Discard(updateId);
      case PromoteRequest(updateId) => fate := c.Promote(updateId);
    }
  }

  method Serve(c: Coordinator, command: Command) returns (fate: Fate)
    requires c.Inv()
    modifies c, c.host
    ensures c.Inv() && c.Extends()
    ensures fate.Ok? ==> Done(command, old(c.state), c.state)
    ensures command.TimerFires? ==> !c.armed
  {
    fate := Ok;
    match command {
      case Boot(inspected) => if SlotOk(inspected) { fate := c.Initialize(inspected); }
      case ScheduleRequest(updateId, mode, at) => fate := c.SchedulePromote(updateId, mode, at);
      case TimerFires => fate := c.FireTimer();
      case _ => fate := ServeRequest(c, command);
    }
  }

  /** Every run: any requests, timer expiries and process restarts in any order, each request
      ending in success, rejection or the death of the process. */
  method Run(c: Coordinator, commands: seq<Command>) returns (fates: seq<Fate>, ghost states: seq<CoordinatorState>)
    requires c.Inv()
    modifies c, c.host
    ensures c.Inv() && c.Extends()
    ensures |fates| == |commands| == |states| - 1 && states[0] == old(c.state) && states[|commands|] == c.state
    ensures forall i :: 0 <= i < |commands| && fates[i].Ok? ==> Done(commands[i], states[i], states[i + 1])
    ensures HistoryOk(c.history) && TraceOk(c.host.trace)
    ensures Rising(c.started, c.schedules)
  {
    fates, states := [], [c.state];
    for i := 0 to |commands|
      invariant c.Inv() && c.Extends()
      invariant |fates| == i == |states| - 1 && states[0] == old(c.state) && states[i] == c.state
      invariant forall k :: 0 <= k < i && fates[k].Ok? ==> Done(commands[k], states[k], states[k + 1])
    {
      var fate := Serve(c, commands[i]);
      // A dead process has no timers.
      if fate.Crash? { c.armed := false; }
      fates, states := fates + [fate], states + [c.state];
    }
  }
}

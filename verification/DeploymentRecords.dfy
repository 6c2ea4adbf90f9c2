/** The durable record of the blue/green coordinator: its schema, the states a run can persist,
    and what one persisted step may change. */
module DeploymentRecords {
  import opened Outcomes

  datatype Phase =
    | Steady | Preparing | Trial | Draining | Transferring | Committing | Discarding | RepairRequired

  /** The phases a commit marker may stand in. */
  predicate MayBeMarked(p: Phase) { p == Committing || p == RepairRequired }

  /** The phases a recovery ends in. */
  predicate AtRest(p: Phase) { p == Steady || p == Trial || p == RepairRequired }

  datatype Identity = Identity(node: string, release: Option<string>, build: string)

  datatype Slot = Slot(id: Identity, projects: nat, sessions: nat)

  datatype RecoverySlot = RecoverySlot(slot: Slot, projectId: string, sessionId: Option<string>, retainedAt: nat)

  datatype Status = Status(
    generation: nat,
    phase: Phase,
    active: Slot,
    candidate: Option<Slot>,
    recovery: Option<RecoverySlot>,
    updateId: Option<string>)

  datatype Mode = WhenIdle | Force

  datatype Schedule = Schedule(updateId: string, mode: Mode, at: nat)

  datatype CoordinatorState = CoordinatorState(
    status: Status,
    commitStarted: bool,
    rotated: Option<RecoverySlot>,
    schedule: Option<Schedule>)

  // ----- schema (gateway-deployment.ts) ---------------------------------------

  predicate OpaqueId(s: string) { 1 <= |s| <= 256 }

  predicate SlotOk(s: Slot) {
    && OpaqueId(s.id.node) && OpaqueId(s.id.build)
    && (s.id.release.Some? ==> IsReleaseId(s.id.release.value))
    && s.projects <= 256
  }

  predicate RecoveryOk(r: RecoverySlot) {
    SlotOk(r.slot) && OpaqueId(r.projectId) && (r.sessionId.Some? ==> OpaqueId(r.sessionId.value))
  }

  predicate StatusOk(s: Status) {
    && SlotOk(s.active)
    && (s.candidate.Some? ==> SlotOk(s.candidate.value) && s.candidate.value.id.node != s.active.id.node)
    && (s.recovery.Some? ==>
          RecoveryOk(s.recovery.value) && s.recovery.value.slot.id.node != s.active.id.node && s.candidate.None?)
    && (s.updateId.Some? ==> OpaqueId(s.updateId.value))
    && (!(s.phase == Steady || s.phase == RepairRequired) ==> s.candidate.Some? && s.updateId.Some?)
    && (s.phase == Steady ==> s.candidate.None? && s.updateId.None?)
  }

  /** `validateCoordinatorState`, applied to the file before and after every write. */
  predicate StateOk(s: CoordinatorState) {
    && StatusOk(s.status)
    && (s.commitStarted ==> MayBeMarked(s.status.phase))
    && (s.schedule.Some? ==> s.status.phase == Draining && s.status.updateId == Some(s.schedule.value.updateId))
  }

  /** A transaction names both slots and its update. */
  predicate HasTransition(s: Status) { s.updateId.Some? && s.candidate.Some? }

  // ----- what a run persists ----------------------------------------------------

  /** A steady state still holding a rotated slot also holds it as its recovery, and a state in a
      transaction keeps the recovery slot out of the way of the candidate. */
  ghost predicate Sound(s: CoordinatorState) {
    && StateOk(s)
    && (s.status.phase == Steady && s.rotated.Some? ==> s.status.recovery == s.rotated)
    && (s.status.phase != Steady ==> s.status.recovery.None?)
    && (s.status.phase == Committing ==> s.commitStarted)
    && (s.rotated.Some? ==>
          RecoveryOk(s.rotated.value) && s.rotated.value.slot.id.node != s.status.active.id.node)
  }

  /** The retained recovery slot, wherever it is kept. */
  function Retained(s: CoordinatorState): Option<RecoverySlot> {
    if s.status.recovery.Some? then s.status.recovery else s.rotated
  }

  /** The candidate of a marked transaction takes over. */
  ghost predicate CommitStep(a: CoordinatorState, b: CoordinatorState) {
    && a.commitStarted && a.status.candidate.Some?
    && b.status.phase == Steady
    && b.status.active == a.status.candidate.value
  }

  /** One persisted step from `a` to `b`, where `committed` says that the host's commit of the
      current transaction has taken effect. */
  ghost predicate StepOk(a: CoordinatorState, b: CoordinatorState, committed: bool) {
    && Sound(b)
    // the generation counts changes of the active identity, exactly
    && (if b.status.active.id == a.status.active.id
        then b.status.generation == a.status.generation
        else b.status.generation == a.status.generation + 1)
    // an effective commit ends in the candidate's take-over and nowhere else
    && (committed ==> a.commitStarted && HasTransition(a.status))
    && (committed ==>
          || CommitStep(a, b)
          || (b.commitStarted && b.status.candidate == a.status.candidate && b.status.updateId == a.status.updateId))
    // without one, only the reconciliation of a steady computer replaces the active deployment
    && (!committed ==> !CommitStep(a, b))
    && (!committed && b.status.active.id != a.status.active.id ==> a.status.phase == Steady == b.status.phase)
    // only a commit touches the retained recovery slot
    && (!CommitStep(a, b) ==> Retained(b) == Retained(a))
  }

  datatype Entry = Entry(state: CoordinatorState, committed: bool)

  /** State `i` of a run is sound and follows from the one before it. */
  ghost predicate StepAt(h: seq<Entry>, i: int) {
    0 <= i < |h| ==>
      && Sound(h[i].state)
      && (i > 0 ==>
            && StepOk(h[i - 1].state, h[i].state, h[i].committed)
            && (h[i - 1].committed && h[i - 1].state.status.phase != Steady ==> h[i].committed))
  }

  /** Every persisted state of a run, each with whether the commit was effective when it was written. */
  ghost predicate HistoryOk(h: seq<Entry>) {
    forall i {:trigger StepAt(h, i)} :: StepAt(h, i)
  }

  lemma HistoryGrows(h: seq<Entry>, e: Entry)
    requires h != [] && HistoryOk(h) && StepOk(h[|h| - 1].state, e.state, e.committed)
    requires var last := h[|h| - 1]; last.committed && last.state.status.phase != Steady ==> e.committed
    ensures HistoryOk(h + [e])
  {
    forall i ensures StepAt(h + [e], i) {
      assert StepAt(h, i);
    }
  }

  /** How often the active identity changed between two points of a run. */
  ghost function Changes(h: seq<Entry>, i: nat, j: nat): nat
    requires i <= j < |h|
    decreases j
  {
    if i == j then 0
    else Changes(h, i, j - 1) + if h[j].state.status.active.id != h[j - 1].state.status.active.id then 1 else 0
  }

  /** The generation is the number of take-overs and reconciliations, over any stretch of any run. */
  lemma {:induction false} GenerationCountsIdentityChanges(h: seq<Entry>, i: nat, j: nat)
    requires HistoryOk(h) && i <= j < |h|
    ensures h[j].state.status.generation == h[i].state.status.generation + Changes(h, i, j)
    decreases j
  {
    if i < j {
      GenerationCountsIdentityChanges(h, i, j - 1);
      assert StepAt(h, j);
    }
  }

  /** A stretch of a run in which no candidate takes over leaves the recovery slot alone, through
      every rotation, discard, rollback and crash. */
  lemma {:induction false} RecoverySlotSurvives(h: seq<Entry>, i: nat, j: nat)
    requires HistoryOk(h) && i <= j < |h|
    requires forall k :: i < k <= j ==> !CommitStep(h[k - 1].state, h[k].state)
    ensures Retained(h[j].state) == Retained(h[i].state)
    decreases j
  {
    if i < j {
      RecoverySlotSurvives(h, i, j - 1);
      assert StepAt(h, j);
    }
  }

  /** Once the commit took effect (before write `i`), every later state is fenced behind the commit
      marker with the same candidate, never back in trial, until the one steady exit: the take-over
      of exactly that candidate. */
  lemma {:induction false} CommitIsAllOrNothing(h: seq<Entry>, i: nat, j: nat)
    requires HistoryOk(h) && 0 < i <= j < |h| && h[i].committed
    requires forall k :: i <= k < j ==> h[k].state.status.phase != Steady
    ensures h[j].committed && h[i - 1].state.status.candidate.Some?
    ensures h[j].state.status.phase == Steady || MayBeMarked(h[j].state.status.phase)
    ensures h[j].state.status.phase == Steady ==>
              h[j].state.status.active == h[i - 1].state.status.candidate.value
    ensures h[j].state.status.phase != Steady ==>
              h[j].state.commitStarted && h[j].state.status.candidate == h[i - 1].state.status.candidate
    decreases j
  {
    assert StepAt(h, i);
    if i < j {
      CommitIsAllOrNothing(h, i, j - 1);
      assert StepAt(h, j);
    }
  }

  /** Without an effective commit no transaction ever makes its candidate active, not even by its
      exit to steady. */
  lemma {:induction false} NoCommitNoTakeOver(h: seq<Entry>, i: nat, j: nat)
    requires HistoryOk(h) && i <= j < |h|
    requires forall k :: i < k <= j ==> !h[k].committed
    requires forall k :: i <= k < j ==> h[k].state.status.phase != Steady
    ensures h[j].state.status.active.id == h[i].state.status.active.id
    decreases j
  {
    if i < j {
      NoCommitNoTakeOver(h, i, j - 1);
      assert StepAt(h, j);
    }
  }

  /** The deployments in place on this computer. A slot that is recorded as rotated while a candidate
      exists is none of them: its host has moved it aside, to be put back when the candidate goes. */
  function InPlace(s: CoordinatorState): seq<Slot> {
    [s.status.active]
    + (if s.status.candidate.Some? then [s.status.candidate.value] else [])
    + (if s.status.recovery.Some? then [s.status.recovery.value.slot] else [])
  }

  /** Throughout a run at most two deployments are in place; and with a candidate in place, a retained
      slot is the rotated one, so three slots are on record exactly while one is moved aside. */
  lemma AtMostTwoDeployments(h: seq<Entry>, i: nat)
    requires HistoryOk(h) && i < |h|
    ensures |InPlace(h[i].state)| <= 2
    ensures var s := h[i].state;
      s.status.candidate.Some? && Retained(s).Some? ==> s.status.recovery.None? && s.rotated == Retained(s)
    ensures var s := h[i].state;
      s.rotated.Some? && s.status.recovery.Some? ==> s.status.phase == Steady && s.status.recovery == s.rotated
  {
    assert StepAt(h, i);
  }

  // ----- what the operations leave ---------------------------------------------------

  /** The transaction of `s` is over and the active deployment remains, with `recovery` retained. */
  ghost predicate BackToSteady(s: CoordinatorState, t: CoordinatorState, recovery: Option<RecoverySlot>) {
    && t.status.phase == Steady && t.status.generation == s.status.generation && t.status.active == s.status.active
    && t.status.candidate.None? && t.status.updateId.None? && t.status.recovery == recovery
    && !t.commitStarted && t.rotated.None? && t.schedule.None?
  }

  /** The candidate of `s` has taken over, at the next generation. */
  ghost predicate TakenOver(s: CoordinatorState, t: CoordinatorState, recovery: Option<RecoverySlot>) {
    && t.status.phase == Steady && t.status.generation == s.status.generation + 1
    && Some(t.status.active) == s.status.candidate
    && t.status.candidate.None? && t.status.updateId.None? && t.status.recovery == recovery
    && !t.commitStarted && t.rotated.None? && t.schedule.None?
  }

  /** The transaction of `s` goes on in another phase, with the slots its host reported. */
  ghost predicate Advanced(s: CoordinatorState, t: CoordinatorState, phase: Phase, active: Slot, candidate: Slot,
                           marker: bool) {
    && t.status.phase == phase && t.status.active == active && t.status.candidate == Some(candidate)
    && t.status.generation == s.status.generation && t.status.updateId == s.status.updateId
    && t.status.recovery == s.status.recovery && t.rotated == s.rotated
    && t.commitStarted == marker && t.schedule.None?
  }

  // ----- the write functions ------------------------------------------------------

  /** The state `writeStatus` leaves; `marker` is its optional commit-marker argument. */
  function WithStatus(s: CoordinatorState, status: Status, marker: Option<bool>): CoordinatorState {
    CoordinatorState(
      status,
      if marker.Some? then marker.value
      else s.commitStarted && MayBeMarked(status.phase),
      if status.phase == Steady then None else s.rotated,
      if status.phase == Draining then s.schedule else None)
  }

  /** `returnToSteady`: the transaction is gone, the active deployment and `recovery` remain. */
  function SteadyStatus(s: Status, recovery: Option<RecoverySlot>): Status {
    Status(s.generation, Steady, s.active, None, recovery, None)
  }

  /** `finishCommit`: the candidate is active, the previous release may be kept for repair. */
  function CommittedStatus(s: Status, recovery: Option<RecoverySlot>): Status
    requires s.candidate.Some?
  {
    Status(s.generation + 1, Steady, s.candidate.value, None, recovery, None)
  }
}

/** The update supervisor as a state machine over its atomic steps. Requests are serialized on one
    chain; the activation timer and status polls interleave with them at every await; the process
    may die anywhere and be replaced by one with another state catalog. */
module UpdateSupervisor {
  import opened Outcomes
  import opened StateCatalog

  datatype Phase =
    | Idle | Staging | AgentRequired | AgentRunning | AgentValidating | Staged | Scheduled
    | Activating | Probation | Committed | RolledBack | RepairRequired | Failed

  datatype RestartPhase = NoRestart | RestartScheduled | Restarting | Ready | RestartFailed

  datatype Restart = Restart(phase: RestartPhase, id: nat)

  datatype Artifact = Artifact(release: string, catalog: Catalog)

  /** The persisted state: the update status, the restart status and the admitted artifact. */
  datatype File = File(
    phase: Phase,
    release: Option<string>,
    statusMode: Option<ActivationMode>,
    legacy: Option<Artifact>,
    agent: Option<Artifact>,
    sealed: bool,
    mode: Option<ActivationMode>,
    previous: Option<string>,
    restart: Restart)

  predicate Valid(f: File) {
    && !(f.legacy.Some? && (f.agent.Some? || f.sealed))
    && (f.sealed ==> f.agent.Some?)
  }

  predicate UpdateBusy(f: File) { f.phase in {Scheduled, Activating, Probation} }

  predicate RestartBusy(f: File) { f.restart.phase in {RestartScheduled, Restarting} }

  function Target(f: File): Option<Artifact> {
    if f.legacy.Some? then f.legacy else f.agent
  }

  predicate HasRelease(f: File, release: string) {
    || (f.legacy.Some? && f.legacy.value.release == release)
    || (f.agent.Some? && f.agent.value.release == release && f.sealed)
  }

  /** `activationModeForState`; `None` when the catalog comparison throws. */
  ghost function ModeFor(f: File, catalog: Catalog): Option<ActivationMode> {
    var target := Target(f);
    var catalogMode := if target.Some? then CatalogMode(catalog, target.value.catalog) else Some(RollbackSafe);
    if catalogMode.None? then None
    else if Some(ForwardOnly) in {f.mode, f.statusMode, catalogMode} then Some(ForwardOnly)
    else if f.mode.Some? then f.mode
    else if f.statusMode.Some? then f.statusMode
    else catalogMode
  }

  /** `activationModeForState`: the release's stores are compared first, which rejects a release that
      drops or reclassifies one; then forward-only wins wherever it stands, and otherwise the first
      field present. */
  method ActivationModeForState(f: File, catalog: Catalog) returns (r: Option<ActivationMode>)
    requires DistinctIds(catalog) && (Target(f).Some? ==> DistinctIds(Target(f).value.catalog))
    ensures r.None? <==> Target(f).Some? && exists c :: c in catalog && !Keeps(Target(f).value.catalog, c)
    ensures r.Some? ==> (r.value == ForwardOnly <==>
      || f.mode == Some(ForwardOnly)
      || f.statusMode == Some(ForwardOnly)
      || (Target(f).Some? && exists n :: n in Target(f).value.catalog && Breaks(catalog, n)))
    ensures r == ModeFor(f, catalog)
  {
    var target := if f.legacy.Some? then f.legacy else f.agent;
    var catalogMode: Option<ActivationMode> := None;
    if target.Some? {
      var changes;
      catalogMode, changes := StateActivation(catalog, target.value.catalog);
      if catalogMode.None? { return None; }
    }
    if f.mode == Some(ForwardOnly) || f.statusMode == Some(ForwardOnly) || catalogMode == Some(ForwardOnly) {
      return Some(ForwardOnly);
    }
    if f.mode.Some? { return f.mode; }
    if f.statusMode.Some? { return f.statusMode; }
    if catalogMode.Some? { return catalogMode; }
    return Some(RollbackSafe);
  }

  // ----- the machine ----------------------------------------------------------------

  /** The serialized request in flight, named by what it does at its next await. */
  datatype Chain =
    | Free
    | RestartChecked
    | RestartRead(id: nat)
    | RestartCalling(id: nat)
    | StageChecked(release: string, agentFlow: bool)
    | StageFetching(release: string, agentFlow: bool)
    | SubmitChecked
    | SubmitValidating
    | AckChecked
    | ApplyChecked(release: string, mode: ActivationMode, confirmed: bool)
    | ApplyArming

  /** An expired activation timer's operation. */
  datatype Activation =
    | Fired
    | Decided(mode: ActivationMode, target: Catalog)
    | Calling(mode: ActivationMode)

  datatype Boot = Up | BootStart | BootRecovering | BootRestart

  /** A call of the platform activation: into which directory, and with automatic rollback or not;
      `approval` is what the update was scheduled with, `catalog` the stores of the supervisor that
      decided, and `target` those of the release. */
  datatype ActivateCall = ActivateCall(
    previousRelease: bool, automaticRollback: bool, approval: Approval, catalog: Catalog, target: Catalog)

  /** An accepted schedule: the mode its file and catalog called for when it was written, the mode
      written, and whether the user had confirmed forward-only activation. */
  datatype Approval = Approval(called: Option<ActivationMode>, mode: ActivationMode, confirmed: bool)

  datatype Supervisor = Supervisor(
    file: File,
    catalog: Catalog,
    chain: Chain,
    activations: seq<Activation>,
    armed: bool,
    boot: Boot,
    approval: Approval,
    approvals: seq<Approval>,
    calls: seq<ActivateCall>)

  datatype Fetch = FetchFailed | SameBuild(catalog: Catalog) | Fetched(catalog: Catalog)
  datatype Installed = TargetInstalled | RollbackInstalled | NeitherInstalled
  datatype Ending = Activated | Succeeded | EndedRolledBack | PreparationFailed | EndedOtherwise

  datatype Step =
    // requests, accepted when the chain is free
    | RequestRestart
    | RestartTimerFires
    | RequestStage(stageRelease: string, agentFlow: bool)
    | RequestBegin(beginRelease: string, sameOwner: bool)
    | RequestFail(failRelease: string)
    | RequestSubmit(submitRelease: string)
    | RequestAcknowledge
    | RequestApply(applyRelease: string, confirmed: bool)
    // the request in flight continues
    | Continue(ok: bool, lands: bool, newId: nat, fetch: Fetch, installed: Installed, previousTarget: string)
    // unserialized
    | Poll(targetInstalled: bool)
    | TimerFires
    | ActivationStep(index: nat, ending: Ending, saved: bool)
    // the process
    | Die(newCatalog: Catalog)
    | BootStep(recovered: bool, written: bool)

  function Serve(s: Supervisor, step: Step): Supervisor
    requires s.boot == Up && s.chain == Free
  {
    var f := s.file;
    match step
    case RequestRestart =>
      if RestartBusy(f) || UpdateBusy(f) then s else s.(chain := RestartChecked)
    case RestartTimerFires =>
      if f.restart.phase != RestartScheduled then s else s.(chain := RestartRead(f.restart.id))
    case RequestStage(release, agentFlow) =>
      if f.release == Some(release) && (f.phase in {Staged, Scheduled, Activating, Probation, Committed}
                                        || (agentFlow && f.phase in {AgentRequired, AgentRunning})) then s
      else if UpdateBusy(f) then s
      else s.(chain := StageChecked(release, agentFlow))
    case RequestBegin(release, sameOwner) =>
      if f.agent.None? || f.agent.value.release != release || f.phase !in {AgentRequired, AgentRunning, Failed} then s
      else if f.phase == AgentRunning && !sameOwner then s
      else s.(file := f.(phase := AgentRunning))
    case RequestFail(release) =>
      if f.agent.None? || f.agent.value.release != release || f.phase != AgentRunning then s
      else s.(file := f.(phase := Failed))
    case RequestSubmit(release) =>
      if f.release == Some(release) && f.phase in {Staged, Scheduled, Activating, Probation, Committed} then s
      else if f.agent.None? || f.agent.value.release != release then s
      else if f.phase !in {AgentRequired, AgentRunning, Failed} then s
      else s.(chain := SubmitChecked)
    case RequestAcknowledge =>
      if f.phase != RepairRequired then s else s.(chain := AckChecked)
    case _ => s
  }

  ghost function ServeApply(s: Supervisor, release: string, confirmed: bool): Supervisor
    requires s.boot == Up && s.chain == Free
  {
    var f := s.file;
    if RestartBusy(f) then s
    else if f.release == Some(release) && f.phase in {Scheduled, Activating, Probation, Committed} then s
    else if !HasRelease(f, release) || f.phase != Staged then s
    else
      var mode := ModeFor(f, s.catalog);
      if mode.None? || (mode.value == ForwardOnly && !confirmed) then s
      else s.(chain := ApplyChecked(release, mode.value, confirmed))
  }

  /** The staging request, after its writes were checked against a possibly older read. */
  ghost function StageStep(s: Supervisor, step: Step): Supervisor
    requires step.Continue? && (s.chain.StageChecked? || s.chain.StageFetching?)
  {
    var f := s.file;
    match s.chain
    case StageChecked(release, agentFlow) =>
      s.(file := f.(phase := Staging, release := Some(release), statusMode := None,
                    legacy := if agentFlow then None else f.legacy,
                    agent := None, sealed := false, mode := None),
         chain := StageFetching(release, agentFlow))
    case StageFetching(release, agentFlow) =>
      var fetchedMode := if step.fetch.FetchFailed? then None else CatalogMode(s.catalog, step.fetch.catalog);
      if fetchedMode.None? then
        s.(file := f.(phase := Failed, statusMode := None), chain := Free)
      else if step.fetch.SameBuild? then
        s.(file := f.(phase := Committed, statusMode := None, legacy := if agentFlow then f.legacy else None),
           chain := Free)
      else if agentFlow then
        s.(file := f.(phase := AgentRequired, agent := Some(Artifact(release, step.fetch.catalog)),
                      mode := fetchedMode, statusMode := fetchedMode),
           chain := Free)
      else
        s.(file := f.(phase := Staged, legacy := Some(Artifact(release, step.fetch.catalog)), agent := None,
                      sealed := false, mode := fetchedMode, statusMode := fetchedMode),
           chain := Free)
  }

  /** The request goes on. When the state file rejects its write, and then that of its `catch` too,
      the request ends there with the file as it was. */
  ghost function ContinueChain(s: Supervisor, step: Step): Supervisor
    requires step.Continue?
  {
    var f := s.file;
    if !step.lands && !s.chain.ApplyArming? then s.(chain := Free)
    else match s.chain
    case Free => s
    case RestartChecked => s.(file := f.(restart := Restart(RestartScheduled, step.newId)), chain := Free)
    case RestartRead(id) =>
      s.(file := if f.restart == Restart(RestartScheduled, id) then f.(restart := Restart(Restarting, id)) else f,
         chain := RestartCalling(id))
    case RestartCalling(id) =>
      s.(file := if f.restart.id != id then f
                 else f.(restart := Restart(if step.ok then Ready else RestartFailed, id)),
         chain := Free)
    case StageChecked(_, _) => StageStep(s, step)
    case StageFetching(_, _) => StageStep(s, step)
    case SubmitChecked => s.(file := f.(phase := AgentValidating), chain := SubmitValidating)
    case SubmitValidating =>
      s.(file := if step.ok then f.(phase := Staged, sealed := true) else f.(phase := Failed), chain := Free)
    case AckChecked =>
      if f.phase != RepairRequired || step.installed == NeitherInstalled then s.(chain := Free)
      else
        var phase := if step.installed == TargetInstalled then Committed else RolledBack;
        s.(file := f.(phase := phase, previous := None), chain := Free)
    case ApplyChecked(release, mode, confirmed) =>
      if !step.ok || !HasRelease(f, release) || f.phase != Staged then s.(chain := Free)
      else s.(file := f.(phase := Scheduled, release := Some(release), mode := Some(mode), statusMode := Some(mode),
                         previous := Some(step.previousTarget)),
              chain := ApplyArming, approval := Approval(ModeFor(f, s.catalog), mode, confirmed),
              approvals := s.approvals + [Approval(ModeFor(f, s.catalog), mode, confirmed)])
    case ApplyArming => s.(armed := true, chain := Free)
  }

  /** `status()` is one unserialized transaction. */
  function PollStep(s: Supervisor, targetInstalled: bool): Supervisor {
    if s.boot == Up && targetInstalled && s.file.release.Some?
       && s.file.phase in {AgentRequired, AgentRunning, AgentValidating, Staged}
    then s.(file := s.file.(phase := Committed, statusMode := None, previous := None))
    else s
  }

  function Without(s: Supervisor, i: nat): Supervisor
    requires i < |s.activations|
  {
    s.(activations := s.activations[..i] + s.activations[i + 1..])
  }

  /** The stores of the admitted release, none if there is no release. */
  function TargetCatalog(f: File): Catalog {
    if Target(f).Some? then Target(f).value.catalog else []
  }

  /** `activateScheduled`, one await at a time. A rejected write ends it with the file as it was. */
  ghost function ActivationStepOf(s: Supervisor, i: nat, ending: Ending, saved: bool): Supervisor
    requires i < |s.activations|
  {
    var f := s.file;
    match s.activations[i]
    case Fired =>
      var mode := ModeFor(f, s.catalog);
      if f.phase != Scheduled || Target(f).None? || mode.None? then Without(s, i)
      else s.(activations := s.activations[i := Decided(mode.value, TargetCatalog(f))])
    case Decided(mode, target) =>
      if !saved then Without(s, i)
      else
        s.(file := f.(phase := Activating), activations := s.activations[i := Calling(mode)],
           calls := s.calls + [ActivateCall(false, mode != ForwardOnly, s.approval, s.catalog, target)])
    case Calling(mode) =>
      if ending.Activated? then (if saved then s.(file := f.(phase := Probation)) else s)
      else if !saved then Without(s, i)
      else if ending.Succeeded? then
        Without(s.(file := f.(phase := Committed, previous := None, mode := None, statusMode := None)), i)
      else if ending.EndedRolledBack? then Without(s.(file := f.(phase := RolledBack)), i)
      else if ending.PreparationFailed? && mode == ForwardOnly then
        Without(s.(file := f.(phase := Staged, previous := None)), i)
      else Without(s.(file := f.(phase := RepairRequired)), i)
  }

  /** `initialize()`, which ends before the supervisor accepts its first request. A rejected write
      leaves it where it is: nothing is served until the process is replaced. */
  ghost function BootStepOf(s: Supervisor, recovered: bool, written: bool): Supervisor {
    var f := s.file;
    match s.boot
    case Up => s
    case BootStart =>
      if f.phase == Scheduled then s.(armed := true, boot := BootRestart)
      else if f.phase !in {Activating, Probation} then s.(boot := BootRestart)
      else
        var mode := ModeFor(f, s.catalog);
        if mode.None? then s
        else if mode.value == ForwardOnly then
          if !written then s
          else
            s.(file := f.(phase := RepairRequired, mode := Some(ForwardOnly), statusMode := Some(ForwardOnly)),
               boot := BootRestart)
        else if f.previous.None? then
          if written then s.(file := f.(phase := RepairRequired), boot := BootRestart) else s
        else
          s.(boot := BootRecovering,
             calls := s.calls + [ActivateCall(true, true, s.approval, s.catalog, TargetCatalog(f))])
    case BootRecovering =>
      if !written then s
      else s.(file := f.(phase := if recovered then RolledBack else RepairRequired), boot := BootRestart)
    case BootRestart =>
      if f.restart.phase != Restarting then s.(boot := Up)
      else if !written then s
      else s.(file := f.(restart := f.restart.(phase := RestartScheduled)), boot := Up)
  }

  ghost function Next(s: Supervisor, step: Step): Supervisor {
    match step
    case Continue(_, _, _, _, _, _) => if s.boot == Up then ContinueChain(s, step) else s
    case Poll(targetInstalled) => PollStep(s, targetInstalled)
    case TimerFires => if s.armed then s.(armed := false, activations := s.activations + [Fired]) else s
    case ActivationStep(i, ending, saved) => if i < |s.activations| then ActivationStepOf(s, i, ending, saved) else s
    case Die(newCatalog) =>
      s.(catalog := newCatalog, chain := Free, activations := [], armed := false, boot := BootStart)
    case BootStep(recovered, written) => BootStepOf(s, recovered, written)
    case RequestApply(release, confirmed) =>
      if s.boot == Up && s.chain == Free then ServeApply(s, release, confirmed) else s
    case _ => if s.boot == Up && s.chain == Free then Serve(s, step) else s
  }

  /** Any run from the state a fresh computer starts in. */
  ghost function Exec(catalog: Catalog, steps: seq<Step>): Supervisor {
    if steps == [] then
      Supervisor(File(Idle, None, None, None, None, false, None, None, Restart(NoRestart, 0)),
                 catalog, Free, [], false, BootStart, Approval(Some(RollbackSafe), RollbackSafe, false), [], [])
    else Next(Exec(catalog, steps[..|steps| - 1]), steps[|steps| - 1])
  }

  // ----- invariant ------------------------------------------------------------------

  ghost predicate ChainOk(s: Supervisor) {
    match s.chain
    case RestartChecked => !UpdateBusy(s.file)
    case StageChecked(_, _) => !UpdateBusy(s.file)
    case StageFetching(_, agentFlow) =>
      !UpdateBusy(s.file) && s.file.agent.None? && !s.file.sealed && (agentFlow ==> s.file.legacy.None?)
    case SubmitChecked => !UpdateBusy(s.file) && s.file.agent.Some?
    case SubmitValidating => !UpdateBusy(s.file) && s.file.agent.Some?
    case ApplyChecked(_, mode, confirmed) =>
      && !RestartBusy(s.file) && !UpdateBusy(s.file)
      && (s.file.phase == Staged ==> ModeFor(s.file, s.catalog) == Some(mode))
      && (mode == ForwardOnly ==> confirmed)
    case ApplyArming => s.file.phase == Scheduled && s.activations == [] && !s.armed
    case _ => true
  }

  ghost predicate Demands(catalog: Catalog, target: Catalog) {
    exists n :: n in target && Breaks(catalog, n)
  }

  ghost predicate ActivationOk(s: Supervisor, a: Activation) {
    match a
    case Fired => s.file.phase == Scheduled
    case Decided(mode, target) =>
      && s.file.phase == Scheduled
      && (mode == ForwardOnly <==> s.approval.mode == ForwardOnly || Demands(s.catalog, target))
    case Calling(mode) => s.file.phase in {Activating, Probation}
  }

  ghost predicate BootOk(s: Supervisor) {
    && (s.boot != Up ==> s.chain == Free)
    && (s.boot in {BootStart, BootRecovering} ==> s.activations == [] && !s.armed)
    && (s.boot == BootRecovering ==> s.file.phase in {Activating, Probation})
  }

  ghost predicate ApprovalOk(a: Approval) { a.called == Some(a.mode) && (a.mode == ForwardOnly ==> a.confirmed) }

  /** Automatic rollback is off exactly when the update was scheduled forward-only or the stores of the
      deciding supervisor demand it, and the previous release is activated only with it on. */
  ghost predicate CallOk(c: ActivateCall) {
    && ApprovalOk(c.approval)
    && (!c.automaticRollback <==> c.approval.mode == ForwardOnly || Demands(c.catalog, c.target))
    && (c.previousRelease ==> c.automaticRollback)
  }

  ghost predicate Inv(s: Supervisor) {
    && Valid(s.file)
    && !(RestartBusy(s.file) && UpdateBusy(s.file))
    && ChainOk(s)
    && |s.activations| <= 1
    && (forall i :: 0 <= i < |s.activations| ==> ActivationOk(s, s.activations[i]))
    && (s.armed ==> s.activations == [] && s.file.phase == Scheduled)
    && BootOk(s)
    && ApprovalOk(s.approval)
    && (UpdateBusy(s.file) ==> s.file.mode == s.file.statusMode == Some(s.approval.mode))
    && (UpdateBusy(s.file) ==> s.approval in s.approvals)
    && (forall i :: 0 <= i < |s.calls| ==> CallOk(s.calls[i]) && s.calls[i].approval in s.approvals)
    && (forall i :: 0 <= i < |s.approvals| ==> ApprovalOk(s.approvals[i]))
  }

  /** Outside a scheduled or running update no activation is pending or in flight. */
  lemma QuietWhenNotBusy(s: Supervisor)
    requires Inv(s) && !UpdateBusy(s.file)
    ensures s.activations == [] && !s.armed
  {
    assert s.activations != [] ==> ActivationOk(s, s.activations[0]);
  }

  lemma RequestKeepsInv(s: Supervisor, step: Step)
    requires Inv(s) && s.boot == Up && s.chain == Free
    requires step.RequestRestart? || step.RestartTimerFires? || step.RequestStage? || step.RequestBegin?
             || step.RequestFail? || step.RequestSubmit? || step.RequestAcknowledge? || step.RequestApply?
    ensures Inv(Next(s, step))
  {}

  lemma RestartContinues(s: Supervisor, step: Step)
    requires Inv(s) && s.boot == Up && step.Continue?
    requires s.chain.RestartChecked? || s.chain.RestartRead? || s.chain.RestartCalling?
    ensures Inv(ContinueChain(s, step))
  {}

  lemma StageContinues(s: Supervisor, step: Step)
    requires Inv(s) && s.boot == Up && step.Continue?
    requires s.chain.StageChecked? || s.chain.StageFetching?
    ensures Inv(ContinueChain(s, step))
  {
    QuietWhenNotBusy(s);
  }

  lemma SubmitContinues(s: Supervisor, step: Step)
    requires Inv(s) && s.boot == Up && step.Continue?
    requires s.chain.SubmitChecked? || s.chain.SubmitValidating?
    ensures Inv(ContinueChain(s, step))
  {
    QuietWhenNotBusy(s);
  }

  lemma AckContinues(s: Supervisor, step: Step)
    requires Inv(s) && s.boot == Up && step.Continue? && s.chain.AckChecked?
    ensures Inv(ContinueChain(s, step))
  {
    if !UpdateBusy(s.file) { QuietWhenNotBusy(s); }
  }

  lemma ApplyContinues(s: Supervisor, step: Step)
    requires Inv(s) && s.boot == Up && step.Continue?
    requires s.chain.ApplyChecked? || s.chain.ApplyArming?
    ensures Inv(ContinueChain(s, step))
  {
    if s.chain.ApplyChecked? { QuietWhenNotBusy(s); }
  }

  lemma ContinueKeepsInv(s: Supervisor, step: Step)
    requires Inv(s) && s.boot == Up && step.Continue?
    ensures Inv(ContinueChain(s, step))
  {
    match s.chain
    case Free =>
    case RestartChecked => RestartContinues(s, step);
    case RestartRead(_) => RestartContinues(s, step);
    case RestartCalling(_) => RestartContinues(s, step);
    case StageChecked(_, _) => StageContinues(s, step);
    case StageFetching(_, _) => StageContinues(s, step);
    case SubmitChecked => SubmitContinues(s, step);
    case SubmitValidating => SubmitContinues(s, step);
    case AckChecked => AckContinues(s, step);
    case ApplyChecked(_, _, _) => ApplyContinues(s, step);
    case ApplyArming => ApplyContinues(s, step);
  }

  lemma PollKeepsInv(s: Supervisor, targetInstalled: bool)
    requires Inv(s)
    ensures Inv(PollStep(s, targetInstalled))
  {}

  lemma DecisionFollowsCatalog(f: File, catalog: Catalog, approved: ActivationMode)
    requires f.mode == f.statusMode == Some(approved) && ModeFor(f, catalog).Some?
    ensures ModeFor(f, catalog).value == ForwardOnly <==> approved == ForwardOnly || Demands(catalog, TargetCatalog(f))
  {}

  lemma DecisionKeepsInv(s: Supervisor, ending: Ending, saved: bool)
    requires Inv(s) && |s.activations| == 1 && s.activations[0].Fired?
    ensures Inv(ActivationStepOf(s, 0, ending, saved))
  {
    assert ActivationOk(s, s.activations[0]);
    if ModeFor(s.file, s.catalog).Some? { DecisionFollowsCatalog(s.file, s.catalog, s.approval.mode); }
  }

  lemma CallKeepsInv(s: Supervisor, ending: Ending, saved: bool)
    requires Inv(s) && |s.activations| == 1 && s.activations[0].Decided?
    ensures Inv(ActivationStepOf(s, 0, ending, saved))
  {
    assert ActivationOk(s, s.activations[0]);
  }

  lemma EndingKeepsInv(s: Supervisor, ending: Ending, saved: bool)
    requires Inv(s) && |s.activations| == 1 && s.activations[0].Calling?
    ensures Inv(ActivationStepOf(s, 0, ending, saved))
  {
    assert ActivationOk(s, s.activations[0]);
  }

  lemma ActivationKeepsInv(s: Supervisor, ending: Ending, saved: bool)
    requires Inv(s) && |s.activations| == 1
    ensures Inv(ActivationStepOf(s, 0, ending, saved))
  {
    match s.activations[0]
    case Fired => DecisionKeepsInv(s, ending, saved);
    case Decided(_, _) => CallKeepsInv(s, ending, saved);
    case Calling(_) => EndingKeepsInv(s, ending, saved);
  }

  lemma BootKeepsInv(s: Supervisor, recovered: bool, written: bool)
    requires Inv(s)
    ensures Inv(BootStepOf(s, recovered, written))
  {
    if UpdateBusy(s.file) && ModeFor(s.file, s.catalog).Some? {
      DecisionFollowsCatalog(s.file, s.catalog, s.approval.mode);
    }
  }

  lemma ProcessKeepsInv(s: Supervisor, step: Step)
    requires Inv(s) && (step.TimerFires? || step.Die? || step.BootStep?)
    ensures Inv(Next(s, step))
  {
    if step.BootStep? { BootKeepsInv(s, step.recovered, step.written); }
  }

  lemma NextKeepsInv(s: Supervisor, step: Step)
    requires Inv(s)
    ensures Inv(Next(s, step))
  {
    match step
    case Continue(_, _, _, _, _, _) => if s.boot == Up { ContinueKeepsInv(s, step); }
    case Poll(targetInstalled) => PollKeepsInv(s, targetInstalled);
    case ActivationStep(i, ending, saved) => if i < |s.activations| { ActivationKeepsInv(s, ending, saved); }
    case TimerFires => ProcessKeepsInv(s, step);
    case Die(_) => ProcessKeepsInv(s, step);
    case BootStep(_, _) => ProcessKeepsInv(s, step);
    case _ => if s.boot == Up && s.chain == Free { RequestKeepsInv(s, step); }
  }

  lemma {:induction false} EveryRunKeepsInv(catalog: Catalog, steps: seq<Step>)
    ensures Inv(Exec(catalog, steps))
    decreases |steps|
  {
    if steps != [] {
      EveryRunKeepsInv(catalog, steps[..|steps| - 1]);
      NextKeepsInv(Exec(catalog, steps[..|steps| - 1]), steps[|steps| - 1]);
    }
  }

  /** No run, however requests, timers, polls, rejected writes and crashes interleave, has a restart
      pending while an update is scheduled or being activated; at most one activation is in flight. */
  lemma RestartAndUpdateExclude(catalog: Catalog, steps: seq<Step>)
    ensures !(RestartBusy(Exec(catalog, steps).file) && UpdateBusy(Exec(catalog, steps).file))
    ensures |Exec(catalog, steps).activations| <= 1
  {
    EveryRunKeepsInv(catalog, steps);
  }

  /** No update is scheduled forward-only without confirmation; and one that was scheduled so is never
      activated with automatic rollback nor undone by activating the previous release. */
  lemma ForwardOnlyIsConfirmedAndFinal(catalog: Catalog, steps: seq<Step>)
    ensures forall a :: a in Exec(catalog, steps).approvals && a.mode == ForwardOnly ==> a.confirmed
    ensures forall c :: c in Exec(catalog, steps).calls && c.approval.mode == ForwardOnly ==>
      c.approval.confirmed && !c.previousRelease && !c.automaticRollback
  {
    EveryRunKeepsInv(catalog, steps);
  }

  /** Exactly when an activation that nobody confirmed runs without automatic rollback: when the
      supervisor that fires it, perhaps a later one than scheduled it, meets a release whose protected
      stores are not its own. Otherwise a call without rollback belongs to a confirmed approval. */
  lemma UnconfirmedExactly(catalog: Catalog, steps: seq<Step>, c: ActivateCall)
    requires c in Exec(catalog, steps).calls
    ensures c.approval in Exec(catalog, steps).approvals
    ensures !c.approval.confirmed ==> (!c.automaticRollback <==> Demands(c.catalog, c.target))
    ensures !c.automaticRollback && !Demands(c.catalog, c.target) ==> c.approval.confirmed
    ensures c.previousRelease ==> !Demands(c.catalog, c.target) && c.approval.mode == RollbackSafe
  {
    EveryRunKeepsInv(catalog, steps);
  }

  // ----- the run that disables rollback unasked ---------------------------------------

  function Fetching(fetch: Fetch): Step {
    Continue(true, true, 0, fetch, NeitherInstalled, "before")
  }

  /** Stage and schedule a release that is rollback-safe; then a supervisor with other stores takes
      over, fires the schedule and activates. */
  function UnaskedRun(release: string, target: Catalog, later: Catalog): seq<Step> {
    [BootStep(true, true), BootStep(true, true),
     RequestStage(release, false), Fetching(FetchFailed), Fetching(Fetched(target)),
     RequestApply(release, false), Fetching(FetchFailed), Die(later),
     BootStep(true, true), TimerFires, ActivationStep(0, Activated, true), ActivationStep(0, Activated, true)]
  }

  /** Running from a state, step after step. */
  ghost function After(s: Supervisor, steps: seq<Step>): Supervisor
    decreases |steps|
  {
    if steps == [] then s else After(Next(s, steps[0]), steps[1..])
  }

  lemma {:induction false} ExecAfter(catalog: Catalog, before: seq<Step>, steps: seq<Step>)
    ensures Exec(catalog, before + steps) == After(Exec(catalog, before), steps)
    decreases |steps|
  {
    if steps == [] {
      assert before + steps == before;
    } else {
      var next := before + [steps[0]];
      assert next[..|next| - 1] == before && before + steps == next + steps[1..];
      ExecAfter(catalog, next, steps[1..]);
    }
  }

  lemma Booted(catalog: Catalog) returns (s: Supervisor)
    ensures s == Next(Next(Exec(catalog, []), BootStep(true, true)), BootStep(true, true))
    ensures s == Exec(catalog, []).(boot := Up)
  {
    s := Exec(catalog, []).(boot := Up);
  }

  lemma StagedSafe(s: Supervisor, release: string, target: Catalog) returns (t: Supervisor)
    requires s == Exec(s.catalog, []).(boot := Up) && CatalogMode(s.catalog, target) == Some(RollbackSafe)
    ensures t == Next(Next(Next(s, RequestStage(release, false)), Fetching(FetchFailed)), Fetching(Fetched(target)))
    ensures t == s.(file := t.file) && t.file.phase == Staged && t.file.restart.phase == NoRestart
    ensures t.file.mode == t.file.statusMode == Some(RollbackSafe) && t.file.legacy == Some(Artifact(release, target))
  {
    var s1 := Next(s, RequestStage(release, false));
    assert s1 == s.(chain := StageChecked(release, false));
    var s2 := Next(s1, Fetching(FetchFailed));
    assert s2.chain == StageFetching(release, false) && s2.catalog == s.catalog;
    t := Next(s2, Fetching(Fetched(target)));
  }

  lemma ScheduledSafe(s: Supervisor, release: string, target: Catalog) returns (t: Supervisor)
    requires s.boot == Up && s.chain == Free && s.calls == [] && s.approvals == []
    requires s.file.phase == Staged && s.file.restart.phase == NoRestart
    requires CatalogMode(s.catalog, target) == Some(RollbackSafe)
    requires s.file.mode == s.file.statusMode == Some(RollbackSafe) && s.file.legacy == Some(Artifact(release, target))
    ensures t == Next(Next(s, RequestApply(release, false)), Fetching(FetchFailed))
    ensures IsUnasked(t, release, target)
  {
    assert ModeFor(s.file, s.catalog) == Some(RollbackSafe);
    var s1 := Next(s, RequestApply(release, false));
    assert s1 == s.(chain := ApplyChecked(release, RollbackSafe, false));
    t := Next(s1, Fetching(FetchFailed));
  }

  /** Scheduled rollback-safe, and nobody confirmed anything. */
  ghost predicate IsUnasked(s: Supervisor, release: string, target: Catalog) {
    && s.file.phase == Scheduled && s.file.mode == s.file.statusMode == Some(RollbackSafe)
    && s.file.legacy == Some(Artifact(release, target)) && s.calls == []
    && s.approval == Approval(Some(RollbackSafe), RollbackSafe, false)
  }

  /** The first half of the run. */
  lemma ScheduledUnconfirmed(catalog: Catalog, release: string, target: Catalog) returns (s: Supervisor)
    requires CatalogMode(catalog, target) == Some(RollbackSafe)
    ensures s == After(Exec(catalog, []), UnaskedRun(release, target, [])[..7]) && IsUnasked(s, release, target)
  {
    var booted := Booted(catalog);
    var staged := StagedSafe(booted, release, target);
    s := ScheduledSafe(staged, release, target);
    AfterSeven(Exec(catalog, []), UnaskedRun(release, target, [])[..7]);
  }

  lemma AfterSeven(s: Supervisor, run: seq<Step>)
    requires |run| == 7
    ensures var t := Next(Next(Next(Next(s, run[0]), run[1]), run[2]), run[3]);
      After(s, run) == Next(Next(Next(t, run[4]), run[5]), run[6])
  {
    AfterTwo(s, run);
    AfterTwo(Next(Next(s, run[0]), run[1]), run[2..]);
    var t := Next(Next(Next(Next(s, run[0]), run[1]), run[2]), run[3]);
    assert run[2..][2..] == run[4..];
    AfterTwo(t, run[4..]);
    assert run[4..][2..] == [run[6]];
    assert [run[6]][1..] == [];
  }

  lemma AfterTwo(s: Supervisor, run: seq<Step>)
    requires |run| >= 2
    ensures After(s, run) == After(Next(Next(s, run[0]), run[1]), run[2..])
  {
    assert run[1..][0] == run[1] && run[1..][1..] == run[2..];
  }

  /** Such a run exists for every rollback-safe release and every later catalog that demands otherwise:
      it ends in a call with rollback disabled that nobody confirmed. */
  lemma UnconfirmedForwardOnlyHappens(catalog: Catalog, release: string, target: Catalog, later: Catalog)
    requires CatalogMode(catalog, target) == Some(RollbackSafe) && CatalogMode(later, target) == Some(ForwardOnly)
    ensures Exec(catalog, UnaskedRun(release, target, later)).calls
      == [ActivateCall(false, false, Approval(Some(RollbackSafe), RollbackSafe, false), later, target)]
  {
    var run := UnaskedRun(release, target, later);
    var s := ScheduledUnconfirmed(catalog, release, target);
    assert run[..7] == UnaskedRun(release, target, [])[..7];
    ExecAfter(catalog, [], run[..7]);
    assert [] + run[..7] == run[..7];
    ExecAfter(catalog, run[..7], run[7..]);
    assert run[..7] + run[7..] == run;
    FiresUnconfirmed(s, release, target, later, run[7..]);
  }

  lemma BootsIntoFiring(s: Supervisor, release: string, target: Catalog, later: Catalog) returns (t: Supervisor)
    requires IsUnasked(s, release, target)
    ensures t == Next(Next(Next(s, Die(later)), BootStep(true, true)), TimerFires)
    ensures t.file == s.file && t.catalog == later && t.activations == [Fired]
    ensures t.calls == [] && t.approval == s.approval
  {
    var s1 := Next(s, Die(later));
    var s2 := Next(s1, BootStep(true, true));
    assert s2.armed && s2.activations == [];
    t := Next(s2, TimerFires);
  }

  lemma DecidesForwardOnly(s: Supervisor, release: string, target: Catalog) returns (t: Supervisor)
    requires s.file.phase == Scheduled && s.file.legacy == Some(Artifact(release, target)) && s.activations == [Fired]
    requires s.calls == [] && CatalogMode(s.catalog, target) == Some(ForwardOnly)
    ensures t == Next(Next(s, ActivationStep(0, Activated, true)), ActivationStep(0, Activated, true))
    ensures t.calls == [ActivateCall(false, false, s.approval, s.catalog, target)]
  {
    assert ModeFor(s.file, s.catalog) == Some(ForwardOnly);
    var s1 := Next(s, ActivationStep(0, Activated, true));
    assert s1.activations == [Decided(ForwardOnly, target)];
    t := Next(s1, ActivationStep(0, Activated, true));
  }

  lemma FiresUnconfirmed(s: Supervisor, release: string, target: Catalog, later: Catalog, rest: seq<Step>)
    requires IsUnasked(s, release, target) && CatalogMode(later, target) == Some(ForwardOnly)
    requires rest == [Die(later), BootStep(true, true), TimerFires,
                      ActivationStep(0, Activated, true), ActivationStep(0, Activated, true)]
    ensures After(s, rest).calls == [ActivateCall(false, false, s.approval, later, target)]
  {
    var fired := BootsIntoFiring(s, release, target, later);
    var called := DecidesForwardOnly(fired, release, target);
    AfterTwo(s, rest);
    AfterTwo(Next(Next(s, rest[0]), rest[1]), rest[2..]);
    assert rest[2..][2..] == [rest[4]] && [rest[4]][1..] == [];
    var s4 := Next(Next(Next(Next(s, rest[0]), rest[1]), rest[2]), rest[3]);
    assert After(s4, [rest[4]]) == Next(s4, rest[4]);
  }
}

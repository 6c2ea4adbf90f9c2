/** What becomes of an update and of a restart, told by what happened: the persisted file is at every
    moment of every run the sum of the facts so far. */
module UpdateLog {
  import opened Outcomes
  import opened StateCatalog
  import opened UpdateSupervisor

  /** What happened, where it was written down. */
  datatype Fact =
    // a release is looked for
    | StagingBegan(release: string, byAgent: bool)
    | StagingFailed
    | AlreadyInstalled(byAgent: bool)
    | ReleaseStaged(release: string, stores: Catalog, needs: ActivationMode)
    | PromptReady(release: string, stores: Catalog, needs: ActivationMode)
    // an agent builds it
    | AgentBegan
    | AgentGaveUp
    | ValidationBegan
    | ValidationEnded(sound: bool)
    // it is installed
    | FoundInstalled
    | UpdateScheduled(release: string, decided: ActivationMode, before: string)
    | ActivationBegan
    | ActivationProbed
    | ActivationEnded(ending: Ending, mode: ActivationMode)
    // the supervisor died over it
    | InterruptedForwardOnly
    | InterruptedWithoutPrevious
    | RecoveryEnded(restored: bool)
    | RepairAcknowledged(installed: Installed)
    // the Gateway is restarted
    | RestartRequested(id: nat)
    | RestartBegan(id: nat)
    | RestartEnded(id: nat, ready: bool)
    | RestartResumed

  /** What is a fact once a request in flight has its write accepted. */
  ghost function RequestFact(s: Supervisor, step: Step): Option<Fact>
    requires step.Continue?
  {
    var f := s.file;
    match s.chain
    case RestartChecked => Some(RestartRequested(step.newId))
    case RestartRead(id) => if f.restart == Restart(RestartScheduled, id) then Some(RestartBegan(id)) else None
    case RestartCalling(id) => if f.restart.id == id then Some(RestartEnded(id, step.ok)) else None
    case StageChecked(release, byAgent) => Some(StagingBegan(release, byAgent))
    case StageFetching(release, byAgent) =>
      var mode := if step.fetch.FetchFailed? then None else CatalogMode(s.catalog, step.fetch.catalog);
      if mode.None? then Some(StagingFailed)
      else if step.fetch.SameBuild? then Some(AlreadyInstalled(byAgent))
      else if byAgent then Some(PromptReady(release, step.fetch.catalog, mode.value))
      else Some(ReleaseStaged(release, step.fetch.catalog, mode.value))
    case SubmitChecked => Some(ValidationBegan)
    case SubmitValidating => Some(ValidationEnded(step.ok))
    case AckChecked =>
      if f.phase == RepairRequired && step.installed != NeitherInstalled then Some(RepairAcknowledged(step.installed))
      else None
    case ApplyChecked(release, mode, _) =>
      if step.ok && HasRelease(f, release) && f.phase == Staged
      then Some(UpdateScheduled(release, mode, step.previousTarget)) else None
    case _ => None
  }

  ghost function BootFact(s: Supervisor, recovered: bool): Option<Fact> {
    match s.boot
    case BootStart =>
      if s.file.phase != Activating && s.file.phase != Probation then None
      else if ModeFor(s.file, s.catalog) == Some(ForwardOnly) then Some(InterruptedForwardOnly)
      else if ModeFor(s.file, s.catalog).Some? && s.file.previous.None? then Some(InterruptedWithoutPrevious)
      else None
    case BootRecovering => Some(RecoveryEnded(recovered))
    case BootRestart => if s.file.restart.phase == Restarting then Some(RestartResumed) else None
    case Up => None
  }

  /** The fact that a step of the environment establishes in a state, if any. */
  ghost function FactOf(s: Supervisor, step: Step): Option<Fact> {
    var f := s.file;
    match step
    case Continue(_, lands, _, _, _, _) => if s.boot == Up && lands then RequestFact(s, step) else None
    case RequestBegin(release, sameOwner) =>
      if s.boot == Up && s.chain == Free && f.agent.Some? && f.agent.value.release == release
         && (f.phase == AgentRequired || f.phase == Failed || (f.phase == AgentRunning && sameOwner))
      then Some(AgentBegan) else None
    case RequestFail(release) =>
      if s.boot == Up && s.chain == Free && f.agent.Some? && f.agent.value.release == release && f.phase == AgentRunning
      then Some(AgentGaveUp) else None
    case Poll(targetInstalled) =>
      if s.boot == Up && targetInstalled && f.release.Some?
         && (f.phase == AgentRequired || f.phase == AgentRunning || f.phase == AgentValidating || f.phase == Staged)
      then Some(FoundInstalled) else None
    case ActivationStep(i, ending, saved) =>
      if i >= |s.activations| || !saved then None
      else if s.activations[i].Decided? then Some(ActivationBegan)
      else if s.activations[i].Calling? then
        if ending.Activated? then Some(ActivationProbed) else Some(ActivationEnded(ending, s.activations[i].mode))
      else None
    case BootStep(recovered, written) => if written then BootFact(s, recovered) else None
    case _ => None
  }

  /** The phase an update is in once the fact is established; `None` for facts about restarts. */
  function PhaseOf(fact: Fact): Option<Phase> {
    match fact
    case StagingBegan(_, _) => Some(Staging)
    case StagingFailed => Some(Failed)
    case AlreadyInstalled(_) => Some(Committed)
    case ReleaseStaged(_, _, _) => Some(Staged)
    case PromptReady(_, _, _) => Some(AgentRequired)
    case AgentBegan => Some(AgentRunning)
    case AgentGaveUp => Some(Failed)
    case ValidationBegan => Some(AgentValidating)
    case ValidationEnded(sound) => Some(if sound then Staged else Failed)
    case FoundInstalled => Some(Committed)
    case UpdateScheduled(_, _, _) => Some(Scheduled)
    case ActivationBegan => Some(Activating)
    case ActivationProbed => Some(Probation)
    case ActivationEnded(ending, mode) =>
      Some(match ending
           case Succeeded => Committed
           case EndedRolledBack => RolledBack
           case PreparationFailed => if mode == ForwardOnly then Staged else RepairRequired
           case _ => RepairRequired)
    case InterruptedForwardOnly => Some(RepairRequired)
    case InterruptedWithoutPrevious => Some(RepairRequired)
    case RecoveryEnded(restored) => Some(if restored then RolledBack else RepairRequired)
    case RepairAcknowledged(installed) => Some(if installed == TargetInstalled then Committed else RolledBack)
    case _ => None
  }

  /** The modes on file, of the update and of its status, after the fact. */
  function ModesAfter(f: File, fact: Fact): (Option<ActivationMode>, Option<ActivationMode>) {
    match fact
    case StagingBegan(_, _) => (None, None)
    case StagingFailed => (f.mode, None)
    case AlreadyInstalled(_) => (f.mode, None)
    case ReleaseStaged(_, _, needs) => (Some(needs), Some(needs))
    case PromptReady(_, _, needs) => (Some(needs), Some(needs))
    case FoundInstalled => (f.mode, None)
    case UpdateScheduled(_, decided, _) => (Some(decided), Some(decided))
    case ActivationEnded(ending, _) => if ending.Succeeded? then (None, None) else (f.mode, f.statusMode)
    case InterruptedForwardOnly => (Some(ForwardOnly), Some(ForwardOnly))
    case _ => (f.mode, f.statusMode)
  }

  /** The previous release on file: kept from the schedule until the update is settled well, or found not
      to have begun. */
  function PreviousAfter(f: File, fact: Fact): Option<string> {
    match fact
    case UpdateScheduled(_, _, before) => Some(before)
    case FoundInstalled => None
    case RepairAcknowledged(_) => None
    case ActivationEnded(ending, mode) =>
      if ending.Succeeded? || (ending.PreparationFailed? && mode == ForwardOnly) then None else f.previous
    case _ => f.previous
  }

  function RestartAfter(r: Restart, fact: Fact): Restart {
    match fact
    case RestartRequested(id) => Restart(RestartScheduled, id)
    case RestartBegan(id) => Restart(Restarting, id)
    case RestartEnded(id, ready) => Restart(if ready then Ready else RestartFailed, id)
    case RestartResumed => Restart(RestartScheduled, r.id)
    case _ => r
  }

  /** The releases on file after the fact: one that was downloaded, one an agent builds, and whether that
      one is sealed. */
  function LegacyAfter(f: File, fact: Fact): Option<Artifact> {
    match fact
    case StagingBegan(_, byAgent) => if byAgent then None else f.legacy
    case AlreadyInstalled(byAgent) => if byAgent then f.legacy else None
    case ReleaseStaged(release, stores, _) => Some(Artifact(release, stores))
    case _ => f.legacy
  }

  function AgentAfter(f: File, fact: Fact): Option<Artifact> {
    match fact
    case StagingBegan(_, _) => None
    case ReleaseStaged(_, _, _) => None
    case PromptReady(release, stores, _) => Some(Artifact(release, stores))
    case _ => f.agent
  }

  function SealedAfter(f: File, fact: Fact): bool {
    match fact
    case StagingBegan(_, _) => false
    case ReleaseStaged(_, _, _) => false
    case ValidationEnded(sound) => sound || f.sealed
    case _ => f.sealed
  }

  /** What `f` is after the fact. */
  function FileAfter(f: File, fact: Fact): File {
    File(if PhaseOf(fact).Some? then PhaseOf(fact).value else f.phase,
         if fact.StagingBegan? || fact.UpdateScheduled? then Some(fact.release) else f.release,
         ModesAfter(f, fact).1,
         LegacyAfter(f, fact), AgentAfter(f, fact), SealedAfter(f, fact),
         ModesAfter(f, fact).0,
         PreviousAfter(f, fact),
         RestartAfter(f.restart, fact))
  }

  // ---------------------------------------------------------------------------
  // The file is what its facts say
  // ---------------------------------------------------------------------------

  /** A step changes the file exactly as its fact says, and not at all without one. */
  ghost predicate Told(s: Supervisor, step: Step) {
    var fact := FactOf(s, step);
    Next(s, step).file == if fact.Some? then FileAfter(s.file, fact.value) else s.file
  }

  lemma RestartIsTold(s: Supervisor, step: Step)
    requires step.Continue? && (s.chain.RestartChecked? || s.chain.RestartRead? || s.chain.RestartCalling?)
    ensures Told(s, step)
  {
  }

  lemma StagingIsTold(s: Supervisor, step: Step)
    requires step.Continue? && (s.chain.StageChecked? || s.chain.StageFetching?)
    ensures Told(s, step)
  {
  }

  lemma SubmissionIsTold(s: Supervisor, step: Step)
    requires step.Continue? && (s.chain.SubmitChecked? || s.chain.SubmitValidating?)
    ensures Told(s, step)
  {
  }

  lemma ApplicationIsTold(s: Supervisor, step: Step)
    requires step.Continue?
    requires s.chain.AckChecked? || s.chain.ApplyChecked? || s.chain.ApplyArming? || s.chain.Free?
    ensures Told(s, step)
  {
  }

  lemma RequestIsTold(s: Supervisor, step: Step)
    requires step.Continue?
    ensures Told(s, step)
  {
    match s.chain
    case RestartChecked => RestartIsTold(s, step);
    case RestartRead(_) => RestartIsTold(s, step);
    case RestartCalling(_) => RestartIsTold(s, step);
    case StageChecked(_, _) => StagingIsTold(s, step);
    case StageFetching(_, _) => StagingIsTold(s, step);
    case SubmitChecked => SubmissionIsTold(s, step);
    case SubmitValidating => SubmissionIsTold(s, step);
    case _ => ApplicationIsTold(s, step);
  }

  lemma ActivationIsTold(s: Supervisor, step: Step)
    requires step.ActivationStep?
    ensures Told(s, step)
  {
  }

  lemma BootIsTold(s: Supervisor, step: Step)
    requires step.BootStep?
    ensures Told(s, step)
  {
    if s.boot == BootStart { StartIsTold(s, step); }
  }

  lemma StartIsTold(s: Supervisor, step: Step)
    requires step.BootStep? && s.boot == BootStart
    ensures Told(s, step)
  {
  }

  lemma StepIsTold(s: Supervisor, step: Step)
    ensures Told(s, step)
  {
    if step.Continue? {
      RequestIsTold(s, step);
    } else if step.ActivationStep? {
      ActivationIsTold(s, step);
    } else if step.BootStep? {
      BootIsTold(s, step);
    }
  }

  /** The facts of a run, in order, and the steps that established none left out. */
  ghost function Facts(catalog: Catalog, steps: seq<Step>): seq<Fact> {
    if steps == [] then []
    else
      var init := steps[..|steps| - 1];
      Facts(catalog, init) + Noted(FactOf(Exec(catalog, init), steps[|steps| - 1]))
  }

  function Noted(fact: Option<Fact>): seq<Fact> {
    if fact.Some? then [fact.value] else []
  }

  /** What a fresh file becomes through the facts. */
  ghost function Replay(facts: seq<Fact>): File {
    if facts == [] then Exec([], []).file else FileAfter(Replay(facts[..|facts| - 1]), facts[|facts| - 1])
  }

  /** In every run the file is the replay of its facts. */
  lemma {:induction false} FileIsItsFacts(catalog: Catalog, steps: seq<Step>)
    ensures Exec(catalog, steps).file == Replay(Facts(catalog, steps))
    decreases |steps|
  {
    if steps != [] {
      var init, last := steps[..|steps| - 1], steps[|steps| - 1];
      FileIsItsFacts(catalog, init);
      StepIsTold(Exec(catalog, init), last);
      ReplayGrows(Facts(catalog, init), FactOf(Exec(catalog, init), last));
    }
  }

  lemma ReplayGrows(facts: seq<Fact>, fact: Option<Fact>)
    ensures Replay(facts + Noted(fact)) == if fact.Some? then FileAfter(Replay(facts), fact.value) else Replay(facts)
  {
    if fact.Some? {
      assert (facts + [fact.value])[..|facts|] == facts;
    } else {
      assert facts + [] == facts;
    }
  }

  // ---------------------------------------------------------------------------
  // How an update ends
  // ---------------------------------------------------------------------------

  /** In every run, an update turns committed exactly when its activation returned normally, its build is
      found installed, or a repair is acknowledged on it; rolled back exactly when its activation ended so,
      the previous release was restored at a restart, or a repair is acknowledged on that; and in need of
      repair exactly when the activation ended in any other way than these and than a forward-only
      preparation that failed, which leaves it staged, or when the supervisor died over it and could not
      restore the previous release. An activation clears the modes when it succeeds, and the previous
      release then and when it did not begin. */
  lemma EndsExactly(catalog: Catalog, steps: seq<Step>, step: Step)
    ensures var s, t := Exec(catalog, steps), Exec(catalog, steps + [step]);
      var fact := FactOf(s, step);
      t.file.phase != s.file.phase ==>
        && (t.file.phase == Committed <==>
              fact.Some? && (fact.value.FoundInstalled? || fact.value.AlreadyInstalled?
                             || fact.value == RepairAcknowledged(TargetInstalled)
                             || (fact.value.ActivationEnded? && fact.value.ending.Succeeded?)))
        && (t.file.phase == RolledBack <==>
              fact.Some? && (fact.value == RecoveryEnded(true) || fact.value == RepairAcknowledged(RollbackInstalled)
                             || (fact.value.ActivationEnded? && fact.value.ending.EndedRolledBack?)))
        && (t.file.phase == RepairRequired <==>
              fact.Some? && (fact.value.InterruptedForwardOnly? || fact.value.InterruptedWithoutPrevious?
                             || fact.value == RecoveryEnded(false)
                             || (fact.value.ActivationEnded?
                                 && (fact.value.ending.EndedOtherwise?
                                     || (fact.value.ending.PreparationFailed? && fact.value.mode == RollbackSafe)))))
    ensures var s, t := Exec(catalog, steps), Exec(catalog, steps + [step]);
      var fact := FactOf(s, step);
      fact.Some? && fact.value.ActivationEnded? ==>
        var unbegun := fact.value.ending.PreparationFailed? && fact.value.mode == ForwardOnly;
        var done := fact.value.ending.Succeeded?;
        && (t.file.phase == Staged <==> unbegun)
        && t.file.previous == (if done || unbegun then None else s.file.previous)
        && t.file.mode == (if done then None else s.file.mode)
        && t.file.statusMode == (if done then None else s.file.statusMode)
  {
    assert (steps + [step])[..|steps|] == steps;
    StepIsTold(Exec(catalog, steps), step);
    NeitherIsNoFact(Exec(catalog, steps), step);
  }

  lemma NeitherIsNoFact(s: Supervisor, step: Step)
    ensures FactOf(s, step).Some? && FactOf(s, step).value.RepairAcknowledged? ==>
      FactOf(s, step).value.installed != NeitherInstalled
    ensures FactOf(s, step).Some? && FactOf(s, step).value.ActivationEnded? ==> !FactOf(s, step).value.ending.Activated?
  {
  }

  // ---------------------------------------------------------------------------
  // What requests lead to
  // ---------------------------------------------------------------------------

  predicate Idling(s: Supervisor) { s.boot == Up && s.chain == Free }

  function Landing(fetch: Fetch, installed: Installed, ok: bool, id: nat, before: string): Step {
    Continue(ok, true, id, fetch, installed, before)
  }

  /** A restart request is taken exactly when neither a restart nor an update is on its way, and then runs
      to the end its Gateway comes to. */
  lemma RestartRuns(s: Supervisor, id: nat, ok: bool)
    requires Idling(s)
    ensures var go := Landing(FetchFailed, NeitherInstalled, ok, id, "");
      var t := Next(Next(s, RequestRestart), go);
      && Idling(t)
      && t.file == (if RestartBusy(s.file) || UpdateBusy(s.file) then s.file
                    else s.file.(restart := Restart(RestartScheduled, id)))
      && (t.file.restart.phase == RestartScheduled ==>
            Next(Next(Next(t, RestartTimerFires), go), go).file
            == t.file.(restart := Restart(if ok then Ready else RestartFailed, t.file.restart.id)))
  {
  }

  /** The updates of release `r` that are under way or done, which a request for it returns as they are. */
  predicate UnderWay(f: File, r: string) {
    f.release == Some(r) && (f.phase == Staged || f.phase == Committed || UpdateBusy(f))
  }

  /** A staging request is taken exactly when no update is on its way and the release is not there yet, and
      then ends as its download does. */
  lemma StagingRuns(s: Supervisor, release: string, byAgent: bool, fetch: Fetch)
    requires Idling(s)
    ensures var go := Landing(fetch, NeitherInstalled, true, 0, "");
      var t := Next(Next(Next(s, RequestStage(release, byAgent)), go), go);
      var mode := if fetch.FetchFailed? then None else CatalogMode(s.catalog, fetch.catalog);
      var taken := !UnderWay(s.file, release) && !UpdateBusy(s.file)
        && !(byAgent && s.file.release == Some(release)
             && (s.file.phase == AgentRequired || s.file.phase == AgentRunning));
      && Idling(t)
      && (!taken ==> t.file == s.file)
      && (taken ==>
            && t.file.release == Some(release)
            && t.file.phase == (if mode.None? then Failed else if fetch.SameBuild? then Committed
                                else if byAgent then AgentRequired else Staged)
            && (mode.Some? && fetch.Fetched? ==>
                  t.file.mode == t.file.statusMode == mode
                  && Target(t.file) == Some(Artifact(release, fetch.catalog)) && !t.file.sealed))
  {
  }

  /** A submission is taken exactly from the agent's release while it is being built or has failed, and the
      release is staged exactly when it proves sound. */
  lemma SubmissionRuns(s: Supervisor, release: string, sound: bool)
    requires Idling(s)
    ensures var go := Landing(FetchFailed, NeitherInstalled, sound, 0, "");
      var t := Next(Next(Next(s, RequestSubmit(release)), go), go);
      var taken := !UnderWay(s.file, release) && s.file.agent.Some? && s.file.agent.value.release == release
        && (s.file.phase == AgentRequired || s.file.phase == AgentRunning || s.file.phase == Failed);
      && Idling(t)
      && t.file == (if !taken then s.file
                    else if sound then s.file.(phase := Staged, sealed := true) else s.file.(phase := Failed))
  {
  }

  /** A staged release, downloaded or built and sealed, is scheduled exactly when no restart is on its way,
      its stores can be compared, and a forward-only activation is confirmed; and then its timer is armed. */
  lemma ApplicationRuns(s: Supervisor, release: string, confirmed: bool, before: string)
    requires Idling(s)
    ensures var go := Landing(FetchFailed, NeitherInstalled, true, 0, before);
      var t := Next(Next(Next(s, RequestApply(release, confirmed)), go), go);
      var mode := ModeFor(s.file, s.catalog);
      var downloaded := s.file.legacy.Some? && s.file.legacy.value.release == release;
      var built := s.file.agent.Some? && s.file.agent.value.release == release && s.file.sealed;
      var taken := !RestartBusy(s.file) && s.file.phase == Staged && (downloaded || built)
        && mode.Some? && (mode.value == ForwardOnly ==> confirmed);
      && Idling(t)
      && (!taken ==> t.file == s.file && t.armed == s.armed)
      && (taken ==>
            && t.armed && t.file.phase == Scheduled && t.file.release == Some(release)
            && t.file.mode == t.file.statusMode == mode && t.file.previous == Some(before)
            && t.file.legacy == s.file.legacy && t.file.agent == s.file.agent && t.file.restart == s.file.restart)
  {
  }

  /** A repair is acknowledged exactly when one is needed and one of the two builds is installed. */
  lemma AcknowledgementRuns(s: Supervisor, installed: Installed)
    requires Idling(s)
    ensures var t := Next(Next(s, RequestAcknowledge), Landing(FetchFailed, installed, true, 0, ""));
      && Idling(t)
      && t.file == (if s.file.phase != RepairRequired || installed == NeitherInstalled then s.file
                    else s.file.(phase := if installed == TargetInstalled then Committed else RolledBack,
                                 previous := None))
  {
  }

  /** A scheduled update whose timer fires is activated with the mode its file and stores call for, and ends
      as its call does. */
  lemma ActivationRuns(s: Supervisor, ending: Ending)
    requires s.armed && s.activations == [] && s.file.phase == Scheduled && Target(s.file).Some?
    requires ModeFor(s.file, s.catalog).Some? && !ending.Activated?
    ensures var mode := ModeFor(s.file, s.catalog).value;
      var step := ActivationStep(0, ending, true);
      var called := Next(Next(Next(s, TimerFires), step), step);
      && called.calls == s.calls
           + [ActivateCall(false, mode == RollbackSafe, s.approval, s.catalog, TargetCatalog(s.file))]
      && called.file == s.file.(phase := Activating) && called.activations == [Calling(mode)]
      && Next(called, step).file == FileAfter(called.file, ActivationEnded(ending, mode))
      && Next(called, step).activations == []
  {
    var mode := ModeFor(s.file, s.catalog).value;
    var step := ActivationStep(0, ending, true);
    var fired := Next(s, TimerFires);
    assert fired.activations == [Fired];
    var decided := Next(fired, step);
    assert decided.activations == [Decided(mode, TargetCatalog(s.file))];
    var called := Next(decided, step);
    assert called.activations == [Calling(mode)];
    StepIsTold(called, step);
  }

  /** An update is interrupted when the supervisor dies over its activation. */
  predicate Interrupted(f: File) {
    f.phase == Activating || f.phase == Probation
  }

  /** A supervisor that starts arms the timer exactly of a scheduled update, and calls the previous release
      back exactly for an interrupted one with automatic rollback that names it; it does not come up while
      the stores of an interrupted one cannot be compared. */
  lemma BootRuns(s: Supervisor, recovered: bool)
    requires s.boot == BootStart && !s.armed
    ensures var b := BootStep(recovered, true);
      var mode := ModeFor(s.file, s.catalog);
      var back := Interrupted(s.file) && mode == Some(RollbackSafe) && s.file.previous.Some?;
      var t := if back then Next(Next(Next(s, b), b), b) else Next(Next(s, b), b);
      if Interrupted(s.file) && mode.None? then t == s
      else
        && t.boot == Up && t.chain == s.chain && t.activations == s.activations && t.catalog == s.catalog
        && (t.armed <==> s.file.phase == Scheduled)
        && t.calls == s.calls + (if back then [ActivateCall(true, true, s.approval, s.catalog, TargetCatalog(s.file))]
                                 else [])
        && t.file.phase == (if !Interrupted(s.file) then s.file.phase
                            else if back && recovered then RolledBack else RepairRequired)
        && t.file.restart == (if s.file.restart.phase == Restarting then Restart(RestartScheduled, s.file.restart.id)
                              else s.file.restart)
  {
  }
}

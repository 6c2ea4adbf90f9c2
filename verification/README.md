# Gateway update and hand-over, verified

A Dafny model of the part of Malink that decides which release of the Gateway may own the business
data: the execution-track selector with its worker and process hosts, the blue/green deployment
coordinator, the update supervisor, and the merge that hands one Gateway's stores to another. Two
smaller pieces with exact rules stand beside them: the message splitter and the LaunchAgent
property-list editor.

How the model is built:

* Classes that persist a record and await a host are Dafny classes with the same fields. Every awaited
  dependency ends in `Ok`, `Throws` or `Crash` (module `Outcomes`), chosen freely; a crash in the middle
  of a write leaves the old or the new record. Ghost fields keep what a run did: every persisted record,
  and every host call with the record and the running releases at that moment. `Run` methods drive these
  classes through every sequence of requests, rejections, crashes and restarts.
* The update supervisor is a machine over atomic steps, because its timer and its status polls run
  between the steps of a serialized request.
* Loops over maps, lists, trees and texts are methods with loops, proved against a definition that does
  not mention the loop.
* `AtomicJsonFile.transaction` is one atomic step. Hashes and canonical JSON are equality. Key
  comparison (`localeCompare`) is any total preorder on keys, given as a parameter. Clocks and timers are
  free choices.

`dafny verify dfyconfig.toml` checks the project.

## Results

* **Tracks.** In every run with crashes anywhere, activation is granted only to the persisted target of an
  intent in `activating`. Everything that runs is the active or the target release, or one that an
  off-track selection made the record forget; apart from those, nothing but the granted release runs at a
  grant and nothing at a backup. A forward-only target is opened only behind a persisted backup, which is
  taken only with both recorded tracks stopped and never after a grant under that intent
  (`GrantAfterBackup`, `NoBackupAfterGrant`). The selected release and the forward-only decision are
  functions of the generation, and a new generation carries the decision of its request. No operation
  fails without a fault of the host or the file, or a refusal its contract names. Selecting the old
  standby in `attention` drops a failed target that may still run; `IntentCoversRunningExactly` says
  exactly when a selection forgets nothing, and `StandbySelectionForgetsFailedTarget` shows the case that
  does, from every steady record with a standby.
* **Coordinator.** No candidate is committed unless the calls just before drained this very update and
  transferred its state to this very candidate (`CommitAfterTransfer`). A commit that took effect is never
  rolled back and ends only in its candidate's take-over; one that did not never makes the candidate
  active. The retained recovery slot survives all but a commit, the generation counts changes of the
  active identity exactly, and each scheduled promotion starts at most once. Every operation states its
  calls, and fails only for a cause.
* **Supervisor.** No interleaving of requests, timers, polls and crashes has a restart pending while an
  update is scheduled or running. An update scheduled forward-only is always confirmed, and never
  activated with automatic rollback or into the previous directory. An update scheduled rollback-safe can
  still be activated with rollback disabled and unconfirmed: exactly when a later supervisor fires it
  whose own stores the release breaks (`UnconfirmedExactly`, `UnconfirmedForwardOnlyHappens`). In every
  run the persisted file is the replay of what happened (`FileIsItsFacts`), and an update ends committed,
  rolled back or in need of repair exactly for the stated endings (`EndsExactly`). The pinned channel only
  moves forward, and a refresh answers by the first mirror that decides.
* **Hand-over.** Record merges are least common extensions, so the inbox fold does not depend on order;
  replay merge is the pointwise maximum; the runtime merge is stated room by room and session by session,
  only scratch sessions changing their directory, and conserves all work or fails; the catalog merge does
  so exactly when a room is retained or no source project lacks its room ID (without either, a project is
  dropped and the merge succeeds), both with exact failure conditions. The native-release merge keeps the
  greatest version code of a key exactly when no code that is not a number cuts it off
  (`GreatestKeptExactly`); its key stands for the binding unless a part holds the separator.
* **Hosts.** One process host never has two Gateways at once. There are two process hosts, one per
  controller, and between them exclusion rests on the release that comes before a grant: the worker host
  meets it exactly when, before the call, no controller had been lost with its Gateway running
  (`ReleaseExecution`, `LostController`, and `RestartForgets` for a restart of the host itself). With
  serialized calls there are never more than two controllers, and success is the controller's answer to
  that very request; every request is settled once in any case.
* **Trees and texts.** The staged-release walk accepts exactly the listed tree, and a copied Agent tree
  always passes its own seal. Splitting loses nothing, counts real UTF-16 bytes, and the rule leaves
  exactly one result. Escaping round-trips. A set environment value reads back exactly when it is
  non-empty, trimmed, free of a dollar that `String.replace` would take as a directive, and its key was
  not left open; what another key reads is kept under an exact condition that holds of every list without
  markup inside its strings.

## Model

| member | source | states |
|---|---|---|
| TrackRecords.GenerationDeterminesSelection | src/ops/gatewayExecutionTracks.ts:73-117 | over any stretch of any persisted history the generation never falls, and equal generations have the same selected release |
| TrackRecords.IntentCoversRunningExactly | src/ops/gatewayExecutionTracks.ts:101-114 | an accepted intent keeps everything that may run inside the recorded pair exactly when the record was steady, the selection is of the old pair, or no second release was targeted |
| TrackRecords.StandbySelectionForgetsFailedTarget | src/ops/gatewayExecutionTracks.ts:84-86 | from every steady record with a standby: a failed handoff, then the selection of the standby, are accepted one after the other, and the new record names the failed target no more |
| TrackRecords.FailedTargetForgotten | src/ops/gatewayExecutionTracks.ts:101-107 | at one record built from a steady one: from release 1 with standby 0, the failed release 2 is forgotten |
| TrackRecords.GenerationNeverFalls | src/ops/gatewayExecutionTracks.ts:228-238 | no sequence of transactions lowers the generation |
| TrackRecords.AtMostOneIntentPerGeneration | src/ops/gatewayExecutionTracks.ts:101-114 | of any transactions quoting one generation at most one commits an intent |
| TrackSelector.GrantsFollowTheIntent | src/ops/gatewayExecutionTracks.ts:154-203 | one generation grants execution only to the release its intent selected, under the forward-only decision of that intent, whatever was interrupted and retried |
| TrackSelector.GrantAfterBackup | src/ops/gatewayExecutionTracks.ts:170-185 | every grant under a generation requested forward-only comes after a backup of that generation |
| TrackSelector.NoBackupAfterGrant | src/ops/gatewayExecutionTracks.ts:171-174 | no backup is taken once a grant was issued under its generation |
| TrackSelector.ForgottenInAttention | src/ops/gatewayExecutionTracks.ts:84-107 | what a history forgot, one of its intents in attention forgot |
| TrackSelector.ExecutionTracks.constructor | src/ops/gatewayExecutionTracks.ts:49-54 | a sound initial record starts a run that satisfies the invariant |
| TrackSelector.ExecutionTracks.Status | src/ops/gatewayExecutionTracks.ts:56-62 | returns the record, well only if it passes validation, and changes nothing |
| TrackSelector.ExecutionTracks.SaveRecord | src/ops/gatewayExecutionTracks.ts:228-238 | replaces the record under the same generation or leaves it, one history entry a save; a crash leaves one of the two |
| TrackSelector.ExecutionTracks.CommitIntent | src/ops/gatewayExecutionTracks.ts:101-114 | the compare-and-set writes the next generation, releasing, with the requested target and forward-only decision, no backup, no write boundary, the standby kept and the active release by cases, or nothing; it rejects a record that changed since it was read |
| TrackSelector.ExecutionTracks.RequestSelection | src/ops/gatewayExecutionTracks.ts:73-117 | a new generation carries the forward-only decision of its request; deferred, only the admission calls were made and the intent is releasing; otherwise the handoff is complete, with the old active release as standby unless the data is upgraded; it fails only for a fault or a stated reason; a stale generation or a switch in progress changes and calls nothing |
| TrackSelector.ExecutionTracks.SelectNew | src/ops/gatewayExecutionTracks.ts:88-115 | admit, commit, complete: the calls, the record and the reasons to fail of a new selection |
| TrackSelector.ExecutionTracks.Admit | src/ops/gatewayExecutionTracks.ts:88-98 | admission makes exactly the validate, retire and standby calls in order, needs a capable host for forward-only and for replacing a standby, and fails for nothing else than a fault |
| TrackSelector.ExecutionTracks.Resume | src/ops/gatewayExecutionTracks.ts:120-126 | a persisted intent is completed, or waits backed up for the new Host; a steady record is left alone |
| TrackSelector.ExecutionTracks.StartDefault | src/ops/gatewayExecutionTracks.ts:128-152 | starts the recorded release with exactly the launch calls, leaving the record as it was, or completes its intent; a failure is on record as attention unless a write failed |
| TrackSelector.ExecutionTracks.Complete | src/ops/gatewayExecutionTracks.ts:154-203 | success leaves the completed record field by field (active, standby, backup, write boundary), or a forward-only intent with its backup waiting for the new Host; a failure leaves attention unless a write failed; generation and selection never change |
| TrackSelector.ExecutionTracks.Handoff | src/ops/gatewayExecutionTracks.ts:157-196 | a completed handoff made exactly the documented calls in order |
| TrackSelector.ExecutionTracks.Switch | src/ops/gatewayExecutionTracks.ts:182-196 | the grant comes after the activating record and before the steady one; exactly the grant and its verification are called |
| TrackSelector.ExecutionTracks.Vacate | src/ops/gatewayExecutionTracks.ts:158-181 | both tracks are released before anything is backed up or granted, so that only forgotten releases can still run |
| TrackSelector.ExecutionTracks.PrepareForward | src/ops/gatewayExecutionTracks.ts:170-181 | the backup is taken once, stopped, and persisted with its path before the write boundary; exactly these calls |
| TrackSelector.ExecutionTracks.PrepareOptionalStandby | src/ops/gatewayExecutionTracks.ts:205-216 | warming the standby, well or not, leaves the record, and fails the call only when a write failed |
| TrackSelector.Run | src/ops/gatewayExecutionTracks.ts:64-203 | every run of select, schedule, resume and start with crashes: each command that ends well did what it is for; history and host trace are in order, and apart from the releases that off-track intents made the record forget, everything running is on record, alone at every grant and absent at every backup |
| DeploymentRecords.AtMostTwoDeployments | src/ops/gatewayDeploymentCoordinator.ts:228-238 | throughout a run at most two deployments are in place; beside a candidate a retained slot is the rotated one, which its host has moved aside |
| DeploymentRecords.GenerationCountsIdentityChanges | src/ops/gatewayDeploymentCoordinator.ts:422-442 | over any stretch of a run the generation rises by the number of changes of the active identity |
| DeploymentRecords.RecoverySlotSurvives | src/ops/gatewayDeploymentCoordinator.ts:216-277 | without a take-over the retained recovery slot is unchanged by every step and crash |
| DeploymentRecords.CommitIsAllOrNothing | src/ops/gatewayDeploymentCoordinator.ts:472-577 | after an effective commit every state is fenced with that candidate, never in trial, and the only steady exit makes it active |
| DeploymentRecords.NoCommitNoTakeOver | src/ops/gatewayDeploymentCoordinator.ts:369-420 | without an effective commit the active identity does not change within a transaction, its exit to steady included |
| DeploymentCoordinator.CommitAfterTransfer | src/ops/gatewayDeploymentCoordinator.ts:376-406 | in every run the call before a commit transferred the state of the same update, well, to the candidate committed, and the one before that drained it |
| DeploymentCoordinator.Coordinator.constructor | src/ops/gatewayDeploymentCoordinator.ts:667-684 | the default state is steady and starts a valid run |
| DeploymentCoordinator.Coordinator.Write | src/ops/gatewayDeploymentCoordinator.ts:641-650 | only valid states are written; a failed write changes nothing, a crash leaves old or new |
| DeploymentCoordinator.Coordinator.WriteStatus | src/ops/gatewayDeploymentCoordinator.ts:617-639 | status, marker, rotated slot and schedule after each status write, field by field |
| DeploymentCoordinator.Coordinator.MarkRepairRequired | src/ops/gatewayDeploymentCoordinator.ts:597-608 | repair keeps the transaction, and the marker whenever the commit may have taken effect |
| DeploymentCoordinator.Coordinator.RollbackToTrial | src/ops/gatewayDeploymentCoordinator.ts:527-554 | only without an effective commit, and with exactly the rollback call; ends in trial with the reported slots, or in repair after a fault |
| DeploymentCoordinator.Coordinator.FinishCommit | src/ops/gatewayDeploymentCoordinator.ts:556-577 | only after an effective commit; ends in the take-over with the next generation and the slot the host retained, which is the old active one |
| DeploymentCoordinator.Coordinator.SettleCommit | src/ops/gatewayDeploymentCoordinator.ts:472-525 | a marked transaction becomes steady only if the commit took effect, trial only if it did not, and repair only for an unknown answer or a fault; on start-up it fails only when a write failed |
| DeploymentCoordinator.Coordinator.DrainAndTransfer | src/ops/gatewayDeploymentCoordinator.ts:376-395 | success made exactly the drain and the transfer call, the latter under the transferring record with the drained slots; neither identities nor generation change |
| DeploymentCoordinator.Coordinator.MarkCommit | src/ops/gatewayDeploymentCoordinator.ts:396-403 | the marker is recorded with the very candidate the transfer reported, and refused exactly for another identity |
| DeploymentCoordinator.Coordinator.CommitNow | src/ops/gatewayDeploymentCoordinator.ts:405 | the commit is attempted only behind marker, drain and transfer; success means it took effect |
| DeploymentCoordinator.Coordinator.SwitchAttempt | src/ops/gatewayDeploymentCoordinator.ts:376-406 | success made exactly the four calls drain, transfer, commit and retain, and is the take-over of the candidate as transferred with the slot retained |
| DeploymentCoordinator.Coordinator.PerformPromotion | src/ops/gatewayDeploymentCoordinator.ts:369-420 | success is those four calls; a failure is settled by the marker and leaves trial, repair or the take-over, unless a second fault came on top |
| DeploymentCoordinator.Coordinator.Promote | src/ops/gatewayDeploymentCoordinator.ts:319-337 | promotes only the trial of that update, with exactly the calls of a promotion, and refuses nothing else |
| DeploymentCoordinator.Coordinator.SchedulePromote | src/ops/gatewayDeploymentCoordinator.ts:339-367 | records one schedule of the requested update and mode with its timer; repeating the request changes nothing |
| DeploymentCoordinator.Coordinator.FireTimer | src/ops/gatewayDeploymentCoordinator.ts:444-470 | an expiry starts at most one promotion, only that of the schedule on record, always unless a fault prevents it; unarmed it does nothing |
| DeploymentCoordinator.Coordinator.ConsumeSchedule | src/ops/gatewayDeploymentCoordinator.ts:449-452 | the schedule is durably gone before its promotion starts |
| DeploymentCoordinator.Coordinator.Prepare | src/ops/gatewayDeploymentCoordinator.ts:197-279 | ends in the trial of the requested identity with exactly the rotate and prepare calls; it fails only for a fault or a stated reason |
| DeploymentCoordinator.Coordinator.PrepareFromSteady | src/ops/gatewayDeploymentCoordinator.ts:216-277 | the candidate of a successful preparation is the requested one; a failure that returns to steady keeps active, recovery and generation, and any other ends in repair or, if no write was accepted, in preparing |
| DeploymentCoordinator.Coordinator.RotateOut | src/ops/gatewayDeploymentCoordinator.ts:228-238 | when the host moves the slot, the record already names it as rotated; a move that fails is undone by the host before the record |
| DeploymentCoordinator.Coordinator.Discard | src/ops/gatewayDeploymentCoordinator.ts:281-305 | discarding a trial returns to steady with the rotated slot as recovery, by exactly the discard and restore calls; a failure leaves the trial unless a write failed |
| DeploymentCoordinator.Coordinator.DiscardAttempt | src/ops/gatewayDeploymentCoordinator.ts:307-317 | the host has put the rotated slot back, under the record that names it, before the steady record is written |
| DeploymentCoordinator.Coordinator.RestoreSteady | src/ops/gatewayDeploymentCoordinator.ts:307-317 | the host puts a rotated slot back before the steady record names it as recovery |
| DeploymentCoordinator.Coordinator.Initialize | src/ops/gatewayDeploymentCoordinator.ts:88-185 | every start that returns leaves steady, trial, repair, or draining with an armed schedule |
| DeploymentCoordinator.Coordinator.InitializeSteady | src/ops/gatewayDeploymentCoordinator.ts:92-99 | an interrupted rotation is put back and the installed deployment recorded |
| DeploymentCoordinator.Coordinator.ReconcileSteadyActive | src/ops/gatewayDeploymentCoordinator.ts:422-442 | the installed deployment is recorded as active, the recovery slot untouched |
| DeploymentCoordinator.Coordinator.RecoverPreparing | src/ops/gatewayDeploymentCoordinator.ts:118-148 | an interrupted preparation ends in trial, steady or repair, the last only for a fault or a host that cannot tell |
| DeploymentCoordinator.Coordinator.RecoverDiscarding | src/ops/gatewayDeploymentCoordinator.ts:149-167 | an interrupted discard ends in steady, or in repair only for a fault or a host that cannot discard or restore |
| DeploymentCoordinator.Run | src/ops/gatewayDeploymentCoordinator.ts:88-470 | every run of requests, timers, crashes and restarts: each request that ends well did what it is for; history in order, no rollback after an effective commit, no commit without its transfer, the slot moved only under its record, each schedule started at most once |
| StateCatalog.ChangedStores | src/ops/gatewayUpdateSupervisor.ts:2319-2335 | accepts exactly the releases that keep every store in its class, and reports a change exactly when a protected schema differs |
| StateCatalog.StateActivation | src/ops/gatewayUpdateSupervisor.ts:2315-2346 | forward-only exactly when a protected store is new or changes schema; rejects exactly the releases that drop or reclassify a store |
| UpdateSupervisor.ActivationModeForState | src/ops/gatewayUpdateSupervisor.ts:2348-2359 | rejects exactly a release that drops or reclassifies a store; otherwise forward-only exactly when a protected store is new or changes schema, or a persisted field already says so |
| UpdateSupervisor.RequestKeepsInv | src/ops/gatewayUpdateSupervisor.ts:235-464 | accepting any request keeps the supervisor invariant |
| UpdateSupervisor.ContinueKeepsInv | src/ops/gatewayUpdateSupervisor.ts:467-826 | a request that goes on after an await, over whatever happened meanwhile, or that ends on a rejected write, keeps the invariant |
| UpdateSupervisor.PollKeepsInv | src/ops/gatewayUpdateSupervisor.ts:265-324 | an unserialized status poll keeps the invariant |
| UpdateSupervisor.ActivationKeepsInv | src/ops/gatewayUpdateSupervisor.ts:924-1055 | each step of the unserialized activation, with or without its write, keeps the invariant; what it writes is `UpdateLog.StepIsTold` |
| UpdateSupervisor.ProcessKeepsInv | src/ops/gatewayUpdateSupervisor.ts:206-228 | death, replacement by another supervisor and recovery, with or without its writes, keep the invariant |
| UpdateSupervisor.EveryRunKeepsInv | src/ops/gatewayUpdateSupervisor.ts:206-1115 | the invariant holds after every sequence of steps, rejected writes included |
| UpdateSupervisor.RestartAndUpdateExclude | src/ops/gatewayUpdateSupervisor.ts:235-316 | no reachable state has a restart pending with an update scheduled or running; at most one activation is in flight |
| UpdateSupervisor.ForwardOnlyIsConfirmedAndFinal | src/ops/gatewayUpdateSupervisor.ts:754-1070 | no update is scheduled forward-only without confirmation, and one scheduled so is never activated with automatic rollback or into the previous directory, in any run |
| UpdateSupervisor.UnconfirmedExactly | src/ops/gatewayUpdateSupervisor.ts:939-1070 | an unconfirmed update is activated without automatic rollback exactly when the stores of the supervisor that fires it demand it of the release; every other call without rollback was confirmed |
| UpdateSupervisor.UnconfirmedForwardOnlyHappens | src/ops/gatewayUpdateSupervisor.ts:939-1000 | for every rollback-safe release and later catalog that demands otherwise, the run that replaces the supervisor after scheduling ends in a call with rollback disabled that nobody confirmed |
| UpdateLog.StepIsTold | src/ops/gatewayUpdateSupervisor.ts:467-1115 | every step changes phase, release, modes, previous release, artifacts, seal and restart exactly as what happened says, and nothing else |
| UpdateLog.FileIsItsFacts | src/ops/gatewayUpdateSupervisor.ts:206-1115 | in every run the persisted file is the replay of what happened |
| UpdateLog.EndsExactly | src/ops/gatewayUpdateSupervisor.ts:1018-1055 | in every run an update turns committed, rolled back or in need of repair exactly for the stated endings of its activation, of a recovery or of an acknowledgement; an activation that ends leaves it staged exactly when a forward-only preparation failed, and clears modes and previous release exactly as stated |
| UpdateLog.RestartRuns | src/ops/gatewayUpdateSupervisor.ts:235-263 | a restart is taken exactly when neither a restart nor an update is on its way, and ends as its Gateway does |
| UpdateLog.StagingRuns | src/ops/gatewayUpdateSupervisor.ts:467-690 | a release is staged exactly when no update is on its way and it is not there yet, and ends as its download and its stores decide |
| UpdateLog.SubmissionRuns | src/ops/gatewayUpdateSupervisor.ts:553-601 | a submission is taken exactly from the agent's release while it is built or failed, and staged exactly when sound |
| UpdateLog.ApplicationRuns | src/ops/gatewayUpdateSupervisor.ts:721-826 | a staged release is scheduled exactly when no restart is pending, its stores can be compared and a forward-only activation is confirmed |
| UpdateLog.AcknowledgementRuns | src/ops/gatewayUpdateSupervisor.ts:387-440 | a repair is acknowledged exactly when one is needed and one of the two builds is installed |
| UpdateLog.ActivationRuns | src/ops/gatewayUpdateSupervisor.ts:939-1055 | a fired update is activated with the mode its file and stores call for, and ends as its call does |
| UpdateLog.BootRuns | src/ops/gatewayUpdateSupervisor.ts:206-228 | a start arms exactly a scheduled update, calls the previous release back exactly for an interrupted one with automatic rollback, and resumes an interrupted restart |
| UpdateChannel.Pin.Persist | src/ops/gatewayUpdateSupervisor.ts:1217-1247 | pins exactly what supersedes the channel pinned by then |
| UpdateChannel.Pin.Refresh | src/ops/gatewayUpdateSupervisor.ts:1166-1215 | the first mirror whose answer decides settles the outcome: another ID is inconsistent, the cached generation returns the cached channel, a newer writable one is returned and pinned if it supersedes; without one the cached channel, or failure |
| UpdateChannel.PinOnlyMovesForward | src/ops/gatewayUpdateSupervisor.ts:1166-1247 | over any refreshes the ID stays, the generation never falls, content changes only with it |
| HandoffStores.MergeRecords | src/ops/gatewayDeploymentHandoff.ts:528-541 | succeeds exactly when the maps agree on shared keys, with their least common extension |
| HandoffStores.MergeInboxFiles | src/ops/gatewayDeploymentHandoff.ts:337-349 | the least common extension of all inboxes, or failure for version, conflict or size |
| HandoffStores.InboxOrderIrrelevant | src/ops/gatewayDeploymentHandoff.ts:337-349 | the outcome depends only on which files there are |
| HandoffStores.PointwiseMaximum | src/ops/gatewayDeploymentHandoff.ts:374-386 | the maximum at every key is the least store that honours all claims |
| HandoffStores.MergeClaims | src/ops/gatewayDeploymentHandoff.ts:374-386 | succeeds exactly for safe non-negative claims, with the least store honouring both |
| HandoffStores.MergeReplayStores | src/ops/gatewayDeploymentHandoff.ts:366-388 | leaves the target alone exactly without a source, and loses no claim |
| HandoffStores.MergeLatestUpdated | src/ops/gatewayDeploymentHandoff.ts:543-567 | fails exactly on a shared key time cannot resolve; otherwise holds the latest of every key |
| HandoffLists.MergeKeyed | src/ops/gatewayDeploymentHandoff.ts:569-590 | the fold of target then source, listed once per key in key order |
| NativeReleases.FoldKeepsTheWinner | src/ops/gatewayDeploymentHandoff.ts:441-453 | for every input the release kept for a key outranks all later ones and all earlier ones not cut off by a code that is not a number |
| NativeReleases.FoldFailsExactly | src/ops/gatewayDeploymentHandoff.ts:433-453 | fails exactly when a release is unbound or meets a different winner with its own version code |
| NativeReleases.GreatestKeptExactly | src/ops/gatewayDeploymentHandoff.ts:441-453 | the greatest version code of a key is kept exactly when it is not cut off for good by a code that is not a number |
| NativeReleases.NumericWinnerIsUnique | src/ops/gatewayDeploymentHandoff.ts:441-453 | with numeric codes the kept release is the only one with the greatest code |
| NativeReleases.NonNumericCodeLosesGreatest | src/ops/gatewayDeploymentHandoff.ts:442-448 | a list for which release 3 replaces release 5 |
| NativeReleases.KeyIsTheBinding | src/ops/gatewayDeploymentHandoff.ts:440-444 | two releases share a key exactly when platform, channel and architecture agree, as long as no platform or channel holds the separator |
| NativeReleases.SeparatorConfusesKeys | src/ops/gatewayDeploymentHandoff.ts:440-444 | with the separator in a part, two different bindings share a key |
| NativeReleases.MergeNativeReleases | src/ops/gatewayDeploymentHandoff.ts:419-456 | exact failure condition; otherwise one winner per key of the union, in key order |
| HandoffWork.AssertUnique | src/ops/gatewayDeploymentHandoff.ts:725-736 | accepts exactly lists of present, distinct strings |
| HandoffWork.MergeProjectCatalog | src/ops/gatewayDeploymentHandoff.ts:197-224 | fails exactly for a faulty or clashing carried project; otherwise lists exactly the carried projects with unique room, conversation and project IDs; every source project outside the retained room is among them exactly when a room is retained or none that the candidate lacks is without a room ID |
| HandoffWork.RoomlessProjectDropped | src/ops/gatewayDeploymentHandoff.ts:210-213 | a merge that succeeds with nothing, though the source had a project without a room ID |
| HandoffRuntime.RelocateSessions | src/ops/gatewayDeploymentHandoff.ts:252-267 | accepts exactly new distinct IDs; every session arrives with its own fields, a scratch one in the scratch directory of its ID, any other where it was; counts the active ones |
| HandoffRuntime.RelocateProjects | src/ops/gatewayDeploymentHandoff.ts:247-268 | accepts exactly globally unique session IDs, independent of the order of projects; every project and session arrives field by field |
| HandoffRuntime.MergeRuntimeState | src/ops/gatewayDeploymentHandoff.ts:226-270 | exact success condition; room by room the merged state is the target's project, or the leaving source project with its sessions moved as stated, or the retained one; counts are the cardinalities of the active sessions |
| ReleaseTree.Visit | src/ops/gatewayUpdateSupervisor.ts:2119-2152 | the recursive walk accepts exactly acceptable entries and reports exactly the files met |
| ReleaseTree.VerifyStagedManifest | src/ops/gatewayUpdateSupervisor.ts:2115-2161 | accepts exactly the trees whose files are the listed ones with size, hash and required executable bit, no other kind of entry and no unowned directory; a manifest that lists itself is never satisfied |
| ReleaseTree.PathsAreDistinct | src/ops/gatewayUpdateSupervisor.ts:2119-2152 | in a well-named tree each path leads to one leaf |
| ReleaseTree.SealVisit | src/ops/gatewayUpdateSupervisor.ts:2002-2043 | seals exactly the regular files within the limits, or fails |
| ReleaseTree.CopyVisit | src/ops/gatewayUpdateSupervisor.ts:1907-1951 | copies exactly the regular trees within the limits; the copy seals like the original, and is the original when metadata is refused |
| ReleaseTree.MetadataIsInvisible | src/ops/gatewayUpdateSupervisor.ts:2012-2040 | release metadata in the root changes neither what is sealed nor what is rejected |
| ReleaseTree.VerifySealed | src/ops/gatewayUpdateSupervisor.ts:2045-2062 | accepts exactly the regular trees that pass the entry-point check and list what their seal lists |
| ReleaseTree.StageAgentCandidate | src/ops/gatewayUpdateSupervisor.ts:1483-1527 | an installed release is returned exactly when it is the same and intact; otherwise succeeds exactly for a regular candidate within the limits whose entry points pass: copying then sealing always re-verifies |
| ProcessHost.GatewayExecutionTrackProcessHost.ValidateRelease | src/ops/gatewayExecutionTrackHost.ts:54-62 | admits exactly the release the configuration resolved, pinned under its own ID with a build and an absolute executable, after its resolution and the compatibility check both ended well, and refuses only for a fault or one of these |
| ProcessHost.GatewayExecutionTrackProcessHost.Activate | src/ops/gatewayExecutionTrackHost.ts:70-104 | refuses while a drain is unsettled or another child lives; leaves a running release alone; otherwise spawns one new child, and succeeds only once it is verified; it fails only for a fault or a child that fell |
| ProcessHost.GatewayExecutionTrackProcessHost.SpawnFor | src/ops/gatewayExecutionTrackHost.ts:72-92 | a spawn happens only with every tracked child exited, no drain pending and no failure held against the release, and is on record |
| ProcessHost.GatewayExecutionTrackProcessHost.VerifyActive | src/ops/gatewayExecutionTrackHost.ts:106-127 | success means the last look proved the tracked child: lock, admitted build, node and readiness; failure means no look did |
| ProcessHost.GatewayExecutionTrackProcessHost.ReleaseExecution | src/ops/gatewayExecutionTrackHost.ts:129-156 | success made exactly the drain, the signal (neither for a child that had ended) and the removal; the process group is gone and only that child is forgotten; failure keeps it on record and has a cause |
| ProcessHost.GatewayExecutionTrackProcessHost.DrainChild | src/ops/gatewayExecutionTrackHost.ts:132-147 | a drain is started unless one is pending, and rejoined otherwise; success is a drain of that very child that settled in time and ended well; a time-out leaves the drain on record |
| ProcessHost.GatewayExecutionTrackProcessHost.ControllerDisconnected | src/ops/gatewayExecutionTrackHost.ts:162-171 | starts and forgets nothing; at its end every child is gone or was killed, after it was asked to end |
| ProcessHost.Run | src/ops/gatewayExecutionTrackWorker.ts:17-46 | every run of serialized calls: each that ends well did what it is for; never two Gateways of one host at once, all on record, every spawn, replacement, drain, signal and removal in order |
| WorkerHost.GatewayExecutionWorkerHost.FailWorker | src/ops/gatewayExecutionWorkerHost.ts:50-55 | drops that controller unless replaced, and rejects exactly what it owed |
| WorkerHost.GatewayExecutionWorkerHost.Handle | src/ops/gatewayExecutionWorkerHost.ts:50-64 | no callback settles a promise twice; a request is resolved only by its own controller; a failed controller leaves the table and owes nothing |
| WorkerHost.GatewayExecutionWorkerHost.Request | src/ops/gatewayExecutionWorkerHost.ts:102-111 | exactly this is asked of this controller; every request is settled exactly once and leaves no entry or timer behind, whatever else is pending |
| WorkerHost.GatewayExecutionWorkerHost.EnsureStandby | src/ops/gatewayExecutionWorkerHost.ts:40-73 | a full table refuses before anything is looked up; with serialized calls never a third controller; the release is looked up once, as forward-only exactly if it was validated so, and success is the answer to its initialization |
| WorkerHost.GatewayExecutionWorkerHost.InitializeWorker | src/ops/gatewayExecutionWorkerHost.ts:65-72 | a controller that does not initialize well is dropped and disconnected |
| WorkerHost.GatewayExecutionWorkerHost.Activate | src/ops/gatewayExecutionWorkerHost.ts:74-78 | identity changes are refused; success is the answer of that controller to this very activation, after a look-up and initialization where it had none, each asked only if the one before went well |
| WorkerHost.GatewayExecutionWorkerHost.VerifyActive | src/ops/gatewayExecutionWorkerHost.ts:89-93 | success is the answer of the release's controller to this health request; without one it fails |
| WorkerHost.GatewayExecutionWorkerHost.RetireStandby | src/ops/gatewayExecutionWorkerHost.ts:79-84 | success is the controller's answer to this release; only then is it disconnected, which frees its place; something of the release may then run exactly if a controller of it was lost before the call |
| WorkerHost.GatewayExecutionWorkerHost.ReleaseExecution | src/ops/gatewayExecutionWorkerHost.ts:85-88 | success is the controller's answer to this release, or that there is none; something of the release may then run exactly if, before the call, a controller of it had left the table without confirming a release |
| WorkerHost.GatewayExecutionWorkerHost.Stop | src/ops/gatewayExecutionWorkerHost.ts:94-101 | with no call overlapping, the table is empty at the end |
| WorkerHost.GatewayExecutionWorkerHost.Restart | src/ops/gatewayExecutionWorkerHost.ts:8-13 | a new host starts with empty tables, and every Gateway that may run is then orphaned |
| WorkerHost.LostController | src/ops/gatewayExecutionWorkerHost.ts:85-88 | a controller that dies with its Gateway running: the release succeeds and the Gateway may run on |
| WorkerHost.RestartForgets | src/ops/gatewayExecutionWorkerHost.ts:85-88 | after a restart a release is reported at once while its Gateway may run on |
| WorkerHost.OverlapOverfills | src/ops/gatewayExecutionWorkerHost.ts:41-47 | two overlapping calls, in the steps of the source, both pass the size check and leave three controllers |
| WorkerHost.Run | src/ops/gatewayExecutionWorkerHost.ts:40-111 | every run, stops and restarts included, with callbacks and, unless serialized, other calls between: each request pending or settled once; with serialized calls at most two controllers, empty tables of requests, and each call that ends well did what it is for |
| TextSplitter.Window | scripts/tgmdrender.py:75-83 | the binary search finds the longest fitting prefix, or the first character if none fits |
| TextSplitter.LastNewline | scripts/tgmdrender.py:85 | the last newline before the end, if any |
| Utf16.DecodeUndoesEncode | scripts/tgmdrender.py:59-60 | every text is read back from its little-endian UTF-16 bytes (sections 2.1 and 2.2 of RFC 2781) |
| TextSplitter.LengthIsEncoded | scripts/tgmdrender.py:59-60 | the length counted is half the number of those bytes |
| TextSplitter.SplitPlainText | scripts/tgmdrender.py:63-92 | for every text and limit the chunks are the text again, non-empty, and cut by the newline-or-window rule |
| TextSplitter.SplitIsUnique | scripts/tgmdrender.py:63-92 | at most one list of chunks satisfies the rule |
| TextSplitter.ChunksFitExactly | scripts/tgmdrender.py:59-92 | all chunks fit exactly when every character fits alone; so always for a limit of at least two |
| XmlText.UnxmlUndoesXml | src/ops/gatewayEnrollmentHostActivation.ts:476-492 | reading back undoes the five sequential escapes for every text |
| XmlText.XmlHasNoMarkup | src/ops/gatewayEnrollmentHostActivation.ts:476-483 | escaped text holds no markup character |
| PlistReading.TrimIsExact | src/ops/gatewayEnrollmentHostActivation.ts:307 | trimming takes white space, all of it and nothing else, off both ends |
| PlistReading.SplitFindsFirst | src/ops/gatewayEnrollmentHostActivation.ts:272 | the first place of a literal is found, whenever there is one |
| PlistReading.MatchIsExact | src/ops/gatewayEnrollmentHostActivation.ts:303-306 | a row of literals matches exactly when they stand there with nothing but white space between |
| PlistReading.FirstIsLeftmost | src/ops/gatewayEnrollmentHostActivation.ts:267 | the leftmost match is found, whenever there is one |
| PlistReading.ExpandInserts | src/ops/gatewayEnrollmentHostActivation.ts:281-282 | what each dollar directive of a replacement text inserts |
| PlistValues.TrimmedAndReadBack | src/ops/gatewayEnrollmentHostActivation.ts:302-308 | an escaped value reads back trimmed |
| PlistValues.LiveIffNotInert | src/ops/gatewayEnrollmentHostActivation.ts:280-281 | the escaped value is taken literally exactly when no dollar precedes a dollar, back-tick or escaped character |
| PlistScan.FoundIsLeftmost | src/ops/gatewayEnrollmentHostActivation.ts:276-281 | the entry replaced is the leftmost, with no earlier opening of its key |
| PlistScan.ReadStays | src/ops/gatewayEnrollmentHostActivation.ts:302-308 | what a key reads in a text it reads whatever follows |
| PlistScan.OpenReadsOn | src/ops/gatewayEnrollmentHostActivation.ts:302-308 | a key left open takes in exactly what follows up to the next end of a string |
| PlistRoundTrip.SetReadsBackExactly | src/ops/gatewayEnrollmentHostActivation.ts:275-308 | in any dictionary without a dollar, a set value reads back exactly when it is non-empty, trimmed and written literally, and its key was not left open |
| PlistRoundTrip.SetKeepsOtherExactly | src/ops/gatewayEnrollmentHostActivation.ts:275-283 | in any dictionary, setting one key leaves what another reads exactly when the other is not left open before the entry and not read inside it |
| PlistRoundTrip.SetKeepsSettled | src/ops/gatewayEnrollmentHostActivation.ts:275-283 | names that read no markup, or do not occur, stay so when a settled key is set to a value written literally |
| PlistRoundTrip.TidyIsSettled | src/ops/gatewayEnrollmentHostActivation.ts:302-308 | with no markup inside string elements every name is settled |
| PlistRoundTrip.OpenStringTakesInTheNext | src/ops/gatewayEnrollmentHostActivation.ts:282-308 | with a string element left open, setting one key changes what another reads |
| PlistEnvironment.StillLocated | src/ops/gatewayEnrollmentHostActivation.ts:267-294 | the environment dictionary is found again around any body without an end of its own |
| PlistEnvironment.SetPlistEnvironmentStrings | src/ops/gatewayEnrollmentHostActivation.ts:263-285 | fails exactly without a closed dictionary; writes only inside it; every set key reads back its value, trimmed, and every other name keeps its own wherever the steps write literally and find them undisturbed |
| PlistEnvironment.EnvironmentReadsBack | src/ops/gatewayEnrollmentHostActivation.ts:263-308 | in the whole property list every set key reads back its value, trimmed, and every other name keeps its own, under the step conditions |
| PlistEnvironment.Read | src/ops/gatewayEnrollmentHostActivation.ts:302-308 | a value reads as itself exactly when it is not empty and is trimmed |
| PlistEnvironment.NotLiveIsLiteral | src/ops/gatewayEnrollmentHostActivation.ts:280-281 | the steps write literally when no value holds a directive |
| PlistEnvironment.SettledIsCalm | src/ops/gatewayEnrollmentHostActivation.ts:263-308 | the step conditions follow when the names set and the name read are settled in the dictionary as it was |

## Left out

- The update supervisor is a state machine on values: its requests, timer and polls interleave between awaits, so its steps are functions and in-place update of fields is not modelled.
- Within one process a host call that never returns is not modelled; it is a run that stops there.
- Human-readable details, errors, times of status records and Agent owner IDs, beyond whether the same owner asks again.
- The supervisor's mode with execution tracks enabled, which hands updates to the track selector.
- The node ID and data directory inside the track record, which no transaction changes.
- Signatures, schemas of signed manifests, downloads, retries and the reuse of files: a fetched release is any release.
- `mergeCommandJournal` (SQLite), `mergeTimelineKeys`, `mergeRecordStore`, `mergeWebPush`, `mergeTree` and `copyTree`: they compose the merges above with files.
- JavaScript objects whose keys are names on `Object.prototype`, and JSON numbers that are not integers.
- The order among keys that `localeCompare` takes for equal: key comparison is any total preorder here, and directory listings are in its order.
- HandoffStores.MergeInboxFiles: an inbox file that cannot be read is not distinguished from an unsupported one.
- ReleaseTree.VerifyStagedManifest: the paths of a manifest are the keys of a map, the last of a repeated path counting; the closing check of the platform release is assumed to pass.
- ReleaseTree.StageAgentCandidate: the entry-point check (a syntax check by Node) is a predicate on the tree that does not look at release metadata.
- ProcessHost.GatewayExecutionTrackProcessHost.Activate: looks at the exit of a child, as the source does, not at its process group, so descendants of a child that exited by itself may outlive the next start.
- ProcessHost.Run: process IDs are not reused.
- WorkerHost.Run: request numbers go on over a restart, where a new host counts from one again; what overlapping calls do is bounded only by the table of requests; the bound on controllers is for serialized calls, as the selector makes them.
- TrackSelector.ExecutionTracks.constructor: the initial record is not steady with a target, nor steady and forward-only without its write boundary; no operation leaves such a record.
- TextSplitter.SplitPlainText: a text is a sequence of Unicode scalar values; a lone surrogate, which Python cannot encode, has no model.
- PlistRoundTrip.SetKeepsOtherExactly: for a value that is written literally; a directive may copy any part of the dictionary into the entry.
- PlistRoundTrip.SetReadsBackExactly: for a dictionary without a dollar, since a directive may otherwise copy in text that happens to restore the value; reading back holds without that condition (`SetReadsBack`).
- PlistEnvironment.SetPlistEnvironmentStrings: the read-back clauses are for environment variable names, as at all call sites; property lists are sequences of Unicode scalar values.
- DeploymentCoordinator.Coordinator.DrainAndTransfer: the host can drain, transfer and commit; the source skips the call of a dependency that is missing.
- Splitting around tables, the PWA, Android, Matrix and command-line programs.

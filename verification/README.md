# Tako in Dafny

A model of the state machines and merge algorithms of the `tako` command line tool: the
lifecycle and removal of cluster nodes, the rolling upgrade of their agents, the leases,
replicated state and bounded history that the commands rely on, transactional restore of
environment files, and a few parsers and formatters. `dafny verify dfyconfig.toml` checks
the whole project.

## How it is modelled

- **Failures.** A command is a sequence of named external calls. An oracle says of each call
  whether it succeeded, took effect although its answer was lost, or had no effect. A crash
  is the next call having no effect. A result about every oracle is a result about every
  pattern of failures and crash points.
- **Concurrency.** Lease acquisition and replication are state machines over the steps of
  all goroutines, the servers and the clock. Results hold in every state of every run.
- **Form.** Code that changes things step by step is a class or a method with a loop. Its
  contract ties the new state to a specification function of the old one, and the results
  are lemmas about those functions. Pure code is functions and lemmas.
- **Times** are numbers, and 0 is the unset time. **Strings** are sequences of code points.
- The membership file and the published inventory are one value: the inventory is the
  projection of the file, and a commit whose publication failed is the lost-answer outcome
  of the store call. The schedulable flag of a node follows from its lifecycle.
- Validations of a status answer (compatibility, identity, downgrade, protocol,
  capabilities) are booleans of that answer. A poll that waits for a version is one call
  with one final answer.

| files | subject |
|---|---|
| `Membership`, `Lifecycle`, `LifecycleCalls`, `Revocation`, `Controller` | the membership store, lifecycle commands over every failure, what the outcomes of their calls decide, how long a revocation lasts, and the controller as an object |
| `NodeUpgrade`, `RollingUpgrade`, `UpgradeOutcomes`, `Upgrader` | one node's upgrade transaction, the staged plan, what the answers of the network decide, and both as the command runs them |
| `LeaseServer`, `Leases`, `LeaseLeaks`, `LeaseRuns`, `LeaseCollection` | the lease file and client calls, many clients at once with late messages, which leases are left behind, what one client does, and gathering the answers |
| `Selection`, `Labels`, `Aggregate`, `Repair`, `Freshest`, `StateRepair` | keeping the best copy, merging labels and snapshots, repairing every node, and which copy is the freshest |
| `History`, `HistoryLoss`, `Replicator` | the pruned deployment history, where it loses an entry, and its replication |
| `EnvRestore` | restoring environment files as a transaction |
| `Ports`, `Placement`, `Shell`, `Archive` | parsers, printers, quoting, names and sizes |
| `Names`, `Counting`, `Options`, `Text` | name order, counting, optional values, string operations |

## Where the code falls short of its promise

Each promise is listed with a concrete case against it and with the exact condition under
which it does hold.

- *On failure every acquired lease is released.* Cases: `LeaseLeaks.FailureCanLeaveALease`,
  and `LeaseLeaks.LateRequestLocks` for a request that arrives after the client gave up. A
  lease stays exactly when a grant, in time or late, has neither run out nor been followed by
  a release that was carried out, and then an answer was lost, a request came late or a
  release did not arrive in time (`LeaseLeaks.FailureLeavesExactly`).
- *One acquire call makes at most one lease.* Case: `LeaseServer.LateRepeatMakesASecondLease`.
  It does exactly when the repeat does not arrive or comes before the first lease expires
  (`LeaseServer.AcquireLease`).
- *A revoked peer stays revoked.* Case: `Revocation.RevokedPeerComesBack`. While the node is
  still a member, and whether or not the revocation is recorded yet, that is sure exactly under
  its own removal and under commands turned away before they publish (`Revocation.RevocationLastsExactly`). A completed removal leaves no
  trace all the same (`Lifecycle.ReachableIsSafe`).
- *A failed upgrade failed because its rollback failed.* Case:
  `NodeUpgrade.SilentCommitHappens`. It did unless the commit went through unnoticed
  (`NodeUpgrade.EveryExitIsClean`), and then the node is committed to the new binary beside
  the old manifest (`NodeUpgrade.SilentCommitRevertsManifest`).
- *Rolled back means the previous manifest.* Case: `NodeUpgrade.StaleManifestSurvivesRollback`.
  It does unless an interrupted upgrade was pending with a different manifest, because the
  manifest is read before staging recovers that upgrade
  (`NodeUpgrade.RolledBackManifestBelongs`).
- *The history holds the newest entries.* Case: `HistoryLoss.LoweringLosesAnEntry`. One save
  keeps that exactly when it does not date a listed entry below a pruned one
  (`History.SaveKeepsTop`).
- *A rollback of an environment restore gives back every mode.* Case:
  `EnvRestore.SpecialBitIsLost`. It does exactly when no listed file has a mode bit beyond
  the permissions (`EnvRestore.Disk.RestoreBundle`).
- *The merged labels do not depend on the order of the nodes.* Case:
  `Labels.LabelOrderMatters`. They do not exactly when all non-empty reports agree, or they
  are pairwise different and even in number (`Labels.OrderFreeExactly`).

## Model

| member | source | states |
|---|---|---|
| `Membership.StoreStepKeeps` | pkg/platform/membership.go:416-775 | Every mutation of the store keeps the file valid, moves no node's removal backwards, forgets no tombstone, changes no other node and strictly advances the generation |
| `Membership.StoreStepValid` | pkg/platform/membership.go:1077-1140 | Whatever mutation is committed, the next file passes validation: one controller that is never draining, members and tombstones disjoint, each removal in the place its phase says |
| `Membership.StoreStepLocal` | pkg/platform/membership.go:416-691 | A mutation on one node leaves the lifecycle, tombstone and removal of every other node as they were |
| `Membership.StoreStepAdvances` | pkg/platform/membership.go:504-660 | A node's removal progress never decreases, a member leaves only as a tombstone, and no tombstone becomes a member again |
| `Lifecycle.EveryRunAdvances` | cmd/platform_nodes.go:204-614 | After any sequence of lifecycle and enrolment commands, each with any pattern of failures, the safety invariant holds and no removal is less advanced than before |
| `Lifecycle.ReachableIsSafe` | cmd/platform_nodes.go:418-614 | In every reachable state a node whose removal is completed is in no active peer's mesh and has no mesh of its own left, and an active node that is cordoned, draining or under removal has its deny latch set |
| `LifecycleCalls.CompletedOnlyAfterCleanup` | cmd/platform_nodes.go:501-517 | A removal becomes complete only under its own command, after the target answered its cleanup with success, and leaves the target without a mesh |
| `LifecycleCalls.RemovalGetsExactly` | cmd/platform_nodes.go:418-554 | For every outcome of every call, a removal reaches a stage exactly when it had, or when every call up to the one that persists the stage succeeds and that one takes effect; the command succeeds exactly when all calls it needs from there on do |
| `LifecycleCalls.ChangeGetsExactly` | cmd/platform_nodes.go:451-500 | Any other lifecycle command brings its node to the asked lifecycle exactly when the store and the agent answered, the latch was set if the command sets one, and the store call took effect |
| `LifecycleCalls.SucceedsExactly` | cmd/platform_nodes.go:418-521 | A lifecycle command reports success exactly when the lifecycle of the node allows it and each call in an explicit list succeeds; asked again, a completed removal needs only the store |
| `LifecycleCalls.NotAccepted` | pkg/platform/membership.go:416-660 | A command that the lifecycle of its node does not allow fails and changes no membership |
| `LifecycleCalls.LatchFollowsExactly` | cmd/platform_nodes.go:451-500 | A command that restricts a node sets its latch exactly when the latch call took effect, whatever fails later, and a successful return to schedulable has cleared it |
| `LifecycleCalls.TargetIsToldFirst` | cmd/platform_nodes.go:478-493 | Under any command but a removal, no other machine changes unless the node itself attested its new lifecycle |
| `LifecycleCalls.EnrolsExactly` | cmd/platform_nodes.go:204-313 | An enrolment succeeds exactly when the node can be admitted and each call in an explicit list succeeds; then the node is ready and every machine runs exactly the active membership |
| `Lifecycle.FailureFreeRunFinishesRemoval` | cmd/platform_nodes.go:418-554 | From any reachable point of a removal, one run without failures completes it, leaves every other member alone and leaves every mesh equal to the active membership |
| `Lifecycle.LatchClearedOnlyWhenAttested` | cmd/platform_nodes.go:451-500 | A deny latch disappears only under the schedulable command for that node, with membership saying schedulable and every active worker attesting exactly that membership |
| `Lifecycle.SuccessMeansExactMesh` | cmd/platform_nodes.go:476-519 | After a lifecycle command that reports success, a removal resumed at target cleanup included, every active machine's mesh is exactly the other active members |
| `Revocation.RevocationLastsExactly` | cmd/platform_nodes.go:418-554 | From a state where a node under removal is revoked at every peer, recorded or not, and is still a member, no outcome of any call of a command can give it back to a peer exactly when the command is the removal of that node, or the membership file turns the command away before it publishes |
| `Revocation.RevokedPeerComesBack` | cmd/platform_nodes.go:463-493 | A concrete history from a first node: two workers join, one is drained and its removal stops once its peers are revoked, and cordoning the other worker gives it back to the controller |
| `Revocation.RemovalKeepsOut` | cmd/platform_nodes.go:523-554 | Whatever fails in it, the removal of the node itself gives the node back to no peer |
| `Revocation.TurnedAwayKeepsMeshes` | cmd/platform_nodes.go:424-462 | A command that the membership file turns away changes neither the file nor any mesh, whatever its calls answer |
| `Revocation.LifecycleGivesBack` | cmd/platform_nodes.go:463-493 | Without failures, any lifecycle command that is not turned away and is not that removal puts the node back into the controller's mesh |
| `Revocation.EnrolmentGivesAway` | cmd/platform_nodes.go:204-313 | An enrolment that is not turned away gives the node to the enrolled worker, even if it stops right after the worker attested |
| `Lifecycle.RevokeEverywhereKeeps` | cmd/platform_nodes.go:556-585 | A revocation that succeeds leaves no active peer with the node in its mesh, and changes neither membership nor latches |
| `Lifecycle.PublishEachKeeps` | cmd/platform_nodes.go:591-614 | A publication pass changes only the listed peers; if it succeeds each runs the inventory's topology and attests the committed generation |
| `Lifecycle.CommitKeeps` | pkg/platform/membership.go:693-775 | A store call with any outcome keeps the safety invariant and every removal's progress, given that it restricts only latched nodes and completes only removals no peer remembers |
| `Lifecycle.PrepareStepKeeps` | cmd/platform_nodes.go:524-535 | Preparing a removal keeps the invariant, every progress and every other member |
| `Lifecycle.RevokeStepKeeps` | cmd/platform_nodes.go:539-547 | The revocation stage keeps the invariant; when it reports success the removal is past revocation |
| `Lifecycle.RemoveStepKeeps` | cmd/platform_nodes.go:548-554 | The member stage keeps the invariant; when it reports success the node is no member and awaits cleanup |
| `Lifecycle.ResumeRemovalKeeps` | cmd/platform_nodes.go:523-554 | Resuming from any persisted phase keeps the invariant and all progress, and on success has reached target cleanup |
| `Lifecycle.ChangeKeeps` | cmd/platform_nodes.go:451-462 | The latch and the membership change together keep the invariant, lose no latch, and on success reach the asked state |
| `Lifecycle.AnnounceKeeps` | cmd/platform_nodes.go:463-493 | An announcement that succeeds leaves every worker attesting the committed generation and every mesh equal to the membership |
| `Lifecycle.FinishKeeps` | cmd/platform_nodes.go:494-517 | Clearing the latch or cleaning up and completing the removal, after a successful announcement, keeps the invariant, the emptied mesh of every completed removal included, and all progress |
| `Lifecycle.RunLifecycleKeeps` | cmd/platform_nodes.go:418-521 | One lifecycle command with any outcome of any call keeps the invariant and all progress |
| `Lifecycle.RunEnrollKeeps` | cmd/platform_nodes.go:204-313 | One enrolment, new or resumed, with any outcome of any call keeps the invariant, all progress and all latches |
| `Controller.Platform.constructor` | pkg/platform/membership.go:267-308 | A first node is a world that satisfies the invariant |
| `Controller.Platform.PublishToEach` | cmd/platform_nodes.go:591-602 | The loop over the peers, stopping at the first failure, is the specified publication pass |
| `Controller.Platform.RevokeMeshPeerEverywhere` | cmd/platform_nodes.go:556-585 | Refines the revocation whose success leaves no peer with the node |
| `Controller.Platform.ResumeNodeRemoval` | cmd/platform_nodes.go:523-554 | Refines the resumable removal, stage by stage |
| `Controller.Platform.PublishLifecycle` | cmd/platform_nodes.go:463-493 | Refines the announcement whose success means convergence |
| `Controller.Platform.LifecycleCommand` | cmd/platform_nodes.go:418-521 | The whole command refines the specification, so every result about runs holds of the object |
| `Controller.Platform.EnrollWorkerCommand` | cmd/platform_nodes.go:204-313 | Enrolment refines its specification |
| `NodeUpgrade.EveryExitIsClean` | cmd/upgrade.go:541-597 | Once staging succeeded, over the answers alone: upgraded exactly when activation, the status at the target, the services, the controller's worker socket, the manifest and the commit all were confirmed, with new binary, new manifest and commit; rolled back only with the binary and manifest from before and no transaction; failed exactly when a named call of the rollback did not succeed or the commit had gone through silently |
| `NodeUpgrade.UpgradedExactly` | cmd/upgrade.go:445-597 | The whole upgrade, its gates included: upgraded exactly when the node was set up and reachable, an enrolled node answered as itself, no answer was incompatible or newer, staging was answered and all of the above was confirmed |
| `NodeUpgrade.NotStagedIsFailed` | cmd/upgrade.go:458-543 | A node that does not pass its gates fails untouched; one whose staging is not answered fails staged, recovered or untouched |
| `NodeUpgrade.FailedLeavesExactly` | cmd/upgrade.go:544-560 | What a failed upgrade leaves of binary, manifest and marker, for every combination of answers |
| `NodeUpgrade.RollbackEnds` | pkg/provisioner/provisioner.go:454-480 | A rollback ends rolled back with binary, manifest and marker restored, or failed, and fails exactly when one of its own calls did or the transaction was committed |
| `NodeUpgrade.RolledBackManifestBelongs` | cmd/upgrade.go:487-560 | A rolled-back node's manifest belongs to its restored binary exactly when no interrupted upgrade with another manifest was pending |
| `NodeUpgrade.StaleManifestSurvivesRollback` | pkg/provisioner/provisioner.go:747-810 | A concrete run that reports rolled back with the old binary and the new manifest |
| `NodeUpgrade.SilentCommitRevertsManifest` | pkg/provisioner/provisioner.go:382-422 | A commit that went through unnoticed ends as failed, with the new binary committed and the old manifest restored |
| `NodeUpgrade.SilentCommitHappens` | pkg/provisioner/provisioner.go:382-422 | A concrete run that reports failed although no call of its rollback failed |
| `RollingUpgrade.StagedUpgradeIsSafe` | cmd/upgrade.go:187-253 | For every answer of every probe, install and lock: one outcome per planned node in plan order, a machine changes only if its transaction was begun, the controller is begun only right after every other enrolled worker was observed at the target, and after the first node not upgraded nothing changes and all are blocked |
| `RollingUpgrade.FirstFailureStops` | cmd/upgrade.go:217-253 | After the first node of a staged plan that is not upgraded, every later node is reported blocked and its machine is as before |
| `RollingUpgrade.OneOutcomeEach` | cmd/upgrade.go:217-253 | Exactly one outcome per planned node, in plan order |
| `RollingUpgrade.BlockedChangesNothing` | cmd/upgrade.go:218-226 | Once blocked, the rest of the plan changes no machine and reads no status |
| `RollingUpgrade.LegacyNeverBlocks` | cmd/upgrade.go:247-252 | Servers without roles are independent: none is ever blocked |
| `UpgradeOutcomes.OutcomesExactly` | cmd/upgrade.go:198-253 | Over the answers of the network alone: a node of a staged plan is upgraded exactly when the run was prepared and it and every node before it pass, and blocked exactly when the run was not prepared, one before it did not pass or it was not admitted |
| `UpgradeOutcomes.PreparedExactly` | cmd/upgrade.go:347-412 | A run is prepared exactly when every planned node answered its preflight fit, the workers were at the release if the controller was asked for by name, and the only server with the control-plane role gave the coordinator lock |
| `UpgradeOutcomes.RecheckIsOfWorkers` | cmd/upgrade.go:414-441 | A recheck succeeds exactly when every other server with the worker role and without the control-plane role answers live, at the target version, as itself, with the protocol and the capability |
| `UpgradeOutcomes.BegunExactly` | cmd/upgrade.go:226-247 | A node is begun exactly when every node before it passed, the coordinator lock was refreshed, the workers were at the release if it is the controller, and its own gates let it |
| `UpgradeOutcomes.ChangedOnlyWhenReady` | cmd/upgrade.go:198-253 | A machine of a staged plan changes only after preflight and coordinator lock, and after all of those gates |
| `UpgradeOutcomes.RolesDecideStage` | pkg/engine/upgrade.go:73-105 | The server with the control-plane role gets the last stage, all others have the worker role, and the first of them is the canary |
| `UpgradeOutcomes.LegacyOutcomes` | cmd/upgrade.go:198-253 | Each legacy server is upgraded exactly when its own calls go well, without preparation or lock and whatever happens to the others |
| `UpgradeOutcomes.PlannableExactly` | pkg/engine/upgrade.go:54-92 | A selection can be planned exactly when it is not empty and no server in it has roles, or each has the control-plane or the worker role and the control-plane role comes up at most once |
| `RollingUpgrade.RecheckObserves` | cmd/upgrade.go:414-441 | A recheck that succeeds has just observed each other worker once, in name order, at the target version, under its identity and with the protocol and the capability |
| `RollingUpgrade.RunPlanRuns` | cmd/upgrade.go:217-253 | Every transaction a run begins belongs to a planned node, and the controller's comes right after the observation of every other worker |
| `RollingUpgrade.PlanNodeUpgrade` | pkg/engine/upgrade.go:54-106 | A selection can be planned exactly when it is non-empty and all legacy, or all enrolled with at most one controller counted with repetitions; a legacy plan keeps the order given, any other is the staged plan |
| `RollingUpgrade.StagedPlanCovers` | pkg/engine/upgrade.go:73-105 | A staged plan names every selected server exactly as often as it was selected |
| `RollingUpgrade.Partition` | pkg/engine/upgrade.go:73-92 | Splits the selection into workers and controllers, or stops at a node that is neither |
| `RollingUpgrade.AnyEnrolled` | pkg/engine/upgrade.go:58-64 | Whether any selected node has roles |
| `RollingUpgrade.StagedPlanIsDistinct` | pkg/engine/upgrade.go:93-105 | A staged plan names no server twice if the selection does not |
| `RollingUpgrade.StagedPlanIsOrdered` | pkg/engine/upgrade.go:93-105 | A staged plan has no legacy node, its workers are in name order and its controller is last |
| `Upgrader.SkippingIsFiltering` | cmd/upgrade.go:415-424 | Walking every configured server and skipping the others visits exactly the other workers in name order |
| `Upgrader.Cluster.constructor` | cmd/upgrade.go:154-198 | The command starts from the machines as they are, with nothing observed |
| `Upgrader.Cluster.RollbackUpgrade` | pkg/provisioner/provisioner.go:454-480 | Lock, two attempts of the script, release |
| `Upgrader.Cluster.Rollback` | cmd/upgrade.go:544-560 | The rollback closure refines the node rollback, manifest write included |
| `Upgrader.Cluster.ActivateAndVerify` | cmd/upgrade.go:561-585 | Succeeds exactly when every observation required before the manifest is written succeeds |
| `Upgrader.Cluster.FinishStagedUpgrade` | cmd/upgrade.go:561-592 | Everything after staging refines the specified transaction |
| `Upgrader.Cluster.UpgradeServerNode` | cmd/upgrade.go:445-597 | One node's upgrade, call by call, refines the specification the exits are proved about |
| `Upgrader.Cluster.ValidateControllerLastWorkers` | cmd/upgrade.go:414-441 | The loop over all servers refines the recheck of the other workers |
| `Upgrader.Cluster.RecheckNamed` | cmd/upgrade.go:415-440 | Probes the listed servers that are not skipped, in order, up to the first that is not at the target |
| `Upgrader.Cluster.PreflightNodes` | cmd/upgrade.go:385-405 | Passes exactly when every planned node answers compatible, as itself, and not newer |
| `Upgrader.Cluster.PrepareRun` | cmd/upgrade.go:347-412 | Preflight, the early recheck of a controller asked for by name, and the coordinator lock |
| `Upgrader.Cluster.TakeTurn` | cmd/upgrade.go:226-247 | The lock refresh and the recheck stand before a node's upgrade |
| `Upgrader.Cluster.RunStages` | cmd/upgrade.go:216-253 | The loop with its block flag refines the run the safety results are proved about |
| `Upgrader.Cluster.RunUpgradeServers` | cmd/upgrade.go:198-253 | The whole command refines the specified run |
| `Upgrader.Cluster.UpgradeSelection` | cmd/upgrade.go:154-253 | From the selected servers to their outcomes: what cannot be planned changes nothing; an enrolled selection without repetitions is upgraded as safely as the staged plan, whatever the network answers; legacy servers never block |
| `Leases.AtMostOneHolder` | cmd/state.go:2293-2337 | In every interleaving of any number of clients, requests and releases that arrive after their sender gave up included, two whose node sets share a node are never both holding live leases |
| `Leases.SuccessMeansEveryNode` | cmd/state.go:2293-2337 | Success means a granted lease on each wanted node, still that node's lease until it expires |
| `LeaseLeaks.FailureLeavesExactly` | cmd/state.go:2331-2349 | A failed client leaves a node locked exactly when some grant to it, in time or late, has neither run out nor been followed by a release that was carried out; and then an answer was lost there, a request came late or a release did not arrive in time |
| `LeaseLeaks.LockedExactlyByGrants` | pkg/takod/lease.go:61-290 | In every run and for every client, whatever its phase, a node is locked by the client exactly when such a grant is in the trace |
| `LeaseLeaks.EveryLeaseIsSourced` | pkg/takod/lease.go:61-163 | Every lease file was written by a grant in the trace to its identity, with no release carried out since and that grant's expiry |
| `LeaseLeaks.GrantStaysInForce` | pkg/takod/lease.go:61-290 | Until it runs out or is released, a grant keeps its node's file with its client and an expiry no earlier than its own, whatever the others do |
| `LeaseLeaks.OwnedIsHeld` | cmd/state.go:2293-2349 | Without a lost answer, a late request or a release not in time, a lease file names a client only while the client counts the lease as acquired |
| `LeaseLeaks.FailureCanLeaveALease` | cmd/state.go:2331-2336 | A concrete run in which the answer to a grant is lost, the client fails and the node stays locked |
| `LeaseLeaks.LateRequestLocks` | internal/state/lease.go:80-86 | A concrete run in which the node is free when the client fails and is locked by its request afterwards |
| `Leases.NextKeeps` | pkg/takod/lease.go:61-163 | Every step of any client, server, late message or the clock keeps each call in agreement with the lease files |
| `Leases.NextBacks` | pkg/takod/lease.go:61-290 | Whatever step is taken for whichever client, a lease that a client was told of remains its node's lease until it runs out |
| `Leases.RunKeeps` | cmd/state.go:2271-2349 | The agreement holds after every run |
| `LeaseRuns.AtMostTwoAttempts` | internal/state/lease.go:80-117 | However the network behaves, a client sends its request to a node at most twice, and has sent it before it counts as answered or missed |
| `LeaseRuns.PhasesFollow` | cmd/state.go:2293-2349 | A client acquires, then holds or rolls back, and ends finished or failed accordingly; it never goes back |
| `LeaseRuns.ReleasedWasGranted` | cmd/state.go:2323-2349 | A client releases only leases whose grant was answered, and only when it rolls back or is done |
| `LeaseRuns.NoClientIsStuck` | cmd/state.go:2293-2349 | In every state of every run, a client that has not failed or finished can take a step |
| `LeaseRuns.HoldsThenReleases` | cmd/state.go:2293-2349 | A run in which a client holds its lease live and a run in which it has given it back |
| `LeaseServer.LeaseFile.Acquire` | pkg/takod/lease.go:61-163 | Writes a fresh lease for its full time over none or an expired one, makes the same identity's live lease last to the later of its expiry and the full time, and refuses another's live lease untouched |
| `LeaseServer.LeaseFile.Renew` | pkg/takod/lease.go:165-198 | Renews exactly the named live lease: it keeps identity and creation time and lasts to the later of its old expiry and the full time from now; anything else is left as it was |
| `LeaseServer.LeaseFile.Release` | pkg/takod/lease.go:260-290 | Leaves no lease, or refuses and leaves another identity's |
| `LeaseServer.AcquireLease` | internal/state/lease.go:57-117 | With any loss in two attempts the file ends as it was or with this identity's lease; the call succeeds exactly when its last attempt was answered and the file is then this identity's, and returns exactly the stored lease; a lease the first attempt created unseen keeps its creation time exactly when no repeat reached the server or the repeat came before it expired, and otherwise has the time of the repeat |
| `LeaseServer.RepeatKeepsUnlessExpired` | pkg/takod/lease.go:61-163 | Two grants to one identity leave the first lease, extended, exactly when the second comes before the first expires |
| `LeaseServer.LateRepeatMakesASecondLease` | internal/state/lease.go:80-86 | A concrete acquire call whose repeat comes after expiry: it returns a lease created at the repeat, where the first attempt had left one created earlier |
| `LeaseServer.RenewLease` | internal/state/lease.go:134-180 | A renewal succeeds exactly when an answered request finds the lease live; then it keeps identity and creation time and lasts the full time from that request; a lease held by someone else is untouched |
| `LeaseServer.ReadRenewal` | internal/state/lease.go:166-180 | A renewal answer extends the lease exactly when it grants and names the requested lease |
| `LeaseCollection.Collect` | cmd/state.go:2293-2337 | In any order of arrival: fails exactly when some node failed; success returns one lease per node in node order; failure hands back exactly the acquired leases |
| `LeaseCollection.EveryIndexArrives` | cmd/state.go:2297-2321 | One message per goroutine means every node's place is filled |
| `Selection.BestIsFirstMaximal` | cmd/state.go:2646-2703 | For any ranking comparison the choice is the first of the maximal usable candidates, and there is none exactly when no candidate is usable |
| `Selection.BestIsCandidate` | cmd/state.go:2646-2703 | The choice is a usable candidate, and exists exactly when one does |
| `Selection.FirstOfEquals` | cmd/state.go:2646-2703 | Among equally good candidates the first one read is kept |
| `Selection.ChooseBest` | cmd/state.go:2646-2689 | The loop that keeps the best so far computes that choice |
| `Repair.ComparisonsRank` | cmd/state.go:2853-2881 | The three comparisons are rankings, asymmetric and with transitive ties, as the choice of a first maximal copy needs |
| `Freshest.HistoryIsFreshest` | cmd/state.go:2646-2659 | The chosen history is held by a reachable server; none that is held has a newer time, its own or of an entry, nor more entries at the same time; an earlier server's is older or smaller |
| `Freshest.DesiredIsFreshest` | cmd/state.go:2661-2674 | The chosen desired revision is held by a reachable server; none that is held was created later, nor at the same time with a later revision ID; of equal ones the first server's is chosen |
| `Freshest.SnapshotsAreFreshest` | cmd/state.go:2691-2703 | The snapshot chosen for a node is offered by a reachable server, in its documents or inside its aggregate; none that is offered was captured later, nor at the same time with more services; an earlier server's was captured earlier or is smaller |
| `Freshest.StoredAggregate` | cmd/state.go:2676-2689 | The same of the stored aggregates |
| `Freshest.AggregateIsRebuilt` | cmd/state.go:1569-1583 | The chosen aggregate is rebuilt from the chosen node snapshots, under the names of the freshest stored aggregate if there is one, and is that aggregate itself if no node has a snapshot |
| `Freshest.FirstServerWins` | cmd/state.go:2646-2703 | For any ranking comparison, what an earlier server holds is worse than the choice |
| `Repair.HoldsChoice` | cmd/state.go:2536-2573 | A node that reported no failed call holds the chosen deployments, desired revision and aggregate |
| `Repair.DocumentsExactly` | cmd/state.go:2575-2597 | Once every call succeeded a node has exactly the chosen node documents and those it had, without the ones its previous aggregate knew and the chosen state does not name |
| `Repair.FailedWriteLeaves` | cmd/state.go:2525-2597 | A call that fails changes nothing and is reported |
| `Repair.RepairIsIdempotent` | cmd/state.go:2525-2808 | From any of the nodes whose writes all succeeded, in any order of the servers, collecting and choosing again gives the same deployments, desired revision and aggregate, and the same content for every node |
| `Repair.HistoryStays` | cmd/state.go:2536-2547 | After the writes the chosen deployments are chosen again, although every node stamps its own update time |
| `Repair.DesiredStays` | cmd/state.go:2549-2560 | After the writes the same desired revision is chosen again |
| `Repair.ActualStays` | cmd/state.go:2562-2573 | After the writes every node offers the chosen aggregate as its own |
| `Repair.NodesStay` | cmd/state.go:2575-2594 | The same nodes are chosen again with the same content, and none that was not chosen comes back |
| `Repair.WrittenOffers` | cmd/state.go:2780-2808 | Through the embed-then-extract round trip and through its own document, a written node offers the chosen content and nothing else |
| `Repair.WrittenOffersNoMore` | pkg/takodstate/state.go:569-610 | A written node offers nothing for a node that was not chosen |
| `Repair.AggregatesAgree` | cmd/state.go:2715-2778 | An aggregate depends only on its nodes' services and capture times, and its capture time is set |
| `Repair.NothingMissed` | pkg/engine/state_repair.go:384-489 | A node that reported no failed write holds the whole choice |
| `StateRepair.EmbeddedCandidates` | cmd/state.go:1520-1535 | However the map is walked, each listed node's embedded snapshot is offered once |
| `StateRepair.DocumentCandidates` | cmd/state.go:2191-2203 | Each listed node's own usable snapshot document is offered, in list order |
| `StateRepair.CollectNodeActual` | cmd/state.go:2073-2207 | Per node, the collected candidates are those of every reachable server in order, embedded before own |
| `StateRepair.BestNodeSnapshots` | cmd/state.go:2691-2703 | One pass over the mixed list computes the best candidate of every node separately |
| `StateRepair.HistoryFreshness` | cmd/state.go:2915-2926 | The history's newest time: at least its own and every entry's, and one of them |
| `StateRepair.Node.WriteEach` | cmd/state.go:2575-2588 | Writes the listed node documents in turn and reports whether one failed |
| `StateRepair.Node.WriteNodes` | cmd/state.go:2575-2588 | Adds exactly the node documents whose writes succeed, each under its node's name |
| `StateRepair.Node.DeleteStale` | cmd/state.go:2590-2594 | Deletes exactly the stale documents whose deletion succeeds |
| `StateRepair.Node.WriteDocuments` | cmd/state.go:2525-2597 | For every pattern of failing calls the node ends as specified, and a warning is reported exactly when one failed, the read of the previous aggregate included |
| `Aggregate.AggregateConserves` | cmd/state.go:2715-2808 | The services are the union over the nodes, each conserving the reports of exactly the nodes that carry it, in name order; the capture time is the newest; every node's snapshot comes back out unchanged |
| `Aggregate.CarriersAreReports` | cmd/state.go:2735-2772 | The reports merged for a service are those at exactly the places of the nodes that carry it |
| `Aggregate.MergeConserves` | cmd/state.go:2736-2771 | Replicas are the sum, containers the concatenation in node order, persistence the disjunction, a non-empty runtime ID the one every node reports, the image the first non-empty one, labels and config hash the left merge; revision images and warming revisions are dropped |
| `Aggregate.MergeKeepsContents` | cmd/state.go:2736-2771 | Sum of replicas and concatenation of the three container lists |
| `Aggregate.MergeKeepsLabels` | cmd/state.go:2742-2752 | Config hash and the three optional labels are the left merge of the reports |
| `Aggregate.MergeKeepsIdentity` | cmd/state.go:2739-2749 | Name, first image, persistence and the runtime ID on which all agree |
| `Labels.AgreedLabelSurvives` | cmd/state.go:3393-3404 | A label on which all non-empty reports agree survives in any order, and no report gives the empty label |
| `Labels.LabelIsReported` | cmd/state.go:3393-3404 | A merged label is empty or was reported by some node |
| `Labels.LabelEndsIn` | cmd/state.go:3393-3404 | A label comes out of one order of reports exactly when it is taken up after non-empty reports that fall into groups, each a repeated label ended by a different one, and nothing contradicts it from there on |
| `Labels.OrderFreeExactly` | cmd/state.go:3393-3404 | The merged label is the same for every order of the reports exactly when all non-empty reports agree, or they are pairwise different and even in number |
| `Labels.EmptyIffCancels` | cmd/state.go:3393-3404 | Non-empty reports merge to nothing exactly when they fall into such groups |
| `Labels.RepeatedIsOrdered` | cmd/state.go:3393-3404 | A label reported twice beside a different one survives in one order and not in another |
| `Labels.OddIsOrdered` | cmd/state.go:3393-3404 | Among an odd number of different labels, at least three, whichever comes last survives |
| `Labels.LabelOrderMatters` | cmd/state.go:3393-3404 | For any two different labels, a,b,b merges to b while b,b,a merges to nothing |
| `Aggregate.NewestIsMaximum` | cmd/state.go:2726-2734 | The newest capture time is an upper bound that some node has |
| `Aggregate.FoldNode` | cmd/state.go:2735-2772 | Walking a node's services in any order folds in every one of them once |
| `Aggregate.AggregateServices` | cmd/state.go:2726-2772 | The loops over nodes and services compute, per service, the merge of its carriers in name order, and the newest time |
| `Aggregate.AggregateSnapshots` | cmd/state.go:2715-2797 | The aggregate with target nodes, services, embedded nodes and capture time, as the conservation result is stated about |
| `History.IncrementalPruningIsExact` | internal/state/manager.go:224-271 | For every sequence of saves from an empty history in which saving an ID again never lowers its time, the pruned history is the newest entries among the latest version of every ID ever saved, newest first, no ID twice |
| `History.SaveKeepsTop` | internal/state/manager.go:224-271 | One more save keeps that property exactly when it does not date a listed entry below a pruned one |
| `History.TopIsUnique` | internal/state/manager.go:257-271 | With distinct times there is only one such list, so the history is a function of the saves |
| `HistoryLoss.LoweringLosesAnEntry` | internal/state/manager.go:224-271 | At every limit, a run from the empty history: one entry more than the limit, each newer than the last, leaves the newest ones; saving the newest again as the oldest leaves a history that lacks a pruned entry newer than one it lists |
| `HistoryLoss.LoweringLosesAnEntryAtLimit` | internal/state/manager.go:249 | The same at the limit of 50 that the code uses |
| `History.SortByTimestamp` | internal/state/manager.go:264-266 | A newest-first permutation |
| `History.DropNulls` | internal/state/manager.go:258-263 | Null entries are dropped, the others kept in order |
| `History.PruneAndSortDeployments` | internal/state/manager.go:257-271 | A newest-first order of the non-null entries, cut to the limit |
| `History.ReplaceOrAppend` | internal/state/manager.go:237-247 | Replaces the first entry with the ID in place, or appends |
| `History.HistoryDocument.UpdateHistory` | internal/state/manager.go:224-255 | The stored document becomes a pruned order of the old one with the deployment put in |
| `History.SaveAll` | internal/state/manager.go:224-271 | The document after any such sequence of saves holds the newest entries |
| `Replicator.SendNeverBlocksOrPanics` | internal/state/replicator.go:62-131 | In every interleaving no channel is closed twice or sent on once closed and the wait group stays above zero until the last goroutine leaves it, so nothing panics; and a goroutine about to report its error finds the channel open and with room, even after the caller returned |
| `Replicator.ResultIsExact` | internal/state/replicator.go:110-131 | Over the events of the run: a nil result means every peer answered with success; a failure lists each peer that answered with an error once and no other, after all answered |
| `Replicator.GivingUpIsExact` | internal/state/replicator.go:110-120 | The caller gives up only after the context ended, and says cancelled exactly if the parent's had ended by then |
| `Replicator.GivingUpIsPossible` | internal/state/replicator.go:110-120 | A caller that waits can give up exactly when its context or the parent's has ended |
| `Replicator.GivingUpHappens` | internal/state/replicator.go:110-120 | A run for either kind of end in which the caller returns while a peer is still writing |
| `Replicator.RepliesDecide` | internal/state/replicator.go:94-102 | A peer answers once, and is counted as failed exactly if it answered with an error |
| `Replicator.NoDeadlock` | internal/state/replicator.go:62-131 | Until the caller returned and every goroutine exited, some step other than the end of the context is possible |
| `Replicator.EveryRunEnds` | internal/state/replicator.go:62-131 | Every run is over after at most eight steps per peer and five more, and a run that can go no further has returned and left no goroutine running |
| `Replicator.StepLowers` | internal/state/replicator.go:62-131 | Every step of any goroutine lowers a bound on the steps still to come, which the end of the context leaves as it is |
| `Replicator.NextKeeps` | internal/state/replicator.go:62-131 | Every step of every goroutine keeps the accounting of the wait group, the channel and the errors |
| `Replicator.RunKeeps` | internal/state/replicator.go:62-131 | The accounting holds after every run |
| `EnvRestore.Disk.RestoreBundle` | cmd/env.go:285-318 | Success leaves at every listed path its decoded entry of the bundle with mode 0600 and touches no other path; a decode or prepare error, each characterised exactly, changes nothing; a failed write whose rollback succeeds gives back every content, permission and absence, and every file exactly when no listed one had a special mode bit; a failed rollback names every path it could not give back |
| `EnvRestore.PreparableExactly` | cmd/env.go:327-440 | A target is accepted exactly when it is in an allowed place, below no file or symlink, and a readable regular file or absent with no other listed path below it |
| `EnvRestore.Disk.PrepareTransaction` | cmd/env.go:327-385 | Succeeds exactly when every path is allowed, has no file or symlink as a parent, and is a readable regular file or absent and not made a directory for another listed path; then it records each |
| `EnvRestore.Disk.PrepareDirectories` | cmd/env.go:328-355 | Succeeds exactly when every path is allowed and can have its directories |
| `EnvRestore.Disk.Rollback` | cmd/env.go:445-477 | Every recorded path is put back or reported, and nothing else is touched |
| `EnvRestore.Disk.DecodeAll` | cmd/env.go:286-298 | Succeeds exactly when every listed entry decodes |
| `EnvRestore.Disk.WriteAll` | cmd/env.go:304-312 | Writes in order up to the first failure, and the files are the overlay of what was written |
| `EnvRestore.RolledBack` | cmd/env.go:445-477 | From the records and what was put back: every path not reported is as it was before, up to special mode bits |
| `EnvRestore.RollbackIsExactIff` | cmd/env.go:376-381 | Putting back is the identity exactly when no file put back carries a special mode bit |
| `EnvRestore.SpecialBitIsLost` | cmd/env.go:285-381 | A concrete restore whose write fails and whose rollback succeeds: the set-user-ID file comes back without its bit |
| `Ports.ParsePrintParse` | pkg/config/ports.go:24-116 | For every accepted entry, parsing the printed value gives the parsed value back |
| `Ports.PrintThenParse` | pkg/config/ports.go:102-116 | For every well-formed value, parsing what is printed gives the value back, given that reading a printed address gives it back |
| `Ports.ParsedIsWellFormed` | pkg/config/ports.go:24-88 | Accepted entries have both ports from 1 to 65535, a known protocol and a canonical address |
| `Ports.PortAlone` | pkg/config/ports.go:42-43 | A port alone, or with an empty container part, publishes itself over TCP |
| `Ports.ProtocolDefaults` | pkg/config/ports.go:25-41 | An entry without a protocol is parsed as the same entry over TCP |
| `Ports.ProtocolIsRead` | pkg/config/ports.go:30-41 | An entry with a protocol is accepted only if that is TCP or UDP in any letter case, and is then the entry over it |
| `Ports.AtoiItoa` | pkg/config/ports.go:90-99 | Reading a printed number gives it back |
| `Ports.SignIsRead` | pkg/config/ports.go:90-99 | A number may have a sign, and a sign alone is no number |
| `Ports.ParsePortPublish` | pkg/config/ports.go:24-88 | The parser that fills a record branch by branch computes the parse the round trips are about |
| `Placement.Resolve` | pkg/config/placement.go:10-58 | Succeeds exactly when the strategy is accepted, the targets are valid and some target meets every constraint, and returns the filter of the targets |
| `Placement.ResolvedIsAccepted` | pkg/config/placement.go:10-58 | Whatever resolves is accepted by the validator, and resolves to a non-empty list without repetitions of exactly the targets that meet every constraint |
| `Placement.ConstraintMeans` | pkg/config/placement.go:154-188 | A label constraint, with the value quoted or not and blanks around the sign, is met exactly by the servers that have the label with that value |
| `Placement.ConstraintOnly` | pkg/config/placement.go:154-188 | Nothing else is read as a constraint: the sign once, the label prefix before it, key and value printable and not empty |
| `Placement.StrategyAccepted` | pkg/config/placement.go:190-216 | The default strategies take no server list, pinning needs one, none takes preferences, and no other strategy is accepted |
| `Placement.ValidTargetsAreDistinct` | pkg/config/placement.go:120-139 | Targets are valid exactly when they are distinct, in the environment and defined |
| `Placement.FilterPicks` | pkg/config/placement.go:43-53 | The filter keeps order and picks exactly the wanted positions |
| `Placement.ServerMatches` | pkg/config/placement.go:141-152 | Matches exactly when every constraint can be read and holds; an error means the constraints before the unreadable one matched |
| `Placement.ValidateTargets` | pkg/config/placement.go:120-139 | Accepts exactly the targets that are distinct, in the environment and defined, and otherwise reports the first problem |
| `Placement.ValidatePlacementConfig` | pkg/config/placement.go:190-216 | Accepts exactly when the strategy is accepted and every constraint can be read |
| `Placement.CheckConstraints` | pkg/config/placement.go:210-214 | Every constraint can be read |
| `Placement.FilterTargets` | pkg/config/placement.go:43-57 | Succeeds exactly when some target meets every constraint, with the filter as result |
| `Placement.KeepSchedulable` | pkg/config/placement.go:69-83 | An explicit selection is all or nothing; otherwise exactly the servers without a lifecycle or with the schedulable one are kept, in order, and none is an error |
| `Placement.ResolveSchedulable` | pkg/config/placement.go:64-84 | For pinned placement the whole resolved list or an error; otherwise the schedulable part of it |
| `Shell.QuotedIsOneWord` | cmd/platform_nodes.go:414-416 | A quoted value is read as one word equal to the value exactly when it has no NUL |
| `Shell.NestedQuotingIsExact` | cmd/platform_nodes.go:350-400 | The outer shell hands the install script over unchanged, and the inner shell reads exactly the install, reconcile and restart commands with the path and identifiers as single words |
| `Shell.LineIsExact` | cmd/platform_nodes.go:350-357 | A line of plain words and quoted values is read back as exactly those values |
| `Shell.ScriptIsExact` | cmd/platform_nodes.go:397-399 | A script of such lines is read back as exactly those commands |
| `Shell.EscapeFeeds` | cmd/platform_nodes.go:414-416 | Inside single quotes the escaped text is read as the text, whatever was read before |
| `Archive.ArchiveNameIdempotent` | cmd/backup.go:729-756 | Sanitising twice is sanitising once, for every input |
| `Archive.ArchiveNameShape` | cmd/backup.go:729-756 | The result is empty exactly for a blank name, and otherwise a name that was valid already, or letters, digits and single underscores with none at either end |
| `Archive.ArchiveNameJoinsWords` | cmd/backup.go:729-756 | A name that is not valid becomes its maximal runs of letters and digits, in order, with exactly one underscore between two, or "volume" if it has none |
| `Archive.SqueezedIsSingle` | cmd/backup.go:738-750 | The builder never holds two separators together, and its flag says whether it ends in one |
| `Archive.SingleIsSqueezed` | cmd/backup.go:738-750 | A text with single separators goes through the builder unchanged |
| `Archive.SqueezeRunes` | cmd/backup.go:738-750 | The loop with its flag computes the builder |
| `Archive.BackupArchiveVolumeName` | cmd/backup.go:729-756 | The sanitiser computes the name the shape and idempotence results are about |
| `Archive.CheckArchiveName` | cmd/backup.go:783-797 | Accepts exactly 1 to 128 characters that are letters, digits or, after the first, dash, underscore or dot |
| `Archive.ArchiveNameExactly` | cmd/backup.go:783-797 | A valid name is 1 to 128 letters, digits, dashes, underscores and dots, the first of them a letter or digit |
| `Archive.SizeUnit` | cmd/backup.go:821-832 | For every 64-bit size of at least 1024 the loop ends with a divisor 1024^(exp+1) that never overflowed, a quotient from 1 to 1023, and exp at most 5 |

## Left out

- Fenced controller leases (generation, target node IDs and heartbeat of a controller lease), which have their own server protocol.
- Join tokens, allocations and mesh address assignment of the membership store.
- Directories and temporary files left behind by an environment restore; of the directories only their clash with listed paths is modelled.
- The dry-run form of the upgrade, which changes nothing, and the legacy detection of git snapshot versions.
- Shell.NestedQuotingIsExact: does not read the text of the install script before the install command, which is any NUL-free prologue after which the inner shell stands at the start of a command, because that text uses expansions and compound commands outside the modelled quoting rules.
- Shell.QuotedIsOneWord: the reader covers words, quotes, blanks and newlines, and does not read text in which expansion, substitution or operators are active.
- Ports.PrintThenParse: address parsing and printing are a parameter with the stated round trip, because the address library is not part of this model.
- RollingUpgrade.LegacyNeverBlocks: says nothing about the machines of legacy servers beyond what holds of one node, because each is upgraded on its own.
- Archive.SizeUnit: the floating-point text of the size is not modelled.
- Repair.RepairIsIdempotent: the recorded source of a choice, which is only displayed, is not modelled, and capture times are not before the zero time.
- History.SaveAll: covers saves that are written; a save that cannot be written leaves the history as it was. Lookups in the history are left out.
- SSH, HTTP, Docker, WireGuard and systemd effects beyond their outcome, cryptography and JSON codecs, commands that only display, and the remaining flat checks and fan-outs.

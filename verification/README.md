# Immutavault: verified model of recovery, retention and failover

Immutavault backs virtual machines up into a deduplicating repository, keeps recovery points
immutable, copies them to locked object storage, and fails a site over to a disaster-recovery site.
This project models the parts of it that carry guarantees and proves those guarantees over every
run, with every external call allowed to fail wherever it is made. Where the code changes state step
by step, a class with the same fields has a method with the same steps. Each method is proved to have
exactly the effect a predicate states, and besides to do what the source promises, said in the fields and
log entries it leaves; the safety modules prove their results about runs of those effects. Where calls may overlap in the code (promotions, failbacks and demotions with each other and
with outside fence lifts, holds with retention, lock calls on one bucket, executions and tests of
restore requests) the runs are interleavings of single database steps and single external calls. For
the orchestrator there are two kinds of run: `FailoverSafety` takes its calls, and outside fence lifts,
one at a time, as the classes in `Orchestrator` carry them out; `Calls` and the `Overlap` modules take
the same scripts apart and let them overlap and stop anywhere.

| files | what they cover |
|---|---|
| `Failover.dfy`, `Orchestrator.dfy`, `FailoverQueries.dfy`, `FailoverSafety.dfy` | promotion, failback, demotion, the watcher, the run log and the health row |
| `FailoverOrder.dfy`, `PromotionOrder.dfy` | what must have returned before each step of a failback, a promotion and a demotion |
| `Calls.dfy`, `OverlapSafety.dfy`, `OverlapLedger.dfy`, `OverlapRuns.dfy` | the same calls overlapping: split brain, the run log, and runs that go wrong |
| `Gateway.dfy`, `TrafficSafety.dfy` | the gateway scripts, and what the two sites advertise while the protocol runs |
| `Timestamps.dfy` | why comparing stored UTC strings compares instants |
| `Catalog.dfy`, `RetentionSafety.dfy` | recovery points, holds and retention, step by step |
| `ProviderLocks.dfy`, `ProviderSafety.dfy` | Cloudflare R2 bucket-lock rules and S3 object lock, one call |
| `LockRuns.dfy` | lock calls of overlapping copies and holds on one bucket |
| `ReplicaCoverage.dfy` | whether a replica's locks last as long as the deadlines in the catalog |
| `CbtCache.dfy`, `CbtSafety.dfy` | the changed-block cache, its snapshot views and the fallback policy |
| `AuditChain.dfy`, `Manifest.dfy` | the hash-chained audit log; the tree manifest |
| `ProxmoxImport.dfy` | the staged import of a converted VM with rollback |
| `RestoreLifecycle.dfy`, `RestoreSafety.dfy` | restore requests, approval, execution and the isolated recovery test |
| `Der.dfy` | the hand-written DER encoder for RSA keys |
| `Common.dfy` | options, spans of time, the maximum |

`dafny verify dfyconfig.toml` checks everything.

## What turned out to need a condition

These guarantees do not hold of the code as it stands. The code is modelled as it is, with a
concrete counterexample and the condition under which the guarantee does hold.

- Nothing keeps calls of the orchestrator apart, and a promotion looks at the fence only once. A fence
  lifted during its restores, while the DR route is still down, ends with both routes up and unfenced, in
  every configuration (`LiftInsidePromotionSplits`). An activation is unjustified exactly when every fence
  so far has been lifted, or a DR activation has overtaken every strict withdrawal
  (`UnjustifiedExactly`), which can only happen within a promotion's or a failback's own window
  (`WindowIsFencedUnlessLifted`, `ExposedIsWithdrawnUnlessOvertaken`). Without a lift or a DR activation
  inside such a window there is no split brain, whatever else overlaps or stops
  (`NoSplitBrainWhileQuiet`); a running failover row shows the window of a promotion beforehand
  (`WindowShowsInRunLog`).
- A watch and a manual promotion that are both admitted before either closes can both return, and then
  the run log has two failovers in a row (`TwoPromotionsBothReturn`); if one fails late, its handler
  withdraws the route of the other (`LateFailureWithdrawsTheOther`). Successes take turns if and only if
  each run, when it is closed as successful, is still admitted: no later row has succeeded and its
  admission check would pass once more (`AlternatesExactly`). That no run succeeds between another's
  admission and its close is enough (`UnovertakenRunsAlternate`) but not necessary: a promotion and its
  failback may both succeed in between (`OvertakenRunsMayAlternate`).
- A hold takes no lock and can land while a retention is between its catalog read and its forget. It is
  acknowledged, and the point is forgotten all the same (`HoldDuringRetentionIsLost`). By the read, the
  window and every earlier hold had passed (`RemovedOnlyAfterDeadline`); a removal is premature if and
  only if such a hold landed in between, or the point was only then catalogued
  (`PrematureExactlyWhenOvertaken`).
- The catalog and the repository agree after each step if and only if it is not one of three: a forget or
  prune that raises with a catalogued snapshot gone, a process that ends before the marks, and the
  cataloguing of a snapshot already removed (`StepAgreesExactly`, `InterruptedRetentionDisagrees`).
- A strict route withdrawal reports success whatever its commands did: the script runs without
  `set -e` and its last command ends in `|| true`. It leaves nothing advertised exactly when the
  withdrawal command of each advertised network took effect (`InactiveMeansDownExactly`); beforehand, its
  success is worth something only if nothing was advertised (`SuccessGuaranteesDownExactly`). In every
  configuration there is a run of a promotion, a failback and a fence lift in which one such loss leaves
  both sites advertising (`LostWithdrawalSplitsTraffic`).
- The handler of a failed promotion powers the restored workloads off and closes its run if and only
  if the withdrawal call, which comes first and may time out, itself returns (`FailedPromotion`,
  `WithdrawalThatRaisesLeavesRunOpen`). Otherwise the run stays marked as running.
- An R2 lock call reads the rule list and later writes the whole list back. When calls overlap, a write
  loses a promised horizon if and only if its own is shorter and the list it had read was still short
  (`ShortExactlyWhenBothAre`, `OverlappingWriteLosesHorizon`). Without such a call in flight, and with
  readable retentions, no promise is ever lost (`SafePromiseIsKept`).
- A replica's locks last as long as the deadlines of the points copied to it exactly when no step leaves
  a gap: a hold that commits a deadline beyond what is promised, or the record of a copy locked for less
  than its point's deadline, such as the synchronisation of a held point (`CoveredExactlyWithoutGaps`,
  `SyncLeavesGapExactly`). A hold commits its deadline before it locks, so each that goes beyond what is
  promised passes through a gap; it closes with the first lock call that gets to everything
  (`HoldIsCoveredOnceLocked`), and if the hold's own call fails, only then.
- The legacy broad R2 rule leaves the server only together with another rule change
  (`LegacyLeavesOnlyWithAWrite`), and its removal can shorten the protection of an object
  (`LegacyRuleCanOutlastItsReplacement`). A write protects an object exactly up to the new horizon or as
  far as a rule that no namespace in need of work had to give up (`ProtectionAfterWrite`).
- Where the provider does not enforce its locks, an S3 lock pass that returns has shortened an object's
  retention exactly when it could not read it and it was longer (`ShortenedExactlyWhenUnreadable`): a
  failing read counts as no retention. Where the provider refuses to shorten, as S3 does for a call that
  asks for no bypass, such a write ends the pass with an error, and no lock on an object is ever lost
  (`EnforcedLockIsKept`).
- Rolling an import back deletes the new VM with unreferenced disks, and so also volumes of its id from
  before the import that no configuration mentions; no other volume is ever lost
  (`VolumeIsLostExactly`).
- Two VMs whose names sanitize alike share one cache directory, VMs of one name in different folders
  among them. With deletions that succeed and a helper that does not write through hard links, caches
  and views are always true if and only if no two protected VMs do (`TrueExactlyWhenCachesAreDistinct`);
  each of the other two conditions has a counterexample of its own.
- A second test of a restore request, refused while a first one waits for its boot, marks the request
  failed although the first one passes (`RefusedTestFailsAPassingOne`). A test that returns normally leaves
  its request successful exactly if no other one was refused in the meantime (`TestVerdict`). Testing a
  request still awaiting approval fails it for good (`RefusedTestStillFailsRequest`).
- A DER length field decodes to its value if and only if the value needs at most 126 octets
  (`LengthDecodesExactlyWhenItFits`).
- `demote_dr` withdraws the DR site but writes no run, so a failover counts as active after it
  (`OnlySuccessfulRunsSwitchSites`).

## Model

| member | source | states |
|---|---|---|
| FailoverSafety.NoSplitBrainEver | src/immutavault/dr.py:201-312 | over every run of promotions, failbacks, demotions, watches and outside fence lifts, taken one at a time, at every moment inside every call, both routes are up only while the primary is fenced |
| FailoverSafety.JustifiedLogNeverSplits | src/immutavault/dr.py:201-312 | if each DR activation follows a held fence and each primary activation a strict DR withdrawal with no DR activation between, the two routes are never up together unfenced |
| FailoverSafety.PromoteKeepsJustified | src/immutavault/dr.py:201-247 | a promotion with no lift or other call inside it, stopped anywhere, rolled back or not, only activates the DR route and only under the fence it just obtained |
| FailoverSafety.FailbackKeepsJustified | src/immutavault/dr.py:267-312 | a failback with no other call inside it, stopped anywhere, activates the primary route only after its own strict withdrawal of the DR route |
| FailoverSafety.DemoteKeepsJustified | src/immutavault/dr.py:249-265 | a demotion stopped anywhere activates nothing |
| FailoverSafety.LedgerAndCounterEver | src/immutavault/dr.py:196-206 | over every run of calls one at a time, successful failovers and failbacks alternate starting with a failover, a failover counts as active exactly when the latest success is one, and the stored counter is the trailing streak of unhealthy evaluations |
| OverlapSafety.RunFits | src/immutavault/dr.py:213 | however calls overlap and wherever they stop, start times of runs increase, and each promotion or failback under way has a running row of its own from the step that opens it on |
| OverlapSafety.UnjustifiedExactly | src/immutavault/dr.py:201-312 | a DR activation has no held fence if and only if every fence so far was lifted afterwards; a primary activation has no withdrawn DR route if and only if every strict withdrawal so far was followed by a DR activation |
| OverlapSafety.WindowIsFencedUnlessLifted | src/immutavault/dr.py:212-229 | however calls overlap, a promotion between its fence and its activation is fenced, unless a lift has landed in that window |
| OverlapSafety.ExposedIsWithdrawnUnlessOvertaken | src/immutavault/dr.py:300-303 | however calls overlap, a failback between its strict withdrawal and its primary activation has the DR route withdrawn, unless a promotion has activated it in that window |
| OverlapSafety.QuietRunIsJustified | src/immutavault/dr.py:201-312 | without a lift or a DR activation inside such windows, and none lifting while both routes may be up, every activation of every overlapping call is justified |
| OverlapSafety.NoSplitBrainWhileQuiet | src/immutavault/dr.py:201-312 | over every interleaving of calls that may stop anywhere, under that condition, both routes are up only while the primary is fenced, at every moment |
| OverlapSafety.WindowShowsInRunLog | src/immutavault/dr.py:212-213 | the window of a promotion shows as a running failover row, but for the moment between its fence and the opening of its row |
| OverlapRuns.LiftInsidePromotionSplits | src/immutavault/dr.py:213-229 | for every configuration and number of restores, a run of one promotion in which the fence is lifted while the DR route is down and the promotion activates it afterwards: both routes up, unfenced |
| OverlapLedger.CloseAlternatesExactly | src/immutavault/dr.py:196-206 | closing a run as successful keeps the successes taking turns if and only if no later run has succeeded and its admission check would pass once more |
| OverlapLedger.AlternatesExactly | src/immutavault/dr.py:196-312 | over every interleaving, the successes have taken turns at each moment so far if and only if every run closed as successful was still admitted at its close |
| OverlapLedger.UnovertakenRunsAlternate | src/immutavault/dr.py:196-312 | if no run succeeds between the admission of another successful run and its close, the successes take turns |
| OverlapLedger.ActiveEver | src/immutavault/state.py:545-561 | over every interleaving, a failover counts as active exactly when the latest success, by row, is one |
| OverlapLedger.RunLists | src/immutavault/dr.py:219-238 | over every interleaving, the row of a promotion lists what it has restored so far, and that of a successful failover all configured workloads in boot order |
| OverlapLedger.CounterIsStreak | src/immutavault/state.py:563-573 | whatever overlaps with the evaluations, the stored counter is the trailing streak of unhealthy ones |
| OverlapRuns.TwoPromotionsBothReturn | src/immutavault/dr.py:201-239 | for every configuration with a fence command, a run in which a watch and a manual promotion are both admitted and both return: two failovers in a row |
| OverlapRuns.OvertakenRunsMayAlternate | src/immutavault/dr.py:201-310 | for every such configuration, a run in which a promotion and its failback succeed between another promotion's admission and its close, and the successes still take turns |
| OverlapRuns.LateFailureWithdrawsTheOther | src/immutavault/dr.py:240-241 | for every such configuration, a run in which one promotion returned, another admitted before it fails, its handler withdraws the DR route, and neither route is up while a failover counts as active |
| FailoverSafety.OnlySuccessfulRunsSwitchSites | src/immutavault/dr.py:249-310 | which site is active changes only through a promotion or failback that returned normally; a demotion or a failed run never changes it |
| FailoverSafety.AutomaticPromotionNeedsSustainedOutage | src/immutavault/dr.py:314-370 | a watch touches the system only by promoting, and then automatic failover is on, no maintenance file exists, the probes just failed, and the last `failure_threshold` evaluations were all unhealthy and span (threshold - 1) intervals when the interval exceeds a minute |
| FailoverSafety.WatchPromotesExactly | src/immutavault/dr.py:314-370 | a watch promotes if and only if no maintenance file exists, an evaluation is due, the probes fail as configured, the failures in a row reach the threshold, automatic failover is on and no failover is active |
| FailoverQueries.UnhealthyExactly | src/immutavault/dr.py:343-347 | the site is unhealthy if and only if the quorum of probes failed, or without one every probe, of which there is at least one |
| FailoverSafety.StreakSpans | src/immutavault/dr.py:327-342 | k consecutive unhealthy evaluations span at least k - 1 configured intervals |
| FailoverSafety.FailedPromotion | src/immutavault/dr.py:207-247 | a promotion that raises up to fencing touches no route, VM or run; a later one leaves one run that lists exactly what was restored, closed as failed with each restored workload powered off in reverse order after the withdrawal request, if and only if that request returned |
| FailoverSafety.WithdrawalThatRaisesLeavesRunOpen | src/immutavault/dr.py:240-247 | in every configuration a promotion whose rollback withdrawal raises and whose run stays marked as running |
| FailoverSafety.PowerOnComesLast | src/immutavault/dr.py:219-247 | however a promotion ends, it has powered no workload on before every workload was restored and the route activation succeeded |
| FailoverSafety.RestoredFollowsScript | src/immutavault/dr.py:219-228 | the workloads a promotion has restored at any point are a prefix of the boot order |
| Failover.LatestIsLastSuccess | src/immutavault/state.py:545-561 | with increasing start times, the query for the latest successful run of each direction tells which success came last |
| FailoverQueries.LatestExactly | src/immutavault/state.py:545-561 | the query for a direction finds its last successful run, and nothing exactly when there is none |
| FailoverQueries.ActiveExactly | src/immutavault/dr.py:196-199 | a failover counts as active if and only if one succeeded and nothing has succeeded since |
| FailoverOrder.FailbackObeysOrder | src/immutavault/dr.py:277-312 | whatever raises, each step of a failback comes after those it needs have returned: backups after the strict primary withdrawal, restores after all backups, the strict DR withdrawal after all restores, strict power-offs after it, the primary route after all power-offs, each boot after the health of the one ahead; a raise leaves only the closing of the run as failed |
| FailoverOrder.ReturnedFailbackTookBack | src/immutavault/dr.py:277-309 | a failback that returned has saved every DR workload before restoring any, restored all before withdrawing the DR route, powered every one off there before activating the primary route, and only then powered each on and found it healthy |
| PromotionOrder.PromotionObeysOrder | src/immutavault/dr.py:201-247 | whatever raises, each step of a promotion or its handler comes after those it needs: the fence after preflight, commands and verification as configured, restores after the primary withdrawal, the DR route after all restores, each boot after the health of the one ahead; after a raise only the handler's steps come, and it closes the run once every restored workload's power-off was attempted |
| PromotionOrder.ReturnedPromotionTookOver | src/immutavault/dr.py:213-239 | a promotion that returned has restored every workload before activating the DR route, and only then powered each on and found it healthy |
| PromotionOrder.DemotionObeysOrder | src/immutavault/dr.py:249-265 | a demotion powers off strictly and only after the strict withdrawal returned, only recorded workloads still configured, and all of them if it returns |
| Orchestrator.DrOrchestrator.Promote | src/immutavault/dr.py:201-247 | each way a promotion can end, with the exact log, run row and state it leaves, every step in its order, and each workload powered on and then found healthy if it returned |
| Orchestrator.DrOrchestrator.PassGate | src/immutavault/dr.py:207-212 | nothing but readiness, preflight and fencing happens before the gate is passed, and the fence is accepted only by command or by confirmation of a manual call |
| Orchestrator.DrOrchestrator.FencePrimary | src/immutavault/dr.py:167-179 | the fence is recorded, once it comes to that, if and only if it is a command or a manual call confirmed it; a configured verification must pass |
| Orchestrator.DrOrchestrator.TakeOver | src/immutavault/dr.py:213-238 | the guarded part of a promotion runs its steps in order up to the first that raises, and its run lists what was restored |
| Orchestrator.DrOrchestrator.RollBack | src/immutavault/dr.py:240-247 | the handler withdraws the route, powers off in reverse tolerating failures and closes the run, unless the withdrawal raises |
| Orchestrator.DrOrchestrator.Failback | src/immutavault/dr.py:267-312 | each way a failback can end, with the exact log, run row and state it leaves, every step in its order, and no DR workload left on before the primary route is up |
| Orchestrator.DrOrchestrator.CarryBack | src/immutavault/dr.py:277-312 | a failback that is carried out keeps its order, and one that raises ends with its run closed as failed and nothing after it |
| Orchestrator.DrOrchestrator.RestoreAll | src/immutavault/dr.py:219-228 | workloads are restored in boot order and recorded as they return; none returns without a recovery point, which stops the loop |
| Orchestrator.DrOrchestrator.BootAll | src/immutavault/dr.py:231-235 | each workload in turn is powered on, and at the next entry found healthy, before the next one is |
| Orchestrator.DrOrchestrator.PowerOffReversed | src/immutavault/dr.py:242-244 | power-off goes through the workloads backwards, and when failures are tolerated reaches all of them |
| Orchestrator.DrOrchestrator.DemoteDr | src/immutavault/dr.py:249-265 | a demotion strictly withdraws the DR route, then powers off the still configured workloads backwards, and changes no run |
| Orchestrator.DrOrchestrator.CreateRun | src/immutavault/state.py:505-511 | one running row is added with a start time later than every earlier one |
| Orchestrator.DrOrchestrator.Probe | src/immutavault/dr.py:343-347 | the site is unhealthy exactly when the quorum, or without one every probe, failed |
| Orchestrator.DrOrchestrator.UpdateHealth | src/immutavault/state.py:563-573 | the counter grows by one on an unhealthy evaluation and resets on a healthy one |
| Orchestrator.DrOrchestrator.Watch | src/immutavault/dr.py:314-370 | each way a watch can end; evaluations are never closer than a configured interval above one minute |
| Gateway.GatewayHost.Deactivate | src/immutavault/dr_network.py:145-157 | a withdrawal works through the networks until the connection is lost, and reports success whenever it reached the end |
| Gateway.GatewayHost.Activate | src/immutavault/dr_network.py:127-143 | an activation stops at the first network whose commands failed |
| Gateway.ActiveMeansUp | src/immutavault/dr_network.py:127-143 | an activation that reports success has every network addressed and advertised |
| Gateway.RaisingStopsAtFirst | src/immutavault/dr_network.py:127-143 | an activation that raises has left the networks ahead of the failing one up and those after it alone |
| Gateway.WithdrawalTakesAll | src/immutavault/dr_network.py:145-157 | a network whose two commands took effect is neither advertised nor addressed, and a withdrawal never adds either |
| Gateway.InactiveMeansDownExactly | src/immutavault/dr_network.py:145-157 | a withdrawal that reports success leaves nothing advertised exactly when each advertised network's command took effect |
| Gateway.SilentWithdrawalFailure | src/immutavault/dr_network.py:145-157 | from any state a strict withdrawal can report success having changed nothing |
| Gateway.SuccessGuaranteesDownExactly | src/immutavault/dr_network.py:145-157 | whatever its commands do, a withdrawal that reports success leaves nothing advertised, if and only if nothing was advertised before the call |
| TrafficSafety.TrafficFollowsLog | src/immutavault/dr_network.py:127-157 | a site advertises a network only while the log counts its route as up, if successful withdrawals took effect |
| TrafficSafety.BothAdvertiseOnlyWhileFenced | src/immutavault/dr.py:201-312 | wherever a log shows no split brain, under that condition, both sites' gateways advertise only while the primary is fenced |
| TrafficSafety.CallsInTurnKeepTrafficFenced | src/immutavault/dr.py:201-312 | so they do over every run of calls and lifts one at a time |
| TrafficSafety.OverlappingCallsKeepTrafficFenced | src/immutavault/dr.py:201-312 | and over every interleaving of calls without a lift or a DR activation inside a promotion's or a failback's window |
| TrafficSafety.LostWithdrawalSplitsTraffic | src/immutavault/dr.py:300-303 | in every configuration a run of one promotion, one failback whose DR withdrawal has no effect, and a fence lift, after which both sites advertise unfenced though all other withdrawals work |
| Timestamps.IsoOrderIsChronological | src/immutavault/state.py:142-143 | string order on UTC `isoformat()` texts, fraction present or not, is the order of the instants, and equal texts are equal instants |
| Timestamps.StrMaxKeepsLater | src/immutavault/state.py:351 | the string maximum of two deadlines is the later deadline |
| Timestamps.PadOrder | src/immutavault/state.py:142-143 | equal-width decimal fields compare as numbers and pass ties on to the rest of the text |
| Timestamps.FractionOrder | src/immutavault/state.py:142-143 | leaving out a zero fraction does not disturb the order |
| Timestamps.DayAndSecond | src/immutavault/state.py:142-143 | the span called a day, and the one called a second, are those by which the next calendar day and second lie later |
| Catalog.Vault.BackupVm | src/immutavault/engine.py:142-276 | a snapshot is stored exactly if export and save succeed, catalogued exactly if also its summary does, and then immutable from its start time for exactly the configured days, or the preserve window if suspicious and longer, even if the backup later fails |
| Catalog.Vault.HoldRecoveryPoint | src/immutavault/engine.py:365-372 | a hold of 1 to 36500 days on a live point moves its deadline to the later of the two; anything else is refused |
| Catalog.Vault.ExtendImmutability | src/immutavault/state.py:342-357 | a deadline is never shortened; unknown and expired points are refused |
| Catalog.Vault.ProtectedSnapshotIds | src/immutavault/state.py:294-300 | what a retention reads: exactly the unexpired points whose deadline lies after the instant |
| Catalog.Vault.CollectRemovals | src/immutavault/restic.py:124-131 | exactly the proposed, named and unprotected snapshots |
| Catalog.Vault.ForgetAndPrune | src/immutavault/restic.py:105-135 | only snapshots left out of the read set go, all of the proposed ones when nothing raises |
| Catalog.Vault.MarkPointsExpired | src/immutavault/state.py:359-367 | exactly the removed points are marked, and no deadline is touched |
| Catalog.Vault.Retention | src/immutavault/engine.py:278-281 | a retention that completes has removed, of the repository, exactly what was proposed and neither unexpired nor before its deadline, and marked exactly that; an interrupted one has removed nothing else and marked nothing |
| RetentionSafety.RemovedOnlyAfterDeadline | src/immutavault/restic.py:105-135 | over every interleaving and whatever restic proposes, an unexpired catalogued point leaves the repository only in a retention, and by its catalog read the days its backup asked for, the preserve window if suspicious, and every hold granted before had passed |
| RetentionSafety.ProtectedExactly | src/immutavault/state.py:294-300 | over every run, a retention reads a point as protected if and only if it is unexpired and a backup or hold so far asked for it beyond the instant of the read |
| RetentionSafety.ForgottenExactly | src/immutavault/restic.py:105-135 | over every run, a completed forget removes exactly what restic proposed, except what at the read was catalogued, unexpired and asked for beyond it |
| RetentionSafety.PrematureExactlyWhenOvertaken | src/immutavault/engine.py:278-281 | a removal has a window or a granted hold beyond the read instant if and only if such a hold landed, or the point was catalogued, between the read and the forget |
| RetentionSafety.HoldDuringRetentionIsLost | src/immutavault/engine.py:365-372 | for every deadline a run in which a hold up to it is granted during a retention and the point forgotten |
| RetentionSafety.ForgetHasRead | src/immutavault/engine.py:278-281 | every forget has the catalog read it acts on, with no step of another retention in between |
| RetentionSafety.DeadlinesNeverDecrease | src/immutavault/state.py:342-367 | between any two moments of a run no deadline moves earlier, no hold is forgotten and no point is un-expired |
| RetentionSafety.ExpiredExactlyWhenRemoved | src/immutavault/state.py:359-367 | in a run without a diverging step, whenever no marks are due, the expired points are exactly the removed catalogued ones |
| RetentionSafety.StepAgreesExactly | src/immutavault/engine.py:278-281 | a step keeps catalog and repository in agreement if and only if it is not an interrupted removal, a process ending before the marks, or the cataloguing of a removed snapshot |
| RetentionSafety.HoldOnRemovedOnlyBeforeMark | src/immutavault/state.py:342-349 | in such a run a hold is granted on a removed snapshot exactly between its removal and its mark |
| RetentionSafety.InterruptedRetentionDisagrees | src/immutavault/restic.py:132-135 | a concrete run in which pruning raises and a removed point stays unexpired |
| ProviderLocks.Replica.EditRules | src/immutavault/storage.py:414-436 | the list written back is the one that was read, without the legacy rule and with each namespace in need strengthened, and it is written exactly if some namespace needed it |
| ProviderLocks.Replica.EnsureR2BucketLock | src/immutavault/storage.py:396-451 | a call no other one overlaps succeeds if and only if its read returns and its write does or was not needed, and then each of the five namespaces has, as the last rule of its id, an enabled one on its own prefix that is indefinite or dated no earlier than the horizon |
| ProviderLocks.NothingNeedsWorkExactly | src/immutavault/storage.py:330-352 | the code's test finds nothing to do exactly when the five rules, by id and prefix, are in force until the instant |
| ProviderLocks.KeptExactly | src/immutavault/storage.py:414-419 | only rules with both the id and the prefix of the broad rule are dropped |
| ProviderLocks.Replica.R2BucketLockStatus | src/immutavault/storage.py:355-393 | enabled exactly when each of the five namespaces has, as the last rule of its id, an enabled one on its own prefix that is indefinite or dated no earlier than the lock days less one |
| ProviderLocks.Replica.LockObject | src/immutavault/storage.py:236-252 | a retention already long enough stays; any other is replaced, unless the provider enforces it and the new one is shorter; an unreadable one counts as absent |
| ProviderLocks.Replica.ApplyObjectLock | src/immutavault/storage.py:209-260 | a pass that returned has every persistent object locked at least until the horizon; a retention changes only to the horizon, and only on a persistent object whose own was shorter, absent or unreadable, however the pass ends |
| ProviderLocks.Replica.CopySnapshot | src/immutavault/restic.py:151-184 | a copy succeeds only if restic did and the replica shows the snapshot; its objects are then there and the five namespaces, or all persistent objects, locked until the horizon |
| ProviderLocks.AppliedOrigins | src/immutavault/storage.py:420-436 | every rule of the strengthened list is the kept one at its position or the wanted rule of a namespace that needed it |
| ProviderLocks.EnsuredLocks | src/immutavault/storage.py:396-451 | the list after a successful call has for each of the five prefixes an enabled rule of its own id that lasts until the horizon |
| ProviderSafety.EnsureKeepsOthers | src/immutavault/storage.py:414-419 | all unmanaged rules stay, in order |
| ProviderSafety.ManagedRuleNeverWeakened | src/immutavault/storage.py:430-436 | a managed rule on its own prefix keeps covering every instant it covered |
| ProviderSafety.EnsureIsIdempotent | src/immutavault/storage.py:438-439 | a rerun for the same or an earlier horizon changes nothing |
| ProviderSafety.LegacyLeavesOnlyWithAWrite | src/immutavault/storage.py:414-439 | the legacy broad rule is gone from the server exactly when it was not there or another rule needed writing |
| ProviderSafety.StatusAfterEnsure | src/immutavault/storage.py:366-376 | status is enabled until the elapsed time exceeds max(lock days, minimum days) - (lock days - 1) days, and from then on disabled if some namespace's rule ends at the horizon |
| ProviderSafety.ProtectionAfterWrite | src/immutavault/storage.py:420-439 | after a write a persistent object is protected exactly up to the horizon, or further by a rule whose position no namespace in need of work holds |
| ProviderSafety.TidyEnsureNeverWeakens | src/immutavault/storage.py:340-352 | from tidy rules no object in the bucket loses protection |
| ProviderSafety.LegacyRuleCanOutlastItsReplacement | src/immutavault/storage.py:414-419 | a concrete bucket in which dropping the legacy rule shortens protection |
| ProviderSafety.ShortenedExactlyWhenUnreadable | src/immutavault/storage.py:236-252 | an S3 pass that returned has moved an object's retention earlier if and only if it could not read it and it outlasts the horizon; where the provider enforces its locks no pass ever does, finished or not |
| ProviderSafety.ShortExactlyWhenBothAre | src/immutavault/storage.py:406-439 | writing an edited list back leaves a namespace short of an instant if and only if the horizon and the list that was read are both short of it |
| LockRuns.StepLosesExactly | src/immutavault/storage.py:396-439 | one API call loses a promised lock if and only if it writes for a call with a shorter horizon that had read the unit while it was short, or failed to read it |
| LockRuns.PromiseKeptExactly | src/immutavault/storage.py:209-260 | over every interleaving of calls, a promised lock lasts up to a moment exactly when no such write comes on the way |
| LockRuns.ThreatIsOlder | src/immutavault/storage.py:406-439 | such a call, unless its read failed, had read before the promise was made and has been in flight ever since |
| LockRuns.SafePromiseIsKept | src/immutavault/storage.py:209-260 | with readable retentions, a promise that no call in flight threatens is never lost, whatever overlaps later |
| LockRuns.RuleLockOutlives | src/immutavault/restic.py:162-177 | every persistent object is locked to the horizon of a completed R2 call at any later moment, if no threatening write comes in between and so if none was in flight; and such a write loses it |
| LockRuns.PassPromises | src/immutavault/storage.py:230-252 | each object an S3 pass has dealt with was locked up to the horizon of the pass at some moment after its listing |
| LockRuns.FinishedPassPromises | src/immutavault/storage.py:230-252 | a finished S3 pass has locked, at some moment after its listing, every persistent object that existed when it was listed, up to its horizon |
| LockRuns.FinishedPassLocks | src/immutavault/storage.py:209-260 | when an S3 pass finishes, every persistent object it listed is locked up to its horizon, if no threatening write landed during the pass, or the provider enforces its locks |
| LockRuns.EnforcedLockIsKept | src/immutavault/storage.py:247-251 | where the provider enforces its locks, no lock on an object is ever lost, whatever overlaps and whatever cannot be read |
| LockRuns.ObjectLockOutlives | src/immutavault/storage.py:230-252 | from then on an object stays locked to that horizon exactly while no threatening write lands |
| LockRuns.OverlappingWriteLosesHorizon | src/immutavault/storage.py:406-439 | for every hold and shorter copy, a run in which both read, the copy writes last, and the horizon of the hold is gone |
| LockRuns.ProtectionNeverMovesEarlier | src/immutavault/storage.py:396-451 | from tidy rules, while each write replaces the list its call read, no object loses the protection of any rule |
| ReplicaCoverage.CoveredExactlyWithoutGaps | src/immutavault/engine.py:365-397 | over every interleaving of the steps of backups, copies, holds and retentions, all copied points have had their objects locked until their deadlines after every step exactly when no step left a gap |
| ReplicaCoverage.StepCoversExactly | src/immutavault/engine.py:365-397 | a step keeps every copied point covered if and only if it is not a hold committing a deadline beyond what is promised, nor the record of a copy whose objects are promised for less than the deadline |
| ReplicaCoverage.PromisedExactly | src/immutavault/storage.py:209-260 | over every run and between any two moments, an object is promised until an instant exactly when it was so before, or some lock call since got to it with a horizon no earlier |
| ReplicaCoverage.StepPromisesExactly | src/immutavault/storage.py:209-260 | a step promises exactly what it locks, up to its horizon, and takes no promise away |
| ReplicaCoverage.LockIsAStep | src/immutavault/storage.py:209-260 | what one lock call may do, failing anywhere, is exactly what the step of reaching some of the objects does, and a call that returns has reached all |
| ReplicaCoverage.HoldIsCoveredOnceLocked | src/immutavault/engine.py:372-393 | the gap of a hold is closed, for as long as the point is not held again, from the first lock call that reaches the hold's deadline and gets to everything |
| ReplicaCoverage.CoveredIsLocked | src/immutavault/storage.py:340-352 | an object of a covered point is locked by the provider until the deadline of the point |
| ReplicaCoverage.BackupCopyLeavesNoGap | src/immutavault/engine.py:219-236 | the copy of a backup, whose lock call gets to everything, is recorded without a gap unless a hold has landed on the point |
| ReplicaCoverage.SyncLeavesGapExactly | src/immutavault/dr.py:137-151 | the record of a synchronised copy leaves a gap exactly when a hold or a longer window reaches beyond its lock's horizon and some object was not promised that long already |
| CbtCache.IncrementalAdapter.Backup | src/immutavault/incremental.py:116-217 | a backup is accepted if and only if the provider is available, the helper exited with zero and claimed success with a checkpoint, attested application consistency where that is required, left a layout, and the files were written; a checkpoint changes only past these gates, and only to the one reported |
| CbtCache.IncrementalAdapter.SnapshotView | src/immutavault/adapters/vmware_incremental.py:124-141 | linked or copied, a view has every file of the cache with its content and disturbs no existing file |
| CbtCache.IncrementalAdapter.FullExport | src/immutavault/adapters/vmware_incremental.py:48-65 | a full export replaces a native backup exactly when the policy allows it and it succeeds |
| CbtCache.IncrementalAdapter.BackUpAndView | src/immutavault/adapters/vmware_incremental.py:245-254 | an accepted backup comes with a view that has exactly the contents of the cache at the advanced checkpoint |
| CbtCache.IncrementalAdapter.TryNative | src/immutavault/adapters/vmware_incremental.py:244-255 | an accepted backup adds that view and advances the cache; otherwise neither changes |
| CbtCache.IncrementalAdapter.Export | src/immutavault/adapters/vmware_incremental.py:209-280 | native exactly when the helper's reply passed every gate; a full export exactly when the mode is not strict, fallback is configured and the reason is one of two before the backup is entered, or one of eight with the helper's word that it is safe after; other VMs' caches and earlier views are untouched, and once entered, anything but success leaves no cache, unless deleting it failed silently |
| CbtSafety.CachesAndViewsAreTrue | src/immutavault/adapters/vmware_incremental.py:209-280 | for VMs with distinct cache directories, over every run of accepted, rejected and crashed backups and fallbacks, each cache is absent or its VM's disk at the stored checkpoint, and each view is the disk at its own |
| CbtSafety.EveryCheckpointIsProven | src/immutavault/incremental.py:165-195 | over every run, whatever the helper answers and whichever deletions fail, each view comes from a native export of its VM whose reply passed every gate, application consistency included, and each stored checkpoint was reported by such a reply |
| CbtSafety.TrueExactlyWhenCachesAreDistinct | src/immutavault/adapters/vmware_incremental.py:114-116 | with working deletions and a helper that does not write through links, that holds of all runs over a set of VMs if and only if no two of them share a cache directory |
| CbtSafety.ExportKeepsInv | src/immutavault/adapters/vmware_incremental.py:242-280 | one export keeps every cache and view true |
| CbtSafety.SharedCacheIsFalse | src/immutavault/adapters/vmware.py:97-109 | any two VMs whose names sanitize alike, VMs of one name in different folders included, leave after two accepted backups a cache that is not the disk its checkpoint names |
| CbtSafety.SafeComponentIsSafe | src/immutavault/util.py:6-9 | a cache directory's name is never empty, at most 160 characters long and made of letters, digits, dot, underscore and dash |
| CbtSafety.PlainIsKept | src/immutavault/util.py:6-9 | a name of such characters that neither begins nor ends with one of the last three is its own directory's |
| CbtSafety.UnsafeRunsCollapse | src/immutavault/util.py:6-9 | whatever run of other characters stands between two such parts becomes one underscore, so names that differ only there share a cache |
| CbtSafety.SilentDeletionFailureBreaksCache | src/immutavault/adapters/vmware_incremental.py:260 | from a true state, an ignored deletion failure after a rejected backup leaves changed blocks under the old checkpoint |
| CbtSafety.WritingThroughLinksChangesViews | src/immutavault/adapters/vmware_incremental.py:138-141 | from a true state with a view, one accepted backup by a helper that writes into linked files makes that view false |
| AuditChain.AuditTable.Audit | src/immutavault/state.py:587-597 | the new row names the last row's hash, and a well-formed chain stays well-formed |
| AuditChain.AuditTable.BackfillAuditHashes | src/immutavault/state.py:183-200 | hashed rows stay; every other row is linked to the row before it |
| AuditChain.AuditTable.VerifyAuditChain | src/immutavault/state.py:599-614 | a previous-hash error for exactly the rows that name another hash than the one carried from the row before, a hash error for exactly those whose hash is not that of their event and it, and acceptance exactly of well-formed chains |
| AuditChain.AcceptsExactlyWellFormed | src/immutavault/state.py:599-614 | no error is reported exactly for well-formed chains |
| AuditChain.WellFormedExactly | src/immutavault/state.py:587-597 | a chain is well-formed exactly if the first row names the genesis marker, each other one its predecessor's hash, and every hash is that of its event and the hash it names |
| AuditChain.TamperingIsLocated | src/immutavault/state.py:604-613 | rewriting only the content of row k of a good chain yields exactly one error, at row k |
| AuditChain.HeadFixesHistory | src/immutavault/state.py:174-181 | two well-formed chains with the same last hash are equal in length, order and every field |
| AuditChain.BackfillCompletesChain | src/immutavault/state.py:183-200 | backfilling an unhashed suffix after a well-formed prefix yields a well-formed chain with the same events |
| AuditChain.BackfillIsIdempotent | src/immutavault/state.py:191-200 | on any table whatever, a second backfill changes nothing |
| Manifest.BuildManifest | src/immutavault/integrity.py:21-40 | one record for each listed file, in order, with its path, size, time and, up to 64 MiB, digest; the digest is the document's, and only the manifest file is written |
| Manifest.TotalSizeAdds | src/immutavault/integrity.py:23-36 | the recorded total is the sum of the sizes |
| Manifest.VerifyManifest | src/immutavault/integrity.py:43-64 | exactly the problems there are: the digest's, and for some record a missing file, another size, or another hash at the right size; acceptance exactly without any |
| Manifest.AcceptsExactlyFaithfulTrees | src/immutavault/integrity.py:43-64 | a restored tree is accepted against the built digest exactly when its manifest is the original one and every recorded file is present with its size, and with its contents up to 64 MiB |
| Manifest.UnchangedTreeVerifies | src/immutavault/integrity.py:21-64 | an unchanged tree always verifies |
| Manifest.SortedListingIsUnique | src/immutavault/integrity.py:27 | a set of files has one sorted listing, whatever order the directory was read in |
| Manifest.RebuildGivesSameDigest | src/immutavault/integrity.py:24-40 | rebuilding in the same root, with the earlier manifest lying there, gives the same document and so the same digest |
| ProxmoxImport.MappedBridges | src/immutavault/v2v.py:447-468 | each NIC gets the bridge of the first mapping that applies, and the import is refused when any NIC has no valid one |
| ProxmoxImport.BridgeIsFirstChoice | src/immutavault/v2v.py:447-468 | a NIC gets a bridge exactly if that is the first non-empty one of the names for its network, its index, any network and the default, or `vmbr0` where there is none and none is required, and is a valid name |
| ProxmoxImport.ValidNameExactly | src/immutavault/v2v.py:25-26 | a valid name has 1 to 64 characters, all of them letters, digits, underscore, dot, colon or dash |
| ProxmoxImport.UnusedVolume | src/immutavault/v2v.py:484-493 | the unused entry with the highest number, and failure exactly when there is none |
| ProxmoxImport.PveHost.ImportAndAttach | src/immutavault/v2v.py:554-567 | disk i ends up on bus position i with its own image, and no other VM, volume or temporary file changes |
| ProxmoxImport.PveHost.Populate | src/immutavault/v2v.py:551-578 | success means every disk attached in order, the boot order listing them all, and the read-back configuration validated |
| ProxmoxImport.PveHost.CreateAndPopulate | src/immutavault/v2v.py:545-603 | on success the new VM is complete, on failure it is gone, together with every volume of its id once it had been created; either way no uploaded disk remains |
| ProxmoxImport.PveHost.RestoreProxmox | src/immutavault/v2v.py:495-603 | the whole import: attempted whenever the names are valid, every NIC is mapped and the id is free; existing VMs unchanged, volumes unchanged but for new ones of the new VM, or on rollback all those of its id gone; no temporary disk left, the new VM absent or complete on volumes of its own; a taken id is never overwritten or destroyed |
| ProxmoxImport.EveryVmIsOriginalOrComplete | src/immutavault/v2v.py:495-603 | over every run of imports with any step failing, each VM on the host was there at the start, unchanged, or is the complete result of one successful request |
| ProxmoxImport.ImportKeepsVm | src/immutavault/v2v.py:542-544 | an import leaves every VM that was there, and the volumes that belong to it, alone |
| ProxmoxImport.VolumeIsLostExactly | src/immutavault/v2v.py:596-599 | an import loses a volume if and only if it is rolled back and the volume carries the id it chose, which then was no VM's |
| RestoreLifecycle.RecoveryEngine.RequestRestore | src/immutavault/v2v_engine.py:46-87 | a request is created exactly when the point is known and the target enabled or the conversion plan allowed, pending approval when four eyes are required |
| RestoreLifecycle.RecoveryEngine.RequestForRecovery | src/immutavault/dr.py:224 | the recovery orchestrator's requests are startable at once |
| RestoreLifecycle.RecoveryEngine.ApproveRestore | src/immutavault/state.py:472-485 | approval succeeds exactly for a pending request and, with four eyes, another person, and changes that request's status alone |
| RestoreLifecycle.RecoveryEngine.StartRestore | src/immutavault/state.py:487-496 | starting succeeds exactly from approved or ready, and only then creates an execution |
| RestoreLifecycle.RecoveryEngine.FinishRestore | src/immutavault/state.py:498-503 | finishing overwrites whatever status the request had |
| RestoreLifecycle.RecoveryEngine.FetchVerifyImport | src/immutavault/engine.py:468-476 | the source is fetched, then verified, then imported or converted, up to the first failure |
| RestoreLifecycle.RecoveryEngine.ExecuteRestore | src/immutavault/v2v_engine.py:89-166 | an execution starts if and only if the request is approved or ready, its point known, the platforms alike or the conversion allowed, the copy there and the target ready; it ends successful exactly when fetch, presence, manifest and import all succeeded, and a dry run is refused exactly for a closed request or a failed check |
| RestoreLifecycle.RecoveryEngine.CleanUp | src/immutavault/portal_v11_final.py:144-154 | both cleanup steps are attempted, whatever the first one did |
| RestoreLifecycle.RecoveryEngine.ExecuteTest | src/immutavault/portal_v11_final.py:114-179 | a test returns normally, and its request ends successful, if and only if it could start and every step of its restore, boot and cleanup succeeded; a test that never starts fails its request |
| RestoreSafety.StartsAtMostOnce | src/immutavault/state.py:487-503 | over every interleaving of executions, tests and approvals, each request starts at most once although finishing is unguarded |
| RestoreSafety.StartNeedsSecondPerson | src/immutavault/state.py:472-496 | with four eyes, whatever starts was created by the recovery orchestrator or approved earlier by someone other than its requester |
| RestoreSafety.ImportNeedsVerification | src/immutavault/engine.py:469-476 | each import or conversion comes after the same execution passed manifest verification, however executions interleave |
| RestoreSafety.StageTells | src/immutavault/v2v_engine.py:133-166 | at every moment an execution's stage tells which of its steps have been done and which have failed |
| RestoreSafety.PowerOnNeedsIsolation | src/immutavault/portal_v11_final.py:119-123 | a test VM is powered on only after the isolation of the same test returned, and never after its power-off |
| RestoreSafety.CleanupIsAttempted | src/immutavault/portal_v11_final.py:144-154 | when a test returns, power-off has been attempted exactly if its import returned, and destruction exactly if also auto-cleanup is on |
| RestoreSafety.ReturnsExactlyWhenAllSucceeded | src/immutavault/portal_v11_final.py:156-179 | a test returns normally exactly when every one of its stages succeeded |
| RestoreSafety.FailureIsRecorded | src/immutavault/portal_v11_final.py:156-171 | a failed execution or test leaves its request marked failed at every later moment |
| RestoreSafety.TestVerdict | src/immutavault/portal_v11_final.py:156-179 | after a failure the request reads failed; after a normal return it reads successful exactly if no other test of it was refused since the inner restore finished |
| RestoreSafety.RefusedTestStillFailsRequest | src/immutavault/portal_v11_final.py:119-171 | refusing a test starts nothing, marks the request failed, and it never starts afterwards |
| RestoreSafety.RefusedTestFailsAPassingOne | src/immutavault/portal_v11_final.py:124-162 | a run in which a test passes and returns normally while its request ends up failed |
| Der.KeyRoundTrip | src/immutavault/enterprise_auth.py:241-253 | a strict decoder recovers exactly the unsigned modulus and exponent |
| Der.KeyIsCanonical | src/immutavault/enterprise_auth.py:227-253 | any bytes the strict decoder reads as a key are the bytes the encoder writes for it, so every length and integer is minimal |
| Der.EncodingIsInjective | src/immutavault/enterprise_auth.py:241-253 | two keys encode alike exactly when they are the same pair of numbers |
| Der.LengthRoundTrip | src/immutavault/enterprise_auth.py:227-232 | every length of at most 126 octets decodes to itself |
| Der.LengthDecodesExactlyWhenItFits | src/immutavault/enterprise_auth.py:227-232 | a length field decodes to its value if and only if the value needs at most 126 octets; at 127 its first octet is the reserved one |
| Der.ByteCount | src/immutavault/enterprise_auth.py:231 | a length needs at most k octets exactly when it is below 256 to the k |
| Der.IntegerRoundTrip | src/immutavault/enterprise_auth.py:234-239 | an integer's contents octets are minimal and decode to its unsigned value |
| Der.AlgorithmIsRsaEncryption | src/immutavault/enterprise_auth.py:241-253 | the constant prefix of the encoder is one sequence of the object identifier 1.2.840.113549.1.1.1 and a NULL |
| Der.LengthIsCanonical | src/immutavault/enterprise_auth.py:227-232 | a minimal length field is the one the encoder writes |

## Left out

- FailoverSafety.NoSplitBrainEver: calls and lifts one at a time, which nothing in the code arranges; NoSplitBrainWhileQuiet has the condition for overlapping ones.
- FailoverSafety.LedgerAndCounterEver: calls one at a time; AlternatesExactly has the condition for overlapping ones.
- FailoverSafety.PromoteKeepsJustified: nothing else inside the call; QuietRunIsJustified has the condition for overlapping ones.
- FailoverSafety.FailbackKeepsJustified: nothing else inside the call; QuietRunIsJustified has the condition for overlapping ones.
- Watches, which one timer starts, do not overlap one another, and the spacing of their evaluations is proved of calls one at a time. The check that admits a promotion or failback is one step with the reading of what it will work on, and rows of overlapping calls get increasing start times. Backups inside a failback take no lock either, and they are interleaved with retention here.
- The lock file is taken by whole-inventory backups, retention and repository checks only; of these, the model uses that two retentions exclude each other.
- Each method of the state database is one atomic step, though some read and write in two statements.
- The manual `dr-network` commands of the command line, which bypass the protocol.
- `plan` and `preflight` of the orchestrator: each is one answer, ready or not; reporting and notification are absent.
- A manual confirmation that the primary is fenced, or isolated, is taken at its word, and so is the exit status of the fence commands.
- Database writes succeed; clock readings strictly increase; boot order and distinct workload names are given by the configuration loader, as are its range checks.
- `execute_restore` inside a promotion or failback is one step there; its own life cycle is in RestoreLifecycle.
- Orchestrator.DrOrchestrator.Promote: a planning call returns the plan; a plan that itself raises is the failed readiness step of an executing call only.
- Gateway.GatewayHost.Activate: a route counts as up from the attempt on, so a half-finished activation is not told apart from a finished one in the log.
- Restic's own retention policy, copy and prune are one answer each; how many snapshots a failing forget removed is arbitrary. Sorting and de-duplicating the removal list is a set; snapshot ids are fresh.
- R2 dates are whole instants, so sub-microsecond rounding by the provider is absent; Age rules protect nothing, as in the code. Administrators' own edits of the rules during a run are absent.
- ProviderLocks.Replica.ApplyObjectLock: object lock is on and the paginated listing is one sequence that may end early with an error.
- LockRuns.ProtectionNeverMovesEarlier: tidy starting rules are required, and writes that replace the list their call read; ProtectionAfterWrite has the exact condition for one write, StepLosesExactly the one for one promise.
- ReplicaCoverage.CoveredExactlyWithoutGaps: a lock call is one step among the others, and retentions can be read; LockRuns says what overlapping calls lose.
- The changed-block helper is foreign: it is held to the contract in CbtCache, and the controller process itself does not die in the middle of an export. Exports run one at a time, on one platform's cache root.
- Deleting a snapshot view with the staging tree, and writing transport and consistency reports, which replace files whole.
- CbtSafety.SharedCacheIsFalse: white space is blank, tab and line ends, not all of Unicode.
- Hashes and the canonical JSON text are assumed injective; audit row ids are positions and are not hashed.
- A manifest that is valid JSON of another shape counts as unreadable.
- ProxmoxImport.PveHost.RestoreProxmox: memory, cores, guest type and the parsing of `qm config` text are absent; creation is all-or-nothing, deleting an unused key keeps its volume, and the cleanup commands work. EFI disks appear in the configuration, not among the volumes.
- V2V planning, conversion, certification and the external provider are one answer; file-level recovery, anomaly ratios, health scores and metrics are absent.
- The second recovery-test engine in managed_engine.py, which repeats the one modelled here.
- Staging directories, disk-capacity checks, audit entries of the restore path and time-outs of its commands appear only as a step that may fail.
- PEM line wrapping, base64, token validation and the identity-provider flow around the DER bytes.
- Portals, HTTP and WebSocket handlers, setup console, command-line parsers and configuration files.

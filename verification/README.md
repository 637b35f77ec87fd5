# Verified model of kubernetes-nmstate's slot protocol

kubernetes-nmstate rolls a NodeNetworkConfigurationPolicy out to many nodes. One handler per
node reconciles the same policy, and a counter in the policy's status, one entry per policy
generation, lets at most `maxUnavailable` of them reconfigure their network at a time. A handler
claims a slot in the counter, marks its own enactment Progressing, applies, marks it Finalizing,
gives the slot back and records success. Slots lost in crashes are taken back by an audit that any
handler may run and by a recovery pass at handler startup.

This project models that protocol as a transition system and proves what it guarantees in every
run of any number of nodes; it models and proves the counting, condition and counter code the
protocol rests on, and the metrics and state filtering beside it.

| module | what it holds |
|---|---|
| `Phases` | the phase of an enactment |
| `SlotModel` | the protocol: state, steps, runs |
| `SlotInvariant` | its inductive invariant, preserved by every step |
| `SlotSafety` | what holds over whole runs |
| `SlotLimits` | runs built to show where a guarantee ends |
| `SlotReconcile` | what a whole reconcile and a whole recovery come to |
| `SlotReapply` | exactly when a committed configuration is applied again |
| `SlotPromises` | exactly when maxUnavailable is respected |
| `SlotLink` | the protocol's counts, phases and times are those of the code below |
| `EnactmentStore`, `StoreLink` | the stored enactments; every run of the protocol is a history of writes to them |
| `Conditions`, `EnactmentConditions` | condition lists, setters, predicates |
| `Counter`, `PolicyVerdict` | counting enactments, the policy's verdict |
| `SlotCounter`, `Recovery` | the loops that change the counter, startup recovery |
| `Timing`, `MaxUnavailable` | the staleness threshold, resolving maxUnavailable |
| `Metrics`, `StateFilter` | gauges kept by difference, filtering network state |

## The protocol's steps

A node's program counter stops wherever `Reconcile`
(controllers/handler/nodenetworkconfigurationpolicy_controller.go) talks to the API server or
returns. `Begin` is lines 181-187, `FillIn` 189-202 with 600-659, `NotifyGenerateFailure` 618,
`Dispatch` 224-261, `ReadPolicy`, `Conflict`, `RereadSpoilt`, `StopTrying`, `LimitReached`, `NothingToRelease` and
`CommitRmw` the three read-modify-write loops 753-787 and 840-865, `Audit*` and `CommitAudit`
pkg/node/audit.go:102-149, `NotifyPending`, `ShouldAbort` and `NotifyAborted` 272-298,
`NotifyProgressing` 305-325, `ApplyDone` 330, `RecordRetry` 335-339, `NotifyFailed` 341-352,
`NotifyRetrying` 353-360, `NotifyFinalizing` 373-379, `NotifySuccess` 391-401 and 423-427,
`Update*` and `CommitUpdate` the status update of pkg/policyconditions/conditions.go:205-256,
deferred at line 166 and also run at line 327. `Crash`, `Restart` and `Recover` are
cmd/handler/main.go:365-430. The retry budgets of the loops are left open: a loop may give up
after any number of attempts.

The model itself takes for granted:

- A policy write succeeds exactly if the object still has the version that was read
  (`SlotCounter.PolicyStore.Update`), and a write that reports failure has changed nothing. Only a
  node's own handler writes its enactment.
- One generation, a constant maxUnavailable of at least 1, one reconcile at a time per node, no
  reconcile in flight when the generation starts, no enactment deleted. Clocks agree.
- The staleness threshold is at least two ticks of the clock, as every threshold of
  pkg/node/audit.go is: with one tick no marker would outlive the moment it was written.
- A cached object that a loop has spoilt is replaced before the node's next loop.

Six more promises the code relies on but does not enforce are switches of the configuration
(`SlotModel.Env`), which the guards of the steps consult:

- `marksInTime`: a claim is marked Progressing or given back inside the grace window of its stamp.
- `appliesInTime`: a reconcile that relies on a heartbeat (applying, recording a retry, releasing
  after Finalizing) moves on before the heartbeat goes stale.
- `freshSkips`: a claim skipped because the enactment is already Progressing is skipped while the
  marker is fresh.
- `judgesInTime`: an audit judges the heartbeats it listed within `lag` of listing them, for any
  `lag` below the threshold, and the other promises leave that much to spare.
- `readyCovers`: no more enactments are listed than nodes are ready when the policy's verdict is
  computed.
- `privateCopies`: changing the counter map of a policy read from the cache leaves the cached
  object alone.

The safety results assume all six, the last one only if maxUnavailable is above 1.
`SlotPromises.WithinMaxExactly` shows that, with more nodes than slots, none of them can be dropped.

Where a handler reads the policy, the model lets it see any older object as well as the stored one.

## Findings

- A node that was Retrying when the policy changed skips its claim in the new generation, because
  the claim guard reads the conditions captured before the generation reset (lines 186, 189 and
  261). `SlotLimits.StaleRetryingBreaks` shows that one such node is enough to exceed
  maxUnavailable.
- A node left Progressing whose requeue comes later than the staleness threshold skips its claim
  (line 256) although the audit has given its slot away.
- An audit lists the enactments once and reads the clock when it judges each of them
  (pkg/node/audit.go:170-190). If that is late, it frees the slot of a node that has renewed its
  marker in between (`SlotPromises.JudgeNeeded`).
- The deep copy of a policy's status shares the counter map (api/shared/zz_generated.deepcopy.go:111-120),
  so the loops of lines 753-787 and 840-865 change the informer's own object when they read through
  the cache (lines 762 and 828). A write that is lost has already changed it: with two slots or
  more taken, a release that loses one write takes two slots, one of them another node's; with only
  its own taken, it reports a release that was never written (`SlotCounter.LostReleaseFreesAnother`).
  A loop moves the counter by one exactly if its write is not preceded by a lost one on the same
  cached object (`SlotCounter.ReleaseTakesOneExactly`, `SlotCounter.ClaimAddsOneExactly`).
- In all, maxUnavailable can be exceeded by a node left Retrying, a claim skipped on a stale
  marker, an apply that outlives its heartbeat, a claim marked after its grace window, an audit
  that judges late, a verdict computed with too few ready nodes and, with more than one slot, a
  release on a spoilt cached object. Within this model it is respected in all runs exactly if none
  of the seven can happen, or if there are no more nodes than slots (`SlotPromises.WithinMaxExactly`).
- A failure to generate the desired state (line 618) is recorded over the Finalizing and Available
  markers, so that a configuration that was committed is applied again once a slot is free and
  the node has retries left (`SlotReapply.ReappliesExactly`). Without such a failure it never is
  (`SlotReapply.NeverReappliedExactly`).
- The success verdict (pkg/policyconditions/conditions.go:288-319) may empty the slot map while a
  node is applying: a finished node that is no longer ready makes up for it in the count.
  `PolicyVerdict.WipeSafeExactly` gives the exact condition.
- A node that used up its retries keeps its slot only if its terminal failure gets recorded. If the
  write at line 342 fails, its Progressing marker goes stale, the audit frees its slot, and any
  number of nodes can use up their retries (`SlotLimits.SpentBoundExactly`).
- A bare number string beyond 32 bits is admitted but cut down to 32 bits
  (`MaxUnavailable.BareNumberMeansItself`).

## Model

| member | source | states |
|---|---|---|
| `SlotSafety.AtMostMaxApply` | controllers/handler/nodenetworkconfigurationpolicy_controller.go:256-401 | with the promises kept and no node left Retrying by an earlier generation, at most maxUnavailable nodes are applying in every state of every run |
| `SlotPromises.WithinMaxExactly` | controllers/handler/nodenetworkconfigurationpolicy_controller.go:181-401 | that bound holds in all runs from a start state if and only if the first five promises are kept, copies are private or maxUnavailable is 1, and no node was left Retrying by an earlier generation, or there are no more nodes than slots |
| `SlotPromises.TimeNeeded` | pkg/node/audit.go:102-198 | if any one of the promises to mark, apply and skip in time may be broken, some run has the audit free the slots of all maxUnavailable nodes, one more node claims and all of them apply |
| `SlotPromises.JudgeNeeded` | pkg/node/audit.go:162-198 | if an audit may judge its listing late, some run has it free the slots of maxUnavailable nodes that keep their markers fresh, and one more node applies beside them |
| `SlotPromises.CopiesNeeded` | controllers/handler/nodenetworkconfigurationpolicy_controller.go:826-865 | if cached copies are shared and maxUnavailable is above 1, one lost write in a release lets one node too many apply in some run |
| `SlotPromises.ReadyNeeded` | pkg/policyconditions/conditions.go:277-320 | if more enactments may be listed than nodes are ready, some run empties the slot map while maxUnavailable nodes apply and lets one more apply |
| `SlotLimits.StaleRetryingBreaks` | controllers/handler/nodenetworkconfigurationpolicy_controller.go:256-261 | with one such node and more nodes than slots, some run has too many nodes applying |
| `SlotSafety.AuditNeverUndercounts` | pkg/node/audit.go:102-149 | whatever others did between the audit's read, its listing and its write, a write that still matches the version leaves a slot for every owner and for every applying node |
| `SlotSafety.NoStepFreesAnother` | controllers/handler/nodenetworkconfigurationpolicy_controller.go:316-323 | after every step the counter still covers all owners; a node gives back only a slot it owns and never more often than it claimed; the other nodes' slots stay as they are |
| `SlotSafety.AtMostMaxExhausted` | pkg/node/audit.go:151-198 | at most maxUnavailable nodes record a terminal failure in a generation |
| `SlotSafety.FailuresStopRollout` | controllers/handler/nodenetworkconfigurationpolicy_controller.go:224-289 | once that many have, in every continuation nobody applies, no claim succeeds, the failures stay recorded and a refused node that can read the failure count aborts |
| `SlotLimits.AtMostMaxSpent` | controllers/handler/nodenetworkconfigurationpolicy_controller.go:335-352 | as long as terminal failures get recorded, at most maxUnavailable nodes use up their retries |
| `SlotLimits.SpentBoundExactly` | controllers/handler/nodenetworkconfigurationpolicy_controller.go:335-352 | without that, the bound holds in all runs if and only if there are no more nodes than slots |
| `SlotSafety.CommittedUntilGenerateFailure` | controllers/handler/nodenetworkconfigurationpolicy_controller.go:232-254 | a step leaves the Finalizing and Available phases if and only if it records a failure to generate the desired state |
| `SlotSafety.FinalizedNeverReapplied` | controllers/handler/nodenetworkconfigurationpolicy_controller.go:364-435 | after the Finalizing marker is persisted the node never applies again in the generation, through failed releases, lost writes, crashes and restarts, unless such a failure is recorded |
| `SlotReconcile.ReconcileOutcome` | controllers/handler/nodenetworkconfigurationpolicy_controller.go:204-435 | whatever other nodes do meanwhile, a reconcile whose handler lives and whose writes get through comes to this: out of retries, nothing; committed or in place, Available and audited; marker not written, the slot given back; applied, Available and the slot given back; apply failed, one retry more, the slot kept, Failed exactly at the limit and else Retrying; refused after at most two looks at the cap, the abort check made, Aborted exactly if it found maxUnavailable failures and else Pending |
| `SlotReconcile.ReconcileReturns` | controllers/handler/nodenetworkconfigurationpolicy_controller.go:204-435 | from every reachable state a reconcile that has its desired state, and a fresh marker if it relies on one, can return by such steps of its own |
| `SlotReconcile.CommittedIsFinished` | controllers/handler/nodenetworkconfigurationpolicy_controller.go:232-254 | a Finalizing or Available node with retries left ends every such reconcile Available, and the policy was read for an audit after it became so |
| `SlotReconcile.RecoveryAudits` | cmd/handler/main.go:383-426 | a handler that restarts with its enactment Progressing settles it and reads the policy for an audit before it reconciles again |
| `SlotReapply.ReappliesExactly` | controllers/handler/nodenetworkconfigurationpolicy_controller.go:224-261 | with a slot free, a node whose Finalizing marker was persisted applies again in some continuation if and only if it has retries left, and every such continuation records a failure to generate the desired state |
| `SlotReapply.NeverReappliedExactly` | controllers/handler/nodenetworkconfigurationpolicy_controller.go:606-620 | over all runs, no finalized node applies again if and only if no such failure may be recorded over its marker or there are no nodes |
| `SlotInvariant.StepKeeps` | controllers/handler/nodenetworkconfigurationpolicy_controller.go:142-405 | every step keeps the invariant: owners within the counter, the counter within the cap, every owner unmarked inside its grace window or a holder no audit can miss |
| `SlotInvariant.GraceElapsed` | pkg/node/audit.go:117-120 | past the grace window every slot owner carries a marker |
| `SlotInvariant.OwnersCounted` | pkg/node/audit.go:173-191 | every owner listed is still counted when the listing is judged within the lag |
| `SlotInvariant.WipeMeansNoOwner` | pkg/policyconditions/conditions.go:311-320 | a status update that empties the slot map does so only when nobody owns a slot |
| `SlotLink.SlotCountsAgree` | pkg/node/audit.go:162-198 | the protocol's holders and terminally failed nodes are those the counting loops find on the listed conditions |
| `SlotLink.VerdictsAgree` | pkg/policyconditions/conditions.go:277-341 | the protocol empties the slot map exactly when the policy's verdict is success |
| `SlotLink.ApplierIsTimely` | pkg/node/audit.go:38-63 | whatever course an apply takes, its heartbeat is fresh until it ends if its untimed rest and the audit's lag fit in the spare time |
| `EnactmentStore.WritesKeepSane` | controllers/handler/nodenetworkconfigurationpolicy_controller.go:535-659 | any history of creations, resets, setter calls, retry counts, interruptions and deletions leaves each enactment filed under its node with conditions the handlers can leave |
| `EnactmentStore.ListsAreOnePerNode` | controllers/handler/nodenetworkconfigurationpolicy_controller.go:535-659 | whatever was written, a list returns one enactment per node, with conditions the handlers can leave |
| `EnactmentStore.WriteTouchesOne` | controllers/handler/nodenetworkconfigurationpolicy_controller.go:535-659 | a write is about one node; creating what is there and changing what is not do nothing |
| `StoreLink.StepIsItsWrites` | controllers/handler/nodenetworkconfigurationpolicy_controller.go:181-435 | a step of the protocol changes its view of an enactment exactly as the writes it stands for change the stored one, and touches no other |
| `StoreLink.RunIsItsWrites` | controllers/handler/nodenetworkconfigurationpolicy_controller.go:142-405 | in every state of every run the protocol shows stored enactments that some history of writes leaves |
| `StoreLink.CountsAreTheProtocols` | pkg/node/audit.go:162-198 | any listing of the stored enactments gives the holders, failures and success verdict the protocol's steps compute |
| `Conditions.ConditionList.FindIndex` | api/shared/condition_types.go:79-86 | finds the first entry of a type |
| `Conditions.ConditionList.Set` | api/shared/condition_types.go:55-77 | appends or updates in place; the transition time moves only with the status |
| `Conditions.FindAfterSet` | api/shared/condition_types.go:55-86 | a type reads back what was set, every other type is untouched |
| `Conditions.HistoryRecorded` | api/shared/condition_types.go:42-86 | for every history of Set calls: each type once, in first-set order, with the last call's values and the time of the first call of its latest run of one status |
| `EnactmentConditions.RunSetter` | pkg/enactmentstatus/conditions/conditions.go:135-400 | a setter has the effect of its five Set calls in order |
| `EnactmentConditions.SetsEachTypeOnce` | pkg/enactmentstatus/conditions/conditions.go:135-400 | every setter sets each of the five types once, to the status, reason and message of its phase |
| `EnactmentConditions.OnlyLastSetterCounts` | pkg/enactmentstatus/conditions/conditions.go:135-400 | after any setters the statuses are those of the last; at most one of Available, Progressing, Pending, Aborted is True; retrying exactly if the last setter was the retry one |
| `EnactmentConditions.SetterGivesPhase` | pkg/enactmentstatus/conditions/conditions.go:135-400 | a setter leaves any list in its own phase with its own heartbeat |
| `EnactmentConditions.PredicatesSeePhase` | pkg/enactmentstatus/status.go:67-98 | on every list setters produce the predicates recognise exactly the phase, and live and terminally failed holders are disjoint |
| `Counter.Count` | pkg/enactmentstatus/conditions/counter.go:36-56 | tallies every type's True, False and Unknown over the enactments, other generations as Unknown |
| `Counter.CountIsSize` | pkg/enactmentstatus/conditions/counter.go:36-56 | a tally is the number of listed enactments that say so; those of other generations or without the condition say Unknown |
| `Counter.TalliesPartition` | pkg/enactmentstatus/conditions/counter.go:36-56 | the three tallies of a type add up to the number of enactments |
| `Counter.MatchOne` | pkg/enactmentstatus/conditions/counter.go:149-159 | in any iteration order, an answer says whether all conditions match, and an error means one is missing |
| `Counter.CountConditionsLogicalAnd` | pkg/enactmentstatus/conditions/counter.go:134-165 | a count returned without error is the number of matching enactments of the generation; it fails only if an enactment lacks a condition |
| `Counter.CountSlotHolders` | pkg/node/audit.go:162-185 | counts the enactments of the generation that are live or terminally failed |
| `Counter.AbortFilterAgreesWithAudit` | controllers/handler/nodenetworkconfigurationpolicy_controller.go:906-917 | the abort filter counts exactly the terminally failed enactments, never more than the audit's holders |
| `PolicyVerdict.PolicyObject.SetPolicyStatus` | pkg/policyconditions/conditions.go:258-321 | exactly the verdict's condition becomes True, and only the success verdict empties the slot map |
| `PolicyVerdict.PolicyObject.UpdateStatus` | pkg/policyconditions/conditions.go:205-321 | in terms of the listed enactments: Ignored exactly if no node matches, else Degraded exactly if one of the generation fails or aborted, else Progressing exactly if fewer than the ready nodes are Available or one is pending, else Available with the slot map emptied |
| `PolicyVerdict.VerdictLeaves` | pkg/policyconditions/conditions.go:53-164 | whatever was set before, the verdict's own condition is True with the message, the others are False or, in progress, Degraded and Available Unknown, each with its reason |
| `PolicyVerdict.ConfiguredMeansNoHolder` | pkg/policyconditions/conditions.go:277-341 | with no more enactments than ready nodes, success means no enactment holds a slot |
| `PolicyVerdict.WipeSafeExactly` | pkg/policyconditions/conditions.go:277-341 | over all lists of a given length that handlers can leave, one enactment per node, success never leaves a holder if and only if that length does not exceed the ready nodes |
| `SlotCounter.TryDecrement` | controllers/handler/nodenetworkconfigurationpolicy_controller.go:840-865 | under failed reads, private, shared and late copies, conflicts and lost writes, leaves the store, the cache and the result that `ReleaseRun` gives |
| `SlotCounter.PrivateRelease` | controllers/handler/nodenetworkconfigurationpolicy_controller.go:840-865 | with private reads only: minus one exactly once on top of what others wrote, or nothing, and nothing only if the counter it read was empty or all attempts are used up |
| `SlotCounter.ReleaseTakes` | controllers/handler/nodenetworkconfigurationpolicy_controller.go:840-865 | with cached reads: minus one, and one more for every write lost before on the cached object that is written; or nothing |
| `SlotCounter.ReleaseTakesOneExactly` | controllers/handler/nodenetworkconfigurationpolicy_controller.go:840-865 | a release takes exactly one if and only if its last read is private or no earlier attempt spoilt the cached object it reads |
| `SlotCounter.LostReleaseFreesAnother` | controllers/handler/nodenetworkconfigurationpolicy_controller.go:852-862 | one lost write on a cached object: from a count of two or more two slots are taken, from one slot none although the release is reported |
| `SlotCounter.QuietRelease` | controllers/handler/nodenetworkconfigurationpolicy_controller.go:840-865 | undisturbed, takes one if and only if the counter is positive |
| `SlotCounter.Increment` | controllers/handler/nodenetworkconfigurationpolicy_controller.go:753-787 | under the same disturbances leaves the store, the cache and the error that `ClaimRun` gives |
| `SlotCounter.PrivateClaim` | controllers/handler/nodenetworkconfigurationpolicy_controller.go:753-787 | with private reads only: plus one exactly once, below the cap, on top of what others wrote, or nothing after all attempts, with the error of the last one: the cap, a conflict or anything else |
| `SlotCounter.ClaimAdds` | controllers/handler/nodenetworkconfigurationpolicy_controller.go:753-787 | with cached reads: plus one, and one more for every write lost before on the cached object that is written, within the cap; or nothing |
| `SlotCounter.ClaimAddsOneExactly` | controllers/handler/nodenetworkconfigurationpolicy_controller.go:753-787 | a claim adds exactly one if and only if there were no counts yet, its last read is private or no earlier attempt spoilt the cached object it reads |
| `SlotCounter.LostClaimTakesTwo` | controllers/handler/nodenetworkconfigurationpolicy_controller.go:774-785 | one lost write on a cached object: two slots are taken, or the claim is refused with one slot free |
| `SlotCounter.AuditUnavailableSlots` | pkg/node/audit.go:96-149 | repairs once to the holders listed in that attempt, or changes nothing; retries exactly after conflicts; ends without repair exactly if deferred, empty or all slots are held; fails exactly on a read, list or write error or a conflict in the last attempt |
| `SlotCounter.GraceIsThirtySeconds` | pkg/node/audit.go:117-120 | an audit is deferred exactly within 30 seconds of the last counter update |
| `SlotCounter.ClaimUnavailableSlot` | controllers/handler/nodenetworkconfigurationpolicy_controller.go:726-751 | undisturbed, a claim succeeds if and only if the count is below the cap, or the grace window is over and the holders are; the count becomes old count + 1 or holders + 1 |
| `SlotCounter.AuditsSettle` | pkg/node/audit.go:96-149 | any number of audits as time goes on never raises the count and never sets it below the holders left; one that is not deferred leaves the smaller of the first count and those holders |
| `SlotCounter.AuditsAtOnce` | pkg/node/audit.go:96-149 | audits at one moment leave what the first one left |
| `Recovery.RecoveredIsSettled` | cmd/handler/main.go:383-426 | after recovery a committed apply is Available, an interrupted one Pending with its retries reset, nothing labelled is Progressing, the rest is untouched |
| `Recovery.RecoveredExactly` | cmd/handler/main.go:383-391 | recovery touches exactly this node's enactments that name a policy and are Progressing |
| `Recovery.Cluster.ReclaimInterruptedSlots` | cmd/handler/main.go:383-430 | every own enactment whose write gets through is recovered and its policy audited in the same turn, which leaves `PolicyAfter`; no counter is raised or lowered below the slots still held |
| `Recovery.RecoveryFrees` | cmd/handler/main.go:409-426 | a policy audited in a turn when it is not deferred ends with no more slots taken than were held at that moment |
| `Recovery.SoleRecoveryFreesExactly` | cmd/handler/main.go:409-426 | if that turn is the policy's only one, it ends at the smaller of the old count and the slots held |
| `Recovery.NotAuditedUnchanged` | cmd/handler/main.go:383-426 | a policy none of whose enactments is recovered with an audit stays as it is |
| `Recovery.HoldersShrink` | cmd/handler/main.go:396-425 | recovering enactments and passing time only make holders fewer |
| `Recovery.HeldIsSize` | pkg/node/audit.go:162-185 | the holders counted for a policy are those among its own enactments |
| `Timing.StaleEnactmentThreshold` | pkg/node/audit.go:75-94 | every override yields a threshold above the worst-case apply cycle, and an admissible override is honoured |
| `Timing.DefaultThreshold` | pkg/node/audit.go:38-94 | the threshold is the override above 2280 s and 2580 s otherwise |
| `Timing.Select` | pkg/probe/probes.go:269-308 | keeps the working external probes, then the internal ones, within the two timeouts |
| `Timing.SelectedExactly` | pkg/probe/probes.go:269-308 | each external probe is selected exactly if it works, and the two internal ones come last |
| `Timing.RunProbes` | pkg/probe/probes.go:310-329 | succeeds if and only if the state can be shown and every probe succeeds, within the sum of the timeouts |
| `Timing.ApplyDesiredState` | pkg/client/client.go:137-183 | commits exactly if set, probes and commit succeed, rolls back exactly if the set succeeded, the probes failed or could not be run and the rollback works; takes the time `Elapsed` |
| `Timing.ElapsedIsSum` | pkg/client/client.go:137-183 | an apply takes the time of the phases it went through, its probes that of the waits up to the first failure |
| `Timing.ApplyEndsInTime` | pkg/node/audit.go:38-94 | every course of an apply ends its timed phases more than 600 s before any admissible threshold |
| `MaxUnavailable.AdmittedResolves` | pkg/node/nodes.go:126-164 | with nodes to match, admitted integers and percentages resolve to at least one node; a bare number does exactly if it survives the cut to 32 bits |
| `MaxUnavailable.PercentResolves` | pkg/node/nodes.go:150-163 | p% of n nodes is the ceiling of p*n/100 and lies in 1..n |
| `MaxUnavailable.PercentMonotone` | pkg/node/nodes.go:150-163 | monotone in the percentage and in the number of nodes |
| `MaxUnavailable.BareNumberMeansItself` | pkg/node/nodes.go:143-149 | the string "k" means k nodes if and only if k fits 32 bits; 2147483648 is refused |
| `MaxUnavailable.AtoiReadsBack` | pkg/node/nodes.go:144 | a number written out reads back, with either sign |
| `MaxUnavailable.NoNumberMeansHalf` | pkg/node/nodes.go:129-153 | a string that is no number yields half the nodes rounded up, and an error |
| `MaxUnavailable.BelowOneIsInvalid` | pkg/node/nodes.go:154-163 | an integer below one is handed on, with an error exactly if there are nodes to match |
| `MaxUnavailable.NoShareIsInvalid` | pkg/node/nodes.go:150-163 | a percentage of zero or less resolves to no node and is an error |
| `Metrics.NodeGauge.Update` | controllers/metrics/nodenetworkstate_controller.go:133-191 | sets the current series, deletes the vanished ones and remembers the keys |
| `Metrics.NodeGauge.Delete` | controllers/metrics/nodenetworkstate_controller.go:193-217 | deletes every remembered series of the node |
| `Metrics.GaugeIsRecount` | controllers/metrics/nodenetworkstate_controller.go:133-217 | after any run of updates and deletions the gauge equals a recount from each live node's latest report |
| `Metrics.StatusGauge.ReportStatistics` | controllers/metrics/nodenetworkconfigurationenactment_status_controller.go:84-130 | after each report exactly the current nodes have series, each with its number of active enactments |
| `Metrics.SeriesAddUp` | controllers/metrics/nodenetworkconfigurationenactment_status_controller.go:84-130 | the status series add up to the number of node-labelled enactments with an active condition |
| `Metrics.ActiveTypeIsListed` | controllers/metrics/utils.go:29-36 | an active type belongs to a condition that is True |
| `Metrics.ActiveTypeIsFirst` | controllers/metrics/utils.go:29-36 | the active type is that of the first True condition, and there is none exactly if no condition is True |
| `Metrics.FeatureGauge.ReportStatistics` | controllers/metrics/nodenetworkconfigurationenactment_controller.go:102-131 | after each report a feature has a series exactly if some enactment lists it |
| `Metrics.FeaturesAreListed` | controllers/metrics/nodenetworkconfigurationenactment_controller.go:108-114 | the collected features are those of all enactments |
| `StateFilter.FilterOutInterfaces` | pkg/state/filter.go:203-213 | the loop computes the filtered interfaces |
| `StateFilter.InterfacesInOrder` | pkg/state/filter.go:203-221 | an ordered subsequence of exactly the interfaces that are not unmanaged veths |
| `StateFilter.OnlyIgnoredVethsVanish` | pkg/state/filter.go:203-221 | an interface is dropped exactly if its type is veth and its state ignore |
| `StateFilter.FilterOutRoutes` | pkg/state/filter.go:113-131 | the loop computes the filtered routes |
| `StateFilter.RoutesInOrder` | pkg/state/filter.go:113-131 | an ordered subsequence, unchanged, of exactly the routes whose next hop is kept |
| `StateFilter.NextHopKeptExactly` | pkg/state/filter.go:113-131 | a next hop is kept if and only if some interface of its name is |
| `StateFilter.StableKeepsOthers` | pkg/state/filter.go:133-201 | only bridge, ipv4 and ipv6 attributes are touched |
| `StateFilter.StableKeepsContents` | pkg/state/filter.go:133-201 | an address keeps all but its two lifetimes, an address family its addresses in order and everything else, a linux bridge all but the two timers of its options, any other interface its whole bridge |
| `StateFilter.FilterOut` | pkg/state/filter.go:223-241 | the whole filter, routes against the interfaces already filtered |
| `StateFilter.PublishedKeeps` | pkg/state/filter.go:223-241 | the published interfaces are those at the kept positions with what they keep, both route lists are taken over them unchanged, the rest of the state is as it was |
| `StateFilter.FilterIdempotent` | pkg/state/filter.go:223-241 | filtering twice is filtering once |
| `StateFilter.DynamicAttributesDoNotShow` | pkg/state/filter.go:138-201 | no bridge timer and no address lifetime shows in the published state |
| `StateFilter.CountRoutes` | pkg/state/filter.go:65-102 | counts the running routes under each key, keys with no route absent |
| `StateFilter.RouteCountIsSize` | pkg/state/filter.go:65-111 | a key's count is the number of running routes with or without a colon that are or are not configured |
| `StateFilter.RouteCountsAddUp` | pkg/state/filter.go:65-111 | the counts add up to the number of running routes |

## Left out

- Reconcile is modelled as a transition system over values, not as one imperative method; the loops on the counter are modelled imperatively in `SlotCounter`.
- Cached objects: a spoilt one that outlives the loop that spoilt it, and a read that decodes into the object of the previous attempt and keeps map entries the server no longer has.
- Recovery.Cluster.ReclaimInterruptedSlots: each audit is one undisturbed pass, because conflicts and other writers are the subject of `SlotCounter.AuditUnavailableSlots` and of the protocol's recovery steps.
- Spec changes during a run, a maxUnavailable that changes with the number of enactments, deletion of policies and enactments: one generation is modelled at a time.
- An invalid maxUnavailable that fails the enactment (lines 264-270) and errors when counting the enactments it is scaled to.
- The read-modify-write loop on enactments (pkg/enactmentstatus/status.go:41-65): an enactment has one writer, so its writes succeed or fail as a whole.
- StateFilter: attributes are removed on values, not in place through shared maps, and YAML parsing and printing are not modelled.
- Timing: a probe is taken to end within its timeout; the DNS probe gives every name server its own.
- Timing: `nmstatectl` and the probes themselves are foreign processes, present only by outcome and duration.
- Messages, events, logging and the forced refresh of the NodeNetworkState.
- Selecting matching and ready nodes, the operator, rendering, webhooks and TLS settings: none of them reads or writes the slot counter or an enactment's conditions; the number of ready nodes enters as a parameter.
- Liveness, work queue rates and jitter: decided outside this code.

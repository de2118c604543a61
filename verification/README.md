# Verified model of the AMD GPU operator's long-lived protocols

This project models, in Dafny, the parts of the GPU operator that keep state over
many reconciles, and proves what holds in every run of them.

* **Driver upgrades** (`NodeUpgrade`, `UpgradeMachine`, `UpgradeSafety`,
  `UpgradeWorker`, `UpgradeLimits`, `UpgradeManager`). A reconcile pass classifies every node,
  admits some under the upgrade policy and spawns a worker goroutine for each.
  Workers cordon, drain, relabel and reboot, and write a status back into the map
  that passes read. In `UpgradeMachine` a step is one look at a node, one
  admission, or one API reply to one worker, so workers interleave with a pass
  between any two nodes it looks at. The class `UpgradeMgr` holds the operator's
  maps and is proved to take exactly those steps.
* **Races inside a look** (`UpgradeRaces`, `RaceLimits`). The finer machine: a look
  is split at its reads of the node's status and workers write between them.
* **Auto-remediation** (`Attempts`, `RemediationMachine`, `RemediationSafety`,
  `TrackerOrder`, `RemediationLimits`, `WorkflowSafety`, `WorkflowLimits`,
  `RemediationManager`). Attempts are persisted in a status CR, cleaned and
  reloaded into a tracker at every pass; the tracker gates new workflows. The
  class `RemediationMgr` is proved to take the steps of `RemediationMachine`.
* **Node ownership and finalization** (`NodeOwnership`, `Finalization`). Nodes
  belong to at most one DeviceConfig, across operator restarts and through the two
  reconciles that finalize a config; forced finalization removes leftovers one
  reconcile at a time.
* **Codecs** (`ImageTags`, `KernelMappings`, `LabelTemplates`). The driver image
  tag and its readers, the kernel mapping list, and the node labels that carry a
  DeviceConfig's name.

API calls, the clock and the contents of the cluster are inputs: every event
carries the replies its calls get, and nothing is assumed of them except where a
theorem says so. Time is in nanoseconds; stamps the operator writes drop the
fraction of a second.

*Assumption W* (`UpgradeMachine.Undisturbed`): a node's time runs out, and statuses
are dropped, only while the node has no live worker.
`UpgradeSafety.DisciplineIffUndisturbed` shows that worker exclusion needs exactly
that, and MaxParallelUpgrades needs no more (`UpgradeSafety.ParallelHolds`).
MaxUnavailableNodes also needs that no look of the run leaves an uncordon fault
(`UpgradeSafety.FaultFree`), a failed uncordon whose status nothing later in the
look replaces. Remediation theorems are stated for sets of conditions none of which
ends in a dash and another one (`Attempts.Unambiguous`), and for runs in which every
created workflow gets recorded (`RemediationSafety.Sound`).

## What does not hold, and when it does

* `maxUnavailableNodes` is documented as the number of nodes that may be
  unavailable, with all failed nodes counted (docs/drivers/upgrading.md:69,138).
  Reboot-Failed is not in the code's failed set.
  `UpgradeLimits.DownWithinBudgetIff`: the documented bound holds in all runs if
  and only if upgrades do not reboot, or never start, or the limit covers every
  node.
* Failed uncordons put nodes over the limit. `UpgradeLimits.BudgetHoldsIff`: with
  uncordon replies free, active and failed nodes stay within the limit in all runs
  if and only if it covers every node.
* A worker that marks its node failed between step 3 and step 5 of a look is not
  counted by that pass, and another node is admitted in its place.
  `UpgradeRaces.LooksSerialize`: a run without such a lost failure ends, between
  looks, in a state that atomic looks lead to, so capacity and partition hold
  (`UpgradeRaces.FineCapacityHolds`, `UpgradeRaces.FinePassPartitions`).
  `RaceLimits.FineBudgetHoldsIff`: with lost failures possible the limit holds in all
  runs if and only if no node is ever started or the limit covers every node.
* Without assumption W two workers can be live on one node
  (`UpgradeLimits.TwoWorkersWithoutW`).
* `windowSize` is documented as the window in which attempts are counted
  (docs/autoremediation/auto-remediation.md:295). The gate counts everything the
  CR retains, which is 72 hours. `RemediationLimits.WindowCountsIff`: the gate is the
  documented one in all runs if and only if `windowSize` is 72 hours, or the limit
  is so low that the gate never opens. A `windowSize` that does not parse switches
  the limit off (`RemediationLimits.BrokenWindowUnlimited`): the created workflow
  counts later if and only if the window parses and the CR write succeeds
  (`RemediationSafety.AttemptCountsIffRecorded`).
* The 72-hour limit holds on the recorded stamps. On true instants it can fall
  short by less than a second (`RemediationLimits.TwoWithin72Hours`).
  `RemediationSafety.FullRateLimitIff`: it holds on true instants if and only if of
  every two attempts max apart the stamps are more than 72 hours apart, or the later
  one is not less far into its second.
* Tracker keys join node and condition with a dash. Two conditions can share a key
  if and only if one ends in a dash and the other (`Attempts.KeysCollideIff`). Over a
  set of conditions, the tracker agrees with the CR and the rate limit holds in all
  runs if and only if no condition ends in a dash and another one
  (`RemediationLimits.CacheAgreesIff`, `RemediationLimits.RateLimitedIff`).
* A pending workflow is not noticed by the next pass; one live workflow per node
  is kept if and only if none is pending (`WorkflowSafety.SoloIffNoPending`).
* The API server cuts generated names, so a long node name loses the dash by which
  its workflows are found (`WorkflowSafety.GeneratedNameIff`).
  `WorkflowLimits.AtMostOneRunningIff`: over a set of nodes, at most one workflow runs
  per node in all settled runs if and only if no node name with a dash begins another
  and every node name leaves room for the dash.
* Finalization releases a config's nodes one reconcile before the config is gone,
  while its status still says Ready. Ownership survives that pass if and only if no
  Ready config has a selected node (`NodeOwnership.EarlyReleaseKeepsOwnershipIff`); a
  later start can fail (`NodeOwnership.EarlyReleaseCanBreakRestart`), and a start at any
  point of a run succeeds if and only if no reconcile of the run assigned a node that a
  config being deleted still has (`NodeOwnership.RestartsSucceedIff`).
* A node is taken for upgraded by a suffix test: one with an image of "16.3" that is
  to get "6.3" becomes Complete without an upgrade. `UpgradeLimits.TakenForUpgradedIff`:
  this happens if and only if the wanted version ends the installed one.
* A version with a dash, or longer than 127 characters, is not read back from the
  image (`ImageTags.VersionReadBackIff`); a node whose kernel was first met on a
  node with another default version gets an image of that other version
  (`KernelMappings.NodeReadsOwnVersionIff`).

## Model

| member | source | states |
|---|---|---|
| `UpgradeSafety.CapacityHolds` | internal/controllers/upgrademgr.go:186-272 | however workers interleave with the looks of passes, under W and without uncordon faults, active plus failed nodes never exceed the integer MaxUnavailableNodes, or the least number that is at least the percentage; none ever when it is malformed or not positive |
| `UpgradeSafety.OccupiedExact` | internal/controllers/upgrademgr.go:601-607 | which statuses both limits count |
| `UpgradeSafety.ParallelHolds` | internal/controllers/upgrademgr.go:630-655 | under W alone, whatever uncordon calls do, active nodes never exceed a nonzero MaxParallelUpgrades, and with zero never what MaxUnavailableNodes allows, in every run |
| `UpgradeSafety.GoodUncordonsFaultFree` | internal/controllers/upgrademgr.go:504-564 | a run whose uncordon calls all succeed has no uncordon fault |
| `UpgradeSafety.StepKeepsAccounts` | internal/controllers/upgrademgr.go:186-272 | the inductive step of both bounds: every slot-taking node is in the books of the running pass and the books are within the limit; only the bound with failed nodes needs looks without a fault |
| `UpgradeSafety.TallyBooked` | internal/controllers/upgrademgr.go:180-272 | the number of nodes taking a slot is at most the pass's counters plus the candidates started so far |
| `UpgradeSafety.TallyIsCardinality` | internal/controllers/upgrademgr.go:630-655 | counting slots along the node list is the cardinality of the set of slot-taking nodes |
| `UpgradeSafety.WorkersExclusive` | internal/controllers/upgrademgr.go:264-271 | under W a live worker's node is Started or Reboot-In-Progress, and no two live workers share a node, in every run |
| `UpgradeSafety.DisciplineIffUndisturbed` | internal/controllers/upgrademgr.go:702-711 | a step keeps worker exclusion if and only if it meets W |
| `UpgradeSafety.StepKeepsExclusion` | internal/controllers/upgrademgr.go:207-211 | exclusion and the placement of every looked-at node are preserved by every step |
| `UpgradeSafety.UpgradesWereAdmitted` | internal/controllers/upgrademgr.go:264-270 | every node that is active, Reboot-Failed or failed other than by uncordon was admitted earlier, and an active one still carries the stamp of that admission |
| `UpgradeSafety.UpgradesAreYoung` | internal/controllers/upgrademgr.go:674-711 | a node with a persisted entry that is still active after the pass looked at it was admitted at most two hours before |
| `UpgradeSafety.TimedOutIff` | internal/controllers/upgrademgr.go:674-711 | in every run a look finds an active persisted node timed out if and only if more than 7200 seconds have passed since the second it was started in |
| `UpgradeSafety.StartsCleared` | internal/controllers/upgrademgr.go:195-218 | in every run a node the pass found done or failed has no start time left |
| `UpgradeSafety.NewVersionForgets` | internal/controllers/upgrademgr.go:762-767 | a pass for another version forgets every status, any other pass none |
| `UpgradeSafety.FailedSticks` | internal/controllers/upgrademgr.go:396-432 | a failed node keeps its very status over any number of passes until a requeue by label whose every call succeeds |
| `UpgradeSafety.FinishedSticks` | internal/controllers/upgrademgr.go:529-564 | a Complete or Install-Complete node keeps its status while every look finds the wanted image |
| `UpgradeSafety.PassPartitions` | internal/controllers/upgrademgr.go:186-246 | once every node was looked at, the six buckets add up to the node count and still fix every node's possible statuses, whatever workers did between looks |
| `UpgradeSafety.BucketsPartition` | internal/controllers/upgrademgr.go:186-246 | the six counters partition any prefix of the nodes looked at |
| `NodeUpgrade.BucketFixesStatus` | internal/controllers/upgrademgr.go:471-628 | each bucket fixes the possible final statuses; a candidate is NotStarted, finished, Reboot-Failed, or Uncordon-Failed set in this pass by a failed call |
| `NodeUpgrade.BooksBalanceIffNoUncordonFault` | internal/controllers/upgrademgr.go:504-564 | the counters see a node as taking a slot exactly when its status does, if and only if no uncordon failure of this pass stays |
| `NodeUpgrade.LookTakesNoSlot` | internal/controllers/upgrademgr.go:188-240 | looking at a node never makes it take a slot it did not take |
| `NodeUpgrade.LookSparesUpgrading` | internal/controllers/upgrademgr.go:191-211 | a node a worker may own is left unchanged, unless and only unless its time is up |
| `NodeUpgrade.LookKeepsProvenance` | internal/controllers/upgrademgr.go:188-240 | a look invents no admitted status and leaves no overdue node active |
| `NodeUpgrade.QuotaMeetsPolicy` | internal/controllers/upgrademgr.go:630-655 | on the policy's own numbers: with the k nodes a pass starts MaxUnavailableNodes and MaxParallelUpgrades are met, and with one more candidate one of them would not be |
| `NodeUpgrade.AllowsIff` | internal/controllers/upgrademgr.go:632-639 | how many active and failed nodes an integer, a percentage rounded up, or a malformed limit allows |
| `NodeUpgrade.ScaledRoundsUp` | internal/controllers/upgrademgr.go:632-636 | a percentage limit is the least number of nodes that is at least that share of the nodes |
| `NodeUpgrade.DoneIff` | internal/controllers/upgrademgr.go:529-564 | a node is done if and only if it is not failed, no worker's, has not lost its image, its persisted image ends in the spec's version or, without one, in the OS default, and it is finished already or its uncordon succeeds |
| `NodeUpgrade.LookTable` | internal/controllers/upgrademgr.go:194-245 | bucket and status of steps 3 to 9 as a table over the node's status and what the pass sees |
| `NodeUpgrade.RefreshTable` | internal/controllers/upgrademgr.go:396-432 | steps 1 and 2: initial status, requeue after four conditions, timeout of the three active statuses |
| `NodeUpgrade.TimeExceededIff` | internal/controllers/upgrademgr.go:674-700 | more than 7200 seconds since the operator's own stamp, or without one since the persisted stamp of an upgrade or install under way |
| `UpgradeLimits.DownWithinBudgetIff` | internal/controllers/upgrademgr.go:601-607 | MaxUnavailableNodes bounds the nodes taken down in all runs if and only if no reboots, or no admissions, or the limit covers all nodes |
| `UpgradeLimits.BudgetHoldsIff` | internal/controllers/upgrademgr.go:546-550 | with uncordon replies free, active plus failed nodes stay within MaxUnavailableNodes in all runs under W if and only if the limit covers every node |
| `UpgradeRaces.LooksSerialize` | internal/controllers/upgrademgr.go:188-245 | workers may write between any two status reads of a look: a run that loses no failure between step 3 and step 5 ends, between looks, in a state that atomic looks lead to |
| `UpgradeRaces.FineCapacityHolds` | internal/controllers/upgrademgr.go:188-245 | both limits hold in every such run, in the middle of a look too |
| `UpgradeRaces.FinePassPartitions` | internal/controllers/upgrademgr.go:186-246 | in every such run the buckets of a complete pass add up and fix their nodes' statuses |
| `UpgradeRaces.LostFailureFitsIff` | internal/controllers/upgrademgr.go:195-211 | a look that lost a failure puts the node in a bucket its status fits if and only if the node has the wanted image or is new |
| `RaceLimits.FineBudgetHoldsIff` | internal/controllers/upgrademgr.go:195-211 | with lost failures possible, MaxUnavailableNodes holds in all runs if and only if no node is ever started or the limit covers every node |
| `UpgradeLimits.TakenForUpgradedIff` | internal/controllers/upgrademgr.go:529-564 | a node with an image of version u that is to get w becomes Complete without an upgrade if and only if w ends u |
| `UpgradeLimits.TwoWorkersWithoutW` | internal/controllers/upgrademgr.go:702-711 | a timed-out, uncancelled worker plus a requeue gives two live workers on one node |
| `UpgradeManager.UpgradeMgr.HandleUpgrade` | internal/controllers/upgrademgr.go:116-275 | a pass is a legal sequence of machine steps that starts exactly the quota, and asks to be called again exactly when some node is not done |
| `UpgradeManager.UpgradeMgr.ScanNodes` | internal/controllers/upgrademgr.go:186-246 | the counters and the candidate list are those of the looks taken, in node order |
| `UpgradeManager.UpgradeMgr.LookAtNode` | internal/controllers/upgrademgr.go:188-245 | one turn of the node loop is one Look step |
| `UpgradeManager.UpgradeMgr.StartCandidates` | internal/controllers/upgrademgr.go:262-272 | the admission loop takes one Admit step per candidate, in node order |
| `UpgradeManager.UpgradeMgr.StartNode` | internal/controllers/upgrademgr.go:264-270 | marking a node Started, stamping it and spawning its worker is one Admit step |
| `UpgradeManager.UpgradeMgr.Decide` | internal/controllers/upgrademgr.go:248-262 | from the counters: how many candidates start, within the policy's numbers and as many as they allow, and requeue exactly when not all nodes are done |
| `UpgradeManager.UpgradeMgr.HandleInitStatus` | internal/controllers/upgrademgr.go:396-432 | initial status and the requeue of a failed node once label, version and pods are dealt with, on that node's entry only |
| `UpgradeManager.UpgradeMgr.HandleUpgradeTimedOut` | internal/controllers/upgrademgr.go:674-711 | an active node past two hours becomes Timed-Out, nothing else changes |
| `UpgradeManager.UpgradeMgr.IsNodeNmcStatusMissing` | internal/controllers/upgrademgr.go:504-526 | answer and new status of step 4 |
| `UpgradeManager.UpgradeMgr.IsNodeReady` | internal/controllers/upgrademgr.go:529-564 | ready if and only if the persisted image ends in the spec's version or, without one, in the OS default, and no uncordon is needed or it succeeds; and the new status |
| `UpgradeManager.UpgradeMgr.IsNodeNew` | internal/controllers/upgrademgr.go:471-501 | answer and new status of step 7; Failed is overwritten by Install-In-Progress |
| `UpgradeManager.UpgradeMgr.IsNodeStateUpgradeInProgress` | internal/controllers/upgrademgr.go:581-599 | answer and new status of step 9 |
| `UpgradeManager.UpgradeMgr.ClassifyNode` | internal/controllers/upgrademgr.go:194-245 | the chain of early continues gives the bucket and status of the pure classifier |
| `UpgradeManager.UpgradeMgr.SetNodeStatus` | internal/controllers/upgrademgr.go:733-738 | only the node's entry changes |
| `UpgradeWorker.PlainOutcomeIff` | internal/controllers/upgrademgr.go:858-920 | without reboot, from the replies alone: In-Progress if and only if the label is right already or cordon, drain and label update succeed for the current version; Cordon-Failed, Drain-Failed or Failed if and only if that call fails first; unchanged if and only if the version changed first |
| `UpgradeWorker.RebootOutcomeIff` | internal/controllers/upgrademgr.go:1144-1299 | with reboot, from the replies alone: when the worker ends In-Progress (Ready, or after 360 polls), Reboot-Failed, Failed, or leaves Reboot-In-Progress |
| `UpgradeWorker.AwaitOutcome` | internal/controllers/upgrademgr.go:1237-1299 | the wait ends In-Progress if and only if a poll finds the node Ready, or the call after 360 polls succeeds, with every call before it successful and the version current |
| `UpgradeWorker.WorkerSteps` | internal/controllers/upgrademgr.go:858-920 | a worker that gets its replies one by one takes Work steps of the machine to its end, and leaves the status of the sequential worker |
| `UpgradeManager.UpgradeMgr.HandleNodeUpgrade` | internal/controllers/upgrademgr.go:858-920 | the sequential worker, for every sequence of replies, ends in the status the state machine's worker ends in, and touches no other node |
| `UpgradeManager.UpgradeMgr.HandleNodeReboot` | internal/controllers/upgrademgr.go:1144-1235 | likewise for the reboot part |
| `UpgradeManager.UpgradeMgr.DeleteRebootPod` | internal/controllers/upgrademgr.go:1237-1299 | likewise for the poll loop, with its 360 retries |
| `RemediationSafety.RateLimited` | internal/controllers/remediation_handler.go:168-243 | in every run, at most the largest effective limit of recorded start times per node and condition fall into any 72-hour span, and of true instants into any span one second shorter |
| `RemediationSafety.PolicyLimits` | internal/controllers/remediation_handler.go:1489-1494 | on the policy itself: no 259200 seconds hold more than maxAllowedRunsPerWindow stamps, three when it is 0, none when it is negative |
| `RemediationSafety.FullRateLimitIff` | internal/controllers/remediation_handler.go:1421-1435 | in every run no 72 hours hold more than max true start instants if and only if every two max apart have stamps more than 72 hours apart or the later is not less far into its second |
| `RemediationSafety.StepKeepsSpacing` | internal/controllers/remediation_handler.go:1554-1563 | attempts max apart stay 72 hours apart over every step |
| `RemediationSafety.CacheAgrees` | internal/controllers/remediation_handler.go:1527-1552 | in every run the CR holds exactly the attempts after the last cutoff in order, and the tracker list is the CR's until the node is visited and a suffix of it after |
| `RemediationSafety.GateCountsRetained` | internal/controllers/remediation_handler.go:1326-1339 | the gate closes exactly when the attempts of the 72 hours before the pass reach maxAllowedRunsPerWindow, three when it is 0, whatever windowSize is |
| `RemediationLimits.WindowCountsIff` | internal/controllers/remediation_handler.go:1554-1563 | in all runs the gate counts the attempts of windowSize, as documented, if and only if windowSize is 72 hours or the limit is not positive |
| `RemediationLimits.CacheAgreesIff` | internal/controllers/remediation_handler.go:1527-1552 | over a set of conditions, the tracker agrees with the CR in all runs if and only if no condition ends in a dash and another one |
| `RemediationLimits.RateLimitedIff` | internal/controllers/remediation_handler.go:1485-1487 | over a set of conditions, attempts max apart are 72 hours apart by their stamps in all runs if and only if no condition ends in a dash and another one |
| `RemediationSafety.AttemptCountsIffRecorded` | internal/controllers/remediation_handler.go:229-242 | a created workflow stays visible to the limiter if and only if its window parses and the CR write succeeds |
| `TrackerOrder.PruneIsFilterInRuns` | internal/controllers/remediation_handler.go:1341-1367 | in every run CR and tracker lists are sorted, and pruning the tracker at any cutoff equals filtering it |
| `TrackerOrder.WindowPruned` | internal/controllers/remediation_handler.go:1496-1501 | in every run a recorded workflow leaves in the tracker exactly the attempts of the policy's window, five hours when it names none, and itself |
| `RemediationLimits.TwoWithin72Hours` | internal/controllers/remediation_handler.go:1447-1483 | a run meeting every assumption that starts two workflows less than 72 hours apart under a limit of one |
| `RemediationLimits.BrokenWindowUnlimited` | internal/controllers/remediation_handler.go:231-236 | with an unparsable window any number of workflows can be created at one instant under a limit of one |
| `WorkflowSafety.AtMostOneRunning` | internal/controllers/remediation_handler.go:1221-1245 | at most one workflow runs per node in every run whose created workflows have left the pending phase by the next visit, for node names that are prefix-free and leave room for the dash in a generated name |
| `WorkflowLimits.AtMostOneRunningIff` | internal/controllers/remediation_handler.go:1221-1245 | over a set of nodes, at most one workflow runs per node in all such runs if and only if the node names are prefix-free and leave room for the dash |
| `WorkflowSafety.GeneratedNameIff` | internal/controllers/remediation_handler.go:984-990 | the generated workflow name is the first 58 characters of node, template and dashes, and begins with the node and a dash if and only if the node name leaves room for the dash |
| `WorkflowSafety.SoloIffNoPending` | internal/controllers/remediation_handler.go:1221-1245 | creating a workflow keeps one live workflow per node if and only if none of the node's is pending |
| `WorkflowSafety.PrefixDecides` | internal/controllers/remediation_handler.go:1228-1231 | with prefix-free names, the name prefix test finds exactly the node's own workflows |
| `WorkflowSafety.ExistingExact` | internal/controllers/remediation_handler.go:1221-1288 | the workflows keep their order; removed are exactly the node's succeeded ones before the end of the loop and the one at its end when aborted; a new one may be created if and only if the loop met no end or an aborted workflow whose label came off |
| `WorkflowSafety.SparedStay` | internal/controllers/remediation_handler.go:1228-1268 | other nodes' workflows, pending and ended ones and running ones that are not aborted are never removed |
| `WorkflowSafety.CreatedIff` | internal/controllers/remediation_handler.go:191-228 | a visit creates a workflow if and only if it passes every gate, stated on what it meets; otherwise it creates and records nothing |
| `WorkflowSafety.OnlyAbortReplaces` | internal/controllers/remediation_handler.go:1247-1288 | a running workflow is replaced only after its labelled abort, its deletion and the label's removal succeeded |
| `RemediationManager.RemediationMgr.HandleRemediation` | internal/controllers/remediation_handler.go:144-246 | a pass is a legal run of machine steps: none when the cleaned CR cannot be written, the cleanup alone when the reload fails, else one visit per node in order, ending early only right after a workflow it could not record |
| `RemediationManager.RemediationMgr.VisitNode` | internal/controllers/remediation_handler.go:191-243 | one turn of the node loop is one Visit step |
| `RemediationManager.RemediationMgr.HandleExistingWorkflowsOnNode` | internal/controllers/remediation_handler.go:1221-1288 | the loop leaves the workflows and gives the answer that `ExistingExact` describes |
| `RemediationManager.RemediationMgr.CreateAndRegister` | internal/controllers/remediation_handler.go:222-242 | create, prune, register in the tracker, then in the CR; stops exactly when the attempt is not recorded |
| `RemediationManager.RemediationMgr.DropOlderRecoveryAttemptsFromStatusCR` | internal/controllers/remediation_handler.go:1369-1419 | the nested loops leave exactly the cleaned CR |
| `RemediationManager.RemediationMgr.SyncInternalMapFromStatusCR` | internal/controllers/remediation_handler.go:1527-1552 | the new tracker holds, for every key, the times of a CR list with that key, and nothing else |
| `RemediationManager.RemediationMgr.DropOlderRecoveryAttemptsInternal` | internal/controllers/remediation_handler.go:1341-1367 | the pair's list loses everything before its first recent attempt, other lists nothing |
| `RemediationSafety.RegisterLookup` | internal/controllers/remediation_handler.go:1437-1469 | registering appends the attempt to the pair's own CR list, creating missing entries, and changes no other pair's list |
| `Attempts.CleanExact` | internal/controllers/remediation_handler.go:1386-1412 | cleanup keeps, for every node and condition, exactly the attempts that began after the cutoff, names included, in order |
| `Attempts.CleanLeavesNoEmpties` | internal/controllers/remediation_handler.go:1399-1411 | cleanup leaves no empty condition list and no empty node entry |
| `Attempts.CleanTwice` | internal/controllers/remediation_handler.go:1386-1412 | cleaning at a cutoff and then at a later one is cleaning at the later one |
| `Attempts.DropOldIsFilter` | internal/controllers/remediation_handler.go:1351-1364 | on a sorted list, dropping up to the first recent attempt is filtering by the cutoff |
| `Attempts.DropOldLosesNothing` | internal/controllers/remediation_handler.go:1351-1364 | on any list it loses no recent attempt |
| `Attempts.KeyInjective` | internal/controllers/remediation_handler.go:1485-1487 | two conditions neither of which ends in a dash and the other: equal keys give equal nodes and conditions |
| `Attempts.KeysCollideIff` | internal/controllers/remediation_handler.go:1485-1487 | two conditions can share a key, for some two pairs, if and only if one of them ends in a dash and the other |
| `Attempts.SyncExact` | internal/controllers/remediation_handler.go:1527-1552 | over conditions with unambiguous keys, after a sync the tracker's list of a pair is exactly the CR's |
| `NodeOwnership.OwnershipHolds` | internal/controllers/device_config_reconciler.go:194-340 | in every run of creations, reconciles, two-step deletions and restarts, Ready configs not being deleted own the nodes of their persisted status and share none; a restart succeeds if and only if no deleting Ready config shares a node, and is then exact |
| `NodeOwnership.RestartsSucceedIff` | internal/controllers/device_config_reconciler.go:1393-1426 | a restart at any point of a run succeeds if and only if no reconcile of the run assigned a node that a config being deleted still has |
| `NodeOwnership.RemovedAtOnce` | internal/controllers/device_config_reconciler.go:851-908 | when every config is removed right after its nodes are released, no restart fails and every Ready config owns its nodes |
| `NodeOwnership.StaysApartIff` | internal/controllers/device_config_reconciler.go:896-908 | a step keeps deleting configs apart from all others if and only if it assigns none of their nodes |
| `NodeOwnership.StepKeepsSafe` | internal/controllers/device_config_reconciler.go:237-247 | every orderly step keeps live configs disjoint and, unless the last start failed, owners of their nodes |
| `NodeOwnership.RebuildExact` | internal/controllers/device_config_reconciler.go:1393-1426 | the rebuild succeeds if and only if the Ready configs are disjoint, and then maps exactly their nodes |
| `NodeOwnership.ReadyIffGranted` | internal/controllers/device_config_reconciler.go:236-338 | in every run a config is Ready if and only if the last event that decided on it was a reconcile that succeeded, and then has the nodes of that reconcile |
| `NodeOwnership.OwnNodesNeverConflict` | internal/controllers/device_config_reconciler.go:1379-1391 | in every run a live config is never rejected for the nodes it has |
| `NodeOwnership.VanishedIsFree` | internal/controllers/device_config_reconciler.go:1428-1442 | once a config is not found, exactly the nodes of third configs stand in another one's way |
| `NodeOwnership.ReleasedAreFree` | internal/controllers/device_config_reconciler.go:1428-1442 | released nodes stand in no config's way, all others as before |
| `NodeOwnership.EarlyReleaseKeepsOwnershipIff` | internal/controllers/device_config_reconciler.go:896-908 | releasing nodes before the config is gone keeps ownership if and only if no Ready config has a selected node |
| `NodeOwnership.EarlyReleaseCanBreakRestart` | internal/controllers/device_config_reconciler.go:896-908 | a release, a second config and a restart that end in the start-up error |
| `NodeOwnership.Reconciler.ValidateNodeAssignments` | internal/controllers/device_config_reconciler.go:1379-1391 | reports a conflict exactly when some node is assigned to another config |
| `NodeOwnership.Reconciler.AddAssignments` | internal/controllers/device_config_reconciler.go:1444-1446 | all the nodes, and only they, become the config's |
| `NodeOwnership.Reconciler.RemoveAssignments` | internal/controllers/device_config_reconciler.go:1428-1442 | deletes by node name, or by config when the nodes are unknown |
| `NodeOwnership.Reconciler.BuildNodeAssignments` | internal/controllers/device_config_reconciler.go:1393-1426 | the loop over listed configs computes the rebuild, or fails with it |
| `NodeOwnership.Reconciler.ReconcileConfig` | internal/controllers/device_config_reconciler.go:236-338 | validate, status, assignments: one Reconcile step, rejected exactly on a conflict or an invalid spec |
| `NodeOwnership.Reconciler.FinalizeConfig` | internal/controllers/device_config_reconciler.go:855-908 | a reconcile of a config being deleted is one ReleaseNodes step when it deletes the KMM module, one Remove step when the module is gone and the patch succeeds, and no step otherwise |
| `Finalization.CheckExact` | internal/controllers/device_config_reconciler.go:912-950 | done exactly when no listed node has a label or pod or a lookup error; a forced check that is not done removes exactly one leftover of the first node in its way, its label before its pod, unless the call fails, and then changes nothing |
| `Finalization.Cluster.CheckPostProcessFinalizeCondition` | internal/controllers/device_config_reconciler.go:912-950 | the loop with early returns computes that check |
| `Finalization.Cluster.FinalizeUntilDone` | internal/controllers/device_config_reconciler.go:851-892 | forced finalization ends after exactly one check per leftover plus one, with every listed node clean |
| `ImageTags.LimitTag` | internal/kmmmodule/kmmmodule.go:745-748 | the tag is a suffix of the full tag, at most 128 characters, and whole when it fits |
| `ImageTags.RenderedImage` | internal/kmmmodule/kmmmodule.go:739-750 | a tag that fits in 128 characters renders to OS, kernel, passthrough driver type and version, joined by dashes behind the image name |
| `ImageTags.VersionReadBackIff` | internal/controllers/upgrademgr.go:1075-1082 | for every image, OS, driver type, kernel and version without "$" and ":", the text after the last dash of the rendered image is the version if and only if it has no dash and at most 127 characters |
| `ImageTags.ReadyTestPassesIff` | internal/controllers/upgrademgr.go:529-536 | the suffix test passes for the printed version if and only if it has at most 128 characters |
| `ImageTags.ReadyTestAcceptsIff` | internal/controllers/upgrademgr.go:536-536 | on an image printed for version u, the suffix test passes for a version w without a dash if and only if w ends u |
| `ImageTags.KernelsSeparateIff` | internal/kmmmodule/kmmmodule.go:739-750 | images rendered for two kernels differ if and only if the placeholder and what follows it fit in the tag |
| `ImageTags.PassthroughTagsDifferIff` | internal/kmmmodule/kmmmodule.go:740-744 | the tags of the two passthrough driver types differ if and only if the limit leaves the driver type in them |
| `ImageTags.LastPartMaximal` | internal/controllers/upgrademgr.go:1075-1082 | the last part of a split is the longest separator-free suffix |
| `ImageTags.RenderEvery` | internal/kmmmodule/kmmmodule.go:743-744 | every kernel placeholder in an image is replaced, wherever it stands |
| `ImageTags.RenderBarrier` | internal/kmmmodule/kmmmodule.go:743-744 | rendering leaves alone what follows a character the placeholder does not use |
| `KernelMappings.GetKernelMappings` | internal/kmmmodule/kmmmodule.go:581-608 | keeps the mapping of exactly the first building node per literal, in node order; the version is the last kept one's; an error exactly when none builds |
| `KernelMappings.KeptLiterals` | internal/kmmmodule/kmmmodule.go:591-603 | kept literals are pairwise distinct and are exactly the literals of the nodes that build |
| `KernelMappings.BuildsIff` | internal/kmmmodule/kmmmodule.go:610-737 | a node builds a mapping if and only if its OS is supported and spec, OpenShift or OS names a version; which version, image and literal it has |
| `KernelMappings.SameLiteralIff` | internal/kmmmodule/kmmmodule.go:722-727 | two kernels share a mapping literal if and only if they are equal or one is the dirty build of the other |
| `KernelMappings.NodeFindsMapping` | internal/kmmmodule/kmmmodule.go:722-736 | every node that builds has exactly one mapping for its trimmed kernel, from itself or an earlier node |
| `KernelMappings.NodeReadsOwnVersionIff` | internal/kmmmodule/kmmmodule.go:610-646 | a node's image reads back as its own version if and only if the first node with its kernel has the same version; always when the spec names a version |
| `LabelTemplates.ReadInvertsLabel` | internal/utils.go:294-320 | a key reads as a pair if and only if it is the label printed from that pair, with a nonempty dotless namespace and a nonempty one-line name |
| `LabelTemplates.MatchIffPrinted` | internal/utils.go:294-303 | for any template text, captures match a key if and only if they fit their groups and print to the key |
| `LabelTemplates.FindIsMatch` | internal/utils.go:305-314 | what the greedy backtracking search returns is a match |
| `LabelTemplates.MatchIsFound` | internal/utils.go:305-314 | a key with a match is found by the search |
| `LabelTemplates.LabelInjective` | internal/utils.go:318-320 | dotless namespaces make labels determine namespace and name |
| `LabelTemplates.DottedNamespaceShifts` | internal/utils.go:294-303 | a dotted namespace comes back cut at its first dot, the rest moved into the name |
| `LabelTemplates.LabelTexts` | internal/utils.go:65-67 | the three labels as they stand on a node |
| `LabelTemplates.TemplatesDisjoint` | internal/utils.go:65-67 | no key reads under two of the three templates |
| `LabelTemplates.HasNodeLabelTemplateMatch` | internal/utils.go:305-316 | finds a label exactly when one matches, and what it returns prints back to a label of the node |

## Left out

- Operator-restart recovery of upgrade statuses: it mixes synchronous reboots with detached goroutines and does not keep worker exclusion.
- Several DeviceConfigs sharing one upgrade manager: the status map and the last seen version are common to all of them; runs are those of one config with a fixed node list and policy.
- A worker's write after step 5 of a look: no worker owns the node by then, so the rest of a look is one step of `UpgradeRaces`.
- UpgradeManager.UpgradeMgr.HandleUpgrade: models a pass that no worker interrupts; interrupted passes are runs of the state machine, which all theorems cover.
- RemediationManager.RemediationMgr.HandleRemediation: models an enabled pass whose default objects exist; the earlier error returns change nothing.
- Boot IDs, pod drain and deletion, retries inside API helpers: each call is one reply that succeeds or fails.
- NodeOwnership.OwnershipHolds: takes it that the reconcile which releases nodes selects none that a live config owns; `NodeOwnership.EarlyReleaseKeepsOwnershipIff` says what else happens.
- Malformed start times in the remediation CR: the operator writes the stamps itself, so cleanup and sync parse every one.
- Resuming suspended workflows, workflow templates and their parameters: they create and delete no workflow.
- The interlock between remediation and driver upgrades beyond the reply it gives: it reads a status that lags within a reconcile.
- Deleting all workflows and the config map when a DeviceConfig goes away.
- Toleration cache: it stores the effect of a taint but compares its value.
- KMM's own template language: only the kernel placeholder is rendered.
- OS names and default versions from OS image strings: inputs of the kernel mapping model.
- ImageTags.VersionReadBackIff: versions with "$" or ":" are outside it; a tag cannot contain either character (section "Pulling manifests" of the OCI Distribution Specification).
- DaemonSet, Service and ConfigMap builders, VFIO watchers, validators, condition helpers, CI scripts: record filling without a hard property.

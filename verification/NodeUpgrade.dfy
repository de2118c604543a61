/** One node in one reconcile pass of the driver upgrade manager: the upgrade
    states, what the pass observes of the node, the classifiers in the order in
    which the pass applies them, and the capacity policy. */
module NodeUpgrade {
  import opened Base

  datatype UpgradeState =
    | Empty | NotStarted | Started | InstallInProgress | InstallComplete
    | InProgress | Complete | Failed | TimedOut | CordonFailed
    | UncordonFailed | DrainFailed | RebootInProgress | RebootFailed

  /** The failed set of the operator. Reboot-Failed is not in it. */
  predicate IsFailed(s: UpgradeState) {
    s.Failed? || s.CordonFailed? || s.UncordonFailed? || s.DrainFailed? || s.TimedOut?
  }

  /** The states in which a worker goroutine may still own the node. */
  predicate IsUpgrading(s: UpgradeState) {
    s.Started? || s.RebootInProgress?
  }

  /** The states that take a slot of MaxParallelUpgrades. */
  predicate IsActive(s: UpgradeState) {
    IsUpgrading(s) || s.InProgress?
  }

  /** The states that take a slot of MaxUnavailableNodes. */
  predicate IsCounted(s: UpgradeState) {
    IsActive(s) || IsFailed(s)
  }

  /** States a node can only have been given after it was admitted. */
  predicate IsAdmitted(s: UpgradeState) {
    IsActive(s) || s.RebootFailed? || (IsFailed(s) && !s.UncordonFailed?)
  }

  /** An upgrade start time: the empty string, a stamp, or text that does not parse. */
  datatype Stamp = NoStamp | Stamp(seconds: nat) | Unparsable

  /** The part of an entry of the persisted NodeModuleStatus that a pass reads. */
  datatype ModuleStatus = ModuleStatus(image: string, status: UpgradeState, start: Stamp)

  /** What one pass sees of one node, and how the API calls it makes for it end. */
  datatype NodeView = NodeView(
    name: NodeId,
    now: Instant,                     // clock at the timeout test
    requeueLabel: bool,               // upgrade-required label is on the node
    labelRemoved: bool,               // removing that label succeeded
    versionReset: bool,               // resetting the module version label succeeded
    podsCleaned: bool,                // cleaning up dangling KMM pods reported no error
    persisted: Option<ModuleStatus>,  // the node's entry in the DeviceConfig status
    nmcUncordon: bool,                // uncordon succeeded when the image is missing
    readyUncordon: bool,              // uncordon succeeded when the image is right
    versionLabel: Option<string>,     // version-module label of the node
    versionUpdated: bool,             // writing the version-module label succeeded
    defaultVersion: string,           // default driver version of the OS, "" if none
    unschedulable: bool,
    readyConditions: seq<bool>)       // NodeReady conditions, true when "True"

  const UPGRADE_LIMIT: nat := 2 * HOUR

  /** The upgrade-required label is there and every call of the requeue goes well. */
  predicate Requeued(v: NodeView) {
    v.requeueLabel && v.labelRemoved && v.versionReset && v.podsCleaned
  }

  /** Step 1: initial status, requeue of a failed node. */
  function InitStatus(s: UpgradeState, v: NodeView): UpgradeState {
    var known := if s.Empty? then NotStarted else s;
    if IsFailed(known) && Requeued(v) then NotStarted else known
  }

  predicate TracksTime(s: UpgradeState) {
    IsActive(s) || s.InstallInProgress?
  }

  predicate TimeExceeded(start: Stamp, v: NodeView) {
    v.persisted.Some? &&
    var used := if start.NoStamp? && TracksTime(v.persisted.value.status)
                then v.persisted.value.start else start;
    used.Stamp? && v.now - used.seconds * SECOND > UPGRADE_LIMIT
  }

  function TimeoutStatus(s: UpgradeState, start: Stamp, v: NodeView): UpgradeState {
    if IsActive(s) && TimeExceeded(start, v) then TimedOut else s
  }

  /** A classifier's answer together with the status it leaves behind. */
  datatype Answer = Answer(state: UpgradeState, yes: bool)

  /** Step 4: an upgraded node whose module status has lost its image. */
  function NmcStatusMissing(s: UpgradeState, v: NodeView): Answer {
    if v.persisted.Some? && v.persisted.value.image == "" && s.InProgress? then
      if v.nmcUncordon then Answer(s, true) else Answer(UncordonFailed, false)
    else Answer(s, false)
  }

  function TargetVersion(version: string, v: NodeView): string {
    if version != "" then version else v.defaultVersion
  }

  predicate ImageMatches(version: string, v: NodeView) {
    v.persisted.Some? && HasSuffix(v.persisted.value.image, TargetVersion(version, v))
  }

  predicate IsFinished(s: UpgradeState) {
    s.Complete? || s.InstallComplete?
  }

  /** Step 6: the persisted image is already the wanted one. */
  function NodeReady(s: UpgradeState, version: string, v: NodeView): Answer {
    if !ImageMatches(version, v) then Answer(s, false)
    else if IsFinished(s) then Answer(s, true)
    else if !v.readyUncordon then Answer(UncordonFailed, false)
    else if s.InstallInProgress? then Answer(InstallComplete, true)
    else Answer(Complete, true)
  }

  predicate IsNew(version: string, v: NodeView) {
    v.versionLabel.None? ||
    (v.persisted.Some? && v.versionLabel.value != version && v.persisted.value.status.InstallInProgress?)
  }

  /** Step 7: a node without a module version, or one whose install was overtaken
      by a version change. The status ends up Install-In-Progress even when
      writing the label failed and Failed was stored in between. */
  function NodeNew(s: UpgradeState, version: string, v: NodeView): Answer {
    if IsNew(version, v) then Answer(InstallInProgress, true) else Answer(s, false)
  }

  /** Step 9: an upgrade that waits for the module to be loaded. */
  function UpgradeInProgress(s: UpgradeState, version: string, v: NodeView): Answer {
    if v.versionLabel.Some? && v.versionLabel.value != version && s.InProgress?
    then Answer(if v.versionUpdated then s else Failed, true)
    else Answer(s, s.InProgress?)
  }

  predicate ReadyForUpgrade(v: NodeView) {
    !v.unschedulable && forall i :: 0 <= i < |v.readyConditions| ==> v.readyConditions[i]
  }

  datatype Bucket = FailedNode | Progressing | Done | Installing | NotReady | Candidate

  datatype Verdict = Verdict(state: UpgradeState, bucket: Bucket)

  /** Steps 7 to 9 and the readiness test. */
  function ClassifyUnfinished(s: UpgradeState, version: string, v: NodeView): Verdict {
    var newNode := NodeNew(s, version, v);
    if newNode.yes then Verdict(newNode.state, Installing)
    else if newNode.state.InstallInProgress? then Verdict(newNode.state, Installing) else
    var running := UpgradeInProgress(newNode.state, version, v);
    if running.yes then Verdict(running.state, Progressing)
    else if !ReadyForUpgrade(v) then Verdict(running.state, NotReady)
    else Verdict(running.state, Candidate)
  }

  /** Steps 6 to 9: no worker owns the node. */
  function ClassifyFree(s: UpgradeState, version: string, v: NodeView): Verdict {
    var ready := NodeReady(s, version, v);
    if ready.yes then Verdict(ready.state, Done) else ClassifyUnfinished(ready.state, version, v)
  }

  /** Steps 3 to 9. */
  function ClassifyCurrent(s: UpgradeState, version: string, v: NodeView): Verdict {
    if IsFailed(s) then Verdict(s, FailedNode) else
    var nmc := NmcStatusMissing(s, v);
    if nmc.yes then Verdict(nmc.state, Progressing)
    else if IsUpgrading(nmc.state) then Verdict(nmc.state, Progressing)
    else ClassifyFree(nmc.state, version, v)
  }

  /** The status once steps 1 and 2 are done. */
  function Refreshed(s: UpgradeState, start: Stamp, v: NodeView): (r: UpgradeState)
    ensures !r.Empty?
    ensures !TimeExceeded(start, v) && IsUpgrading(s) ==> r == s
  {
    TimeoutStatus(InitStatus(s, v), start, v)
  }

  /** The body of the pass's node loop. */
  function Classify(s: UpgradeState, start: Stamp, version: string, v: NodeView): Verdict {
    ClassifyCurrent(Refreshed(s, start, v), version, v)
  }

  /** Failed and Done nodes have their start time cleared. */
  predicate ClearsStart(b: Bucket) {
    b.FailedNode? || b.Done?
  }

  /** What a node left for later can be: UncordonFailed only when an uncordon
      call of that same pass failed. */
  predicate IsIdle(s: UpgradeState) {
    s.NotStarted? || IsFinished(s) || s.RebootFailed?
  }

  predicate BucketFits(b: Bucket, s: UpgradeState) {
    match b
    case FailedNode => IsFailed(s)
    case Progressing => IsActive(s) || s.Failed?
    case Done => IsFinished(s)
    case Installing => s.InstallInProgress?
    case NotReady => IsIdle(s) || s.UncordonFailed?
    case Candidate => IsIdle(s) || s.UncordonFailed?
  }

  predicate UncordonsSucceed(v: NodeView) {
    v.nmcUncordon && v.readyUncordon
  }

  /** An uncordon call of the pass fails and nothing after it in the pass
      replaces the Uncordon-Failed status it leaves. */
  predicate UncordonFault(s: UpgradeState, version: string, v: NodeView) {
    && !IsFailed(s)
    && !IsUpgrading(s)
    && !IsNew(version, v)
    && (if ImageMatches(version, v)
        then !IsFinished(s) && !v.readyUncordon && !NmcStatusMissing(s, v).yes
        else NmcStatusMissing(s, v).state.UncordonFailed?)
  }

  lemma UnfinishedBuckets(s: UpgradeState, version: string, v: NodeView)
    requires !s.Empty? && !IsUpgrading(s) && (IsFailed(s) ==> s.UncordonFailed?)
    ensures var r := ClassifyUnfinished(s, version, v);
            && BucketFits(r.bucket, r.state)
            && ((IsCounted(r.state) <==> r.bucket.Progressing?) <==> IsNew(version, v) || !s.UncordonFailed?)
            && (r.bucket.Candidate? || r.bucket.NotReady? ==> r.state == s)
            && !ClearsStart(r.bucket)
            && (IsCounted(r.state) ==> s.InProgress? || s.UncordonFailed?)
            && (IsAdmitted(r.state) ==> IsAdmitted(s))
  {
  }

  /** The bucket of a node fixes what its status can be after the pass looked at it. */
  lemma BucketFixesStatus(s: UpgradeState, start: Stamp, version: string, v: NodeView)
    ensures var r := Classify(s, start, version, v);
            && BucketFits(r.bucket, r.state)
            && ((r.bucket.Candidate? || r.bucket.NotReady?) && r.state.UncordonFailed? ==>
                  !UncordonsSucceed(v))
  {
    CurrentBuckets(Refreshed(s, start, v), version, v);
  }

  /** How far a node gets along the steps 3 to 6. */
  lemma CurrentCases(s: UpgradeState, version: string, v: NodeView)
    ensures var r := ClassifyCurrent(s, version, v);
            var nmc := NmcStatusMissing(s, v);
            var ready := NodeReady(nmc.state, version, v);
            if IsFailed(s) then r == Verdict(s, FailedNode)
            else if IsUpgrading(s) || nmc.yes then r == Verdict(s, Progressing)
            else if ready.yes then r == Verdict(ready.state, Done) && IsFinished(ready.state)
            else r == ClassifyUnfinished(ready.state, version, v)
                 && !IsUpgrading(ready.state) && (IsFailed(ready.state) ==> ready.state.UncordonFailed?)
  {
  }

  lemma UncordonFaultShows(s: UpgradeState, version: string, v: NodeView)
    requires !IsFailed(s) && !IsUpgrading(s) && !NmcStatusMissing(s, v).yes
    ensures var ready := NodeReady(NmcStatusMissing(s, v).state, version, v);
            && (ready.yes ==> !UncordonFault(s, version, v))
            && (!ready.yes ==> (UncordonFault(s, version, v) <==> !IsNew(version, v) && ready.state.UncordonFailed?))
            && (ready.state.UncordonFailed? ==> !UncordonsSucceed(v))
            && (!ready.yes && !ready.state.UncordonFailed? ==> ready.state == s)
  {
  }

  lemma CurrentBuckets(s: UpgradeState, version: string, v: NodeView)
    requires !s.Empty?
    ensures var r := ClassifyCurrent(s, version, v);
            && BucketFits(r.bucket, r.state)
            && ((r.bucket.Candidate? || r.bucket.NotReady?) && r.state.UncordonFailed? ==>
                  !UncordonsSucceed(v))
            && ((IsCounted(r.state) <==> r.bucket.FailedNode? || r.bucket.Progressing?)
                <==> !UncordonFault(s, version, v))
            && (UncordonsSucceed(v) ==> !UncordonFault(s, version, v))
            && (IsActive(r.state) ==> IsActive(s) && r.bucket.Progressing?)
            && (IsCounted(r.state) && !UncordonFault(s, version, v) ==> IsCounted(s))
            && (IsAdmitted(r.state) ==> IsAdmitted(s))
  {
    CurrentCases(s, version, v);
    if !IsFailed(s) && !IsUpgrading(s) && !NmcStatusMissing(s, v).yes {
      UncordonFaultShows(s, version, v);
      var ready := NodeReady(NmcStatusMissing(s, v).state, version, v);
      if !ready.yes {
        UnfinishedBuckets(ready.state, version, v);
      }
    }
  }

  /** The pass's counters see a node as taking a slot exactly when its status
      takes one, unless an uncordon call of this pass failed for good. */
  lemma BooksBalanceIffNoUncordonFault(s: UpgradeState, start: Stamp, version: string, v: NodeView)
    ensures var r := Classify(s, start, version, v);
            (IsCounted(r.state) <==> r.bucket.FailedNode? || r.bucket.Progressing?)
            <==> !UncordonFault(Refreshed(s, start, v), version, v)
  {
    CurrentBuckets(Refreshed(s, start, v), version, v);
  }

  /** A look at a node never makes it take a slot it did not take before. */
  lemma LookTakesNoSlot(s: UpgradeState, start: Stamp, version: string, v: NodeView)
    ensures var r := Classify(s, start, version, v);
            && (IsActive(r.state) ==> IsActive(s) && r.bucket.Progressing?)
            && (IsCounted(r.state) && !UncordonFault(Refreshed(s, start, v), version, v) ==> IsCounted(s))
            && (UncordonsSucceed(v) ==> !UncordonFault(Refreshed(s, start, v), version, v))
  {
    CurrentBuckets(Refreshed(s, start, v), version, v);
  }

  /** A node that a worker may own is left alone unless its time is up. */
  lemma LookSparesUpgrading(s: UpgradeState, start: Stamp, version: string, v: NodeView)
    requires IsUpgrading(s)
    ensures var r := Classify(s, start, version, v);
            && (TimeExceeded(start, v) <==> r == Verdict(TimedOut, FailedNode))
            && (!TimeExceeded(start, v) <==> r == Verdict(s, Progressing))
  {
  }

  /** A look neither invents an admitted status nor lets an overdue one stay active. */
  lemma LookKeepsProvenance(s: UpgradeState, start: Stamp, version: string, v: NodeView)
    ensures var r := Classify(s, start, version, v);
            && (IsAdmitted(r.state) ==> IsAdmitted(s))
            && (IsActive(r.state) ==> !ClearsStart(r.bucket) && !TimeExceeded(start, v))
  {
    CurrentBuckets(Refreshed(s, start, v), version, v);
  }

  // --------------------------------------- a look, from what it sees alone

  /** The persisted image ends in the version of the spec, or of the OS when the
      spec names none. */
  predicate HasWantedImage(version: string, v: NodeView) {
    && v.persisted.Some?
    && HasSuffix(v.persisted.value.image, if version == "" then v.defaultVersion else version)
  }

  /** An upgraded node whose persisted entry has no image. */
  predicate HasLostImage(s: UpgradeState, v: NodeView) {
    s == InProgress && v.persisted.Some? && v.persisted.value.image == ""
  }

  /** The node has no module version, or an install of another version is under way. */
  predicate LooksNew(version: string, v: NodeView) {
    match v.versionLabel
    case None => true
    case Some(found) => found != version && v.persisted.Some? && v.persisted.value.status == InstallInProgress
  }

  const FAILED_STATES := {Failed, CordonFailed, UncordonFailed, DrainFailed, TimedOut}
  const WORKER_STATES := {Started, RebootInProgress}

  /** Steps 3 to 5 leave the node to the tests that follow. */
  predicate IsFree(s: UpgradeState, v: NodeView) {
    s !in FAILED_STATES && s !in WORKER_STATES && !(HasLostImage(s, v) && v.nmcUncordon)
  }

  /** The node is done: right image, and no uncordon needed or it succeeds. */
  predicate IsDone(s: UpgradeState, version: string, v: NodeView) {
    IsFree(s, v) && HasWantedImage(version, v) && (s in {Complete, InstallComplete} || v.readyUncordon)
  }

  lemma FreeReaches(s: UpgradeState, version: string, v: NodeView)
    ensures var r := ClassifyCurrent(s, version, v);
            if IsFree(s, v) then r == ClassifyFree(if HasLostImage(s, v) then UncordonFailed else s, version, v)
            else r == Verdict(s, if s in FAILED_STATES then FailedNode else Progressing)
  {
  }

  lemma FreeDone(s: UpgradeState, version: string, v: NodeView)
    ensures var r := ClassifyFree(s, version, v);
            if HasWantedImage(version, v) && (s in {Complete, InstallComplete} || v.readyUncordon)
            then r == Verdict(if s in {InstallInProgress, InstallComplete} then InstallComplete else Complete, Done)
            else r == ClassifyUnfinished(if HasWantedImage(version, v) then UncordonFailed else s, version, v)
  {
    assert ImageMatches(version, v) <==> HasWantedImage(version, v);
  }

  lemma UnfinishedTable(s: UpgradeState, version: string, v: NodeView)
    ensures var r := ClassifyUnfinished(s, version, v);
            if LooksNew(version, v) || s == InstallInProgress then r == Verdict(InstallInProgress, Installing)
            else if s == InProgress then
              r == Verdict(if v.versionLabel == Some(version) || v.versionUpdated then s else Failed, Progressing)
            else if v.unschedulable || false in v.readyConditions then r == Verdict(s, NotReady)
            else r == Verdict(s, Candidate)
  {
    assert IsNew(version, v) <==> LooksNew(version, v);
    assert ReadyForUpgrade(v) <==> !(v.unschedulable || false in v.readyConditions);
  }

  /** A node is done exactly when it is free, its persisted image is the wanted one,
      and it needs no uncordon or the uncordon succeeds. */
  lemma DoneIff(s: UpgradeState, version: string, v: NodeView)
    ensures var r := ClassifyCurrent(s, version, v);
            && (r.bucket == Done <==> IsDone(s, version, v))
            && (r.bucket == Done ==>
                  r.state == if s in {InstallInProgress, InstallComplete} then InstallComplete else Complete)
  {
    LookTable(s, version, v);
  }

  /** What steps 3 to 9 make of a node, from its status and what the pass sees. */
  lemma LookTable(s: UpgradeState, version: string, v: NodeView)
    ensures var r := ClassifyCurrent(s, version, v);
            if s in FAILED_STATES then r == Verdict(s, FailedNode)
            else if s in WORKER_STATES || (HasLostImage(s, v) && v.nmcUncordon) then r == Verdict(s, Progressing)
            else if HasWantedImage(version, v) && (s in {Complete, InstallComplete} || v.readyUncordon) then
              r == Verdict(if s in {InstallInProgress, InstallComplete} then InstallComplete else Complete, Done)
            else
              var u := if HasLostImage(s, v) || HasWantedImage(version, v) then UncordonFailed else s;
              if LooksNew(version, v) || u == InstallInProgress then r == Verdict(InstallInProgress, Installing)
              else if u == InProgress then
                r == Verdict(if v.versionLabel == Some(version) || v.versionUpdated then u else Failed, Progressing)
              else if v.unschedulable || false in v.readyConditions then r == Verdict(u, NotReady)
              else r == Verdict(u, Candidate)
  {
    var s' := if HasLostImage(s, v) then UncordonFailed else s;
    FreeReaches(s, version, v);
    FreeDone(s', version, v);
    UnfinishedTable(if HasWantedImage(version, v) then UncordonFailed else s', version, v);
  }

  /** Two hours, counted from the stamp of this operator's run or, when it has
      none, from the persisted one of an upgrade or install under way. */
  lemma TimeExceededIff(start: Stamp, v: NodeView, seconds: nat)
    ensures start == Stamp(seconds) ==>
              (TimeExceeded(start, v) <==> v.persisted.Some? && v.now > (seconds + 7200) * 1_000_000_000)
    ensures start == NoStamp && v.persisted.Some? && v.persisted.value.start == Stamp(seconds) ==>
              (TimeExceeded(start, v) <==>
                && v.persisted.value.status in {Started, InstallInProgress, InProgress, RebootInProgress}
                && v.now > (seconds + 7200) * 1_000_000_000)
    ensures start == Unparsable || v.persisted.None? ==> !TimeExceeded(start, v)
    ensures start == NoStamp && v.persisted.Some? && !v.persisted.value.start.Stamp? ==> !TimeExceeded(start, v)
  {
  }

  /** Steps 1 and 2, from the status and what the pass sees. */
  lemma RefreshTable(s: UpgradeState, start: Stamp, v: NodeView)
    ensures var r := Refreshed(s, start, v);
            if s == Empty then r == NotStarted
            else if s in FAILED_STATES then
              r == if v.requeueLabel && v.labelRemoved && v.versionReset && v.podsCleaned then NotStarted else s
            else if s in {Started, InProgress, RebootInProgress} && TimeExceeded(start, v) then r == TimedOut
            else r == s
  {
  }

  /** MaxUnavailableNodes: a number, a percentage of the nodes, or malformed text. */
  datatype Limit = Number(n: int) | Percent(p: int) | Malformed

  datatype Policy = Policy(maxParallel: int, maxUnavailable: Limit)

  /** Percentages are rounded up. */
  function Scaled(limit: Limit, total: nat): Option<int> {
    match limit
    case Number(n) => Some(n)
    case Percent(p) => Some((p * total + 99) / 100)
    case Malformed => None
  }

  /** A percentage gives the least number of nodes that is at least that share. */
  lemma ScaledRoundsUp(p: int, total: nat, k: int)
    ensures Scaled(Percent(p), total).Some?
    ensures Scaled(Percent(p), total).value <= k <==> p * total <= 100 * k
  {
    var share := p * total;
    assert 100 * ((share + 99) / 100) <= share + 99 < 100 * ((share + 99) / 100) + 100;
  }

  datatype Allowance = Allowance(allowed: int, violated: bool)

  function PolicyCheck(policy: Policy, inProgress: nat, failed: nat, total: nat): Allowance {
    var scaled := Scaled(policy.maxUnavailable, total);
    if scaled.None? then Allowance(policy.maxParallel, true) else
    var remaining := scaled.value - failed;
    var allowed := if policy.maxParallel == 0 then remaining else Min(policy.maxParallel, remaining);
    Allowance(allowed, allowed == 0 || inProgress >= allowed)
  }

  /** The most nodes the policy ever lets be active or failed; none when the
      limit is malformed or negative. */
  function Budget(policy: Policy, total: nat): nat {
    var scaled := Scaled(policy.maxUnavailable, total);
    if scaled.None? || scaled.value < 0 then 0 else scaled.value
  }

  function ParallelBudget(policy: Policy, total: nat): nat {
    if policy.maxParallel == 0 then Budget(policy, total)
    else if policy.maxParallel < 0 then 0
    else policy.maxParallel
  }

  /** The limit lets k nodes be active or failed at once: no more than the number,
      or than the percentage of the nodes rounded up; none when it is malformed. */
  predicate Allows(limit: Limit, total: nat, k: nat) {
    k == 0 ||
    match limit
    case Number(n) => k <= n
    case Percent(p) => 100 * (k - 1) < p * total
    case Malformed => false
  }

  lemma AllowsIff(policy: Policy, total: nat, k: nat)
    ensures Allows(policy.maxUnavailable, total, k) <==> k <= Budget(policy, total)
  {
    if policy.maxUnavailable.Percent? {
      ScaledRoundsUp(policy.maxUnavailable.p, total, k - 1);
    }
  }

  /** How many candidates the pass starts. */
  function Quota(policy: Policy, inProgress: nat, failed: nat, candidates: nat, total: nat): nat {
    var check := PolicyCheck(policy, inProgress, failed, total);
    if candidates == 0 || check.violated then 0 else Min(check.allowed - inProgress, candidates)
  }

  /** Admission is exact and maximal: some k nodes are started and both limits
      hold with them, and one more candidate would break a limit. */
  lemma QuotaExactAndMaximal(policy: Policy, inProgress: nat, failed: nat, candidates: nat, total: nat)
    ensures var k := Quota(policy, inProgress, failed, candidates, total);
            && k <= candidates
            && (k > 0 ==>
                  && inProgress + k + failed <= Budget(policy, total)
                  && (policy.maxParallel != 0 ==> inProgress + k <= policy.maxParallel))
            && (k < candidates ==>
                  || inProgress + k + failed >= Budget(policy, total)
                  || (policy.maxParallel != 0 && inProgress + k >= policy.maxParallel))
  {
  }

  /** The same on the policy's own numbers: with the k nodes a pass starts, the
      policy is met; with one more candidate it would not be. */
  lemma QuotaMeetsPolicy(policy: Policy, inProgress: nat, failed: nat, candidates: nat, total: nat)
    ensures var k := Quota(policy, inProgress, failed, candidates, total);
            && k <= candidates
            && (k > 0 ==>
                  && Allows(policy.maxUnavailable, total, inProgress + k + failed)
                  && (policy.maxParallel != 0 ==> inProgress + k <= policy.maxParallel))
            && (k < candidates ==>
                  || !Allows(policy.maxUnavailable, total, inProgress + k + failed + 1)
                  || (policy.maxParallel != 0 && inProgress + k >= policy.maxParallel))
  {
    var k := Quota(policy, inProgress, failed, candidates, total);
    QuotaExactAndMaximal(policy, inProgress, failed, candidates, total);
    AllowsIff(policy, total, inProgress + k + failed);
    AllowsIff(policy, total, inProgress + k + failed + 1);
  }
}

/** The upgrade manager as the operator runs it: an object whose maps are
    updated in place by the reconcile pass and by worker goroutines. Every method
    is proved to take exactly the steps of UpgradeMachine. */
module UpgradeManager {
  import opened Base
  import opened NodeUpgrade
  import opened UpgradeMachine
  import opened UpgradeSafety
  import opened UpgradeWorker

  function Looks(views: seq<NodeView>): seq<Event> {
    if views == [] then [] else Looks(views[..|views| - 1]) + [Look(views[|views| - 1])]
  }

  function Admits(times: seq<Instant>): seq<Event> {
    if times == [] then [] else Admits(times[..|times| - 1]) + [Admit(times[|times| - 1])]
  }

  /** The steps of one uninterrupted pass. */
  function PassEvents(version: string, views: seq<NodeView>, times: seq<Instant>): seq<Event> {
    [BeginPass(version)] + Looks(views) + Admits(times) + [EndPass]
  }

  lemma LooksNext(begin: seq<Event>, views: seq<NodeView>, i: nat)
    requires i < |views|
    ensures begin + Looks(views[..i]) + [Look(views[i])] == begin + Looks(views[..i + 1])
  {
    assert views[..i + 1][..i] == views[..i];
  }

  lemma NoneEmptied(s: UpgradeState, version: string, v: NodeView)
    requires !s.Empty?
    ensures !NodeReady(s, version, v).state.Empty? && !ClassifyFree(s, version, v).state.Empty?
  {
  }

  lemma LookLeads(cfg: Config, s0: State, run: seq<Event>, s: State, v: NodeView)
    requires Leads(cfg, s0, run, s) && Enabled(cfg, s, Look(v))
    ensures Leads(cfg, s0, run + [Look(v)], LookStep(s, v))
  {
    PlayAppend(cfg, s0, run, Look(v));
  }

  lemma AdmitLeads(cfg: Config, s0: State, run: seq<Event>, s: State, node: NodeId, at: Instant)
    requires Leads(cfg, s0, run, s) && Enabled(cfg, s, Admit(at))
    requires s.phase.admitted < Count(s.phase.seen, Candidate)
    requires node == Candidates(cfg.nodes, s.phase.seen)[s.phase.admitted]
    ensures Leads(cfg, s0, run + [Admit(at)], StartOn(s, node, at))
  {
    PlayAppend(cfg, s0, run, Admit(at));
  }

  /** One view of every node, in order, from the given time on. */
  ghost predicate ViewsFit(nodes: seq<NodeId>, clock: Instant, views: seq<NodeView>) {
    && |views| == |nodes|
    && (forall i :: 0 <= i < |views| ==> views[i].name == nodes[i] && clock <= views[i].now)
    && (forall i, j :: 0 <= i < j < |views| ==> views[i].now <= views[j].now)
  }

  ghost predicate TimesFit(clock: Instant, times: seq<Instant>) {
    && (forall i :: 0 <= i < |times| ==> clock <= times[i])
    && (forall i, j :: 0 <= i < j < |times| ==> times[i] <= times[j])
  }

  /** The candidates and the counters of a pass are those of the nodes it has seen. */
  ghost predicate Counted(nodes: seq<NodeId>, seen: seq<Seen>, candidates: seq<NodeId>, done: nat, inProgress: nat,
                          failed: nat, installing: nat, notReady: nat)
  {
    && |seen| <= |nodes|
    && candidates == Candidates(nodes, seen)
    && failed == Count(seen, FailedNode) && inProgress == Count(seen, Progressing)
    && done == Count(seen, Done) && installing == Count(seen, Installing) && notReady == Count(seen, NotReady)
  }

  class UpgradeMgr {
    var nodeStatus: Statuses
    var nodeUpgradeStartTime: Starts
    var currentVersion: string
    var workers: map<nat, Worker>
    var spawned: nat
    ghost var clock: Instant
    ghost var admittedAt: map<NodeId, Instant>

    ghost function Snapshot(phase: Phase): State
      reads this
    {
      State(nodeStatus, nodeUpgradeStartTime, currentVersion, workers, spawned, phase, clock, admittedAt)
    }

    constructor ()
      ensures Snapshot(Idle) == INITIAL
    {
      nodeStatus, nodeUpgradeStartTime, currentVersion := map[], map[], "";
      workers, spawned := map[], 0;
      clock, admittedAt := 0, map[];
    }

    method SetNodeStatus(node: NodeId, s: UpgradeState)
      modifies this`nodeStatus
      ensures nodeStatus == SetStatus(old(nodeStatus), node, s)
    {
      if StatusOf(nodeStatus, node) != s {
        nodeStatus := nodeStatus[node := s];
      }
    }

    method HandleInitStatus(v: NodeView)
      modifies this`nodeStatus
      ensures nodeStatus == SetStatus(old(nodeStatus), v.name, InitStatus(StatusOf(old(nodeStatus), v.name), v))
    {
      if StatusOf(nodeStatus, v.name) == Empty {
        SetNodeStatus(v.name, NotStarted);
      }
      if IsFailed(StatusOf(nodeStatus, v.name)) {
        if v.requeueLabel {
          if !v.labelRemoved { return; }
          if !v.versionReset { return; }
          if !v.podsCleaned { return; }
          SetNodeStatus(v.name, NotStarted);
        }
      }
    }

    method HandleUpgradeTimedOut(v: NodeView)
      modifies this`nodeStatus
      ensures nodeStatus == SetStatus(old(nodeStatus), v.name,
                TimeoutStatus(StatusOf(old(nodeStatus), v.name), StartOf(nodeUpgradeStartTime, v.name), v))
    {
      var s := StatusOf(nodeStatus, v.name);
      if s == Started || s == InProgress || s == RebootInProgress {
        if TimeExceeded(StartOf(nodeUpgradeStartTime, v.name), v) {
          SetNodeStatus(v.name, TimedOut);
        }
      }
    }

    method IsNodeNmcStatusMissing(v: NodeView) returns (missing: bool)
      modifies this`nodeStatus
      ensures var a := NmcStatusMissing(StatusOf(old(nodeStatus), v.name), v);
              missing == a.yes && nodeStatus == SetStatus(old(nodeStatus), v.name, a.state)
    {
      if v.persisted.Some? {
        if v.persisted.value.image == "" && StatusOf(nodeStatus, v.name) == InProgress {
          if !v.nmcUncordon {
            SetNodeStatus(v.name, UncordonFailed);
            return false;
          }
          return true;
        }
      }
      return false;
    }

    method IsNodeReady(version: string, v: NodeView) returns (ready: bool)
      modifies this`nodeStatus
      ensures var a := NodeReady(StatusOf(old(nodeStatus), v.name), version, v);
              ready == a.yes && nodeStatus == SetStatus(old(nodeStatus), v.name, a.state)
      ensures ready <==>
                && HasWantedImage(version, v)
                && (StatusOf(old(nodeStatus), v.name) in {Complete, InstallComplete} || v.readyUncordon)
    {
      if v.persisted.Some? {
        if HasSuffix(v.persisted.value.image, TargetVersion(version, v)) {
          var current := StatusOf(nodeStatus, v.name);
          if current == Complete || current == InstallComplete {
            return true;
          }
          if !v.readyUncordon {
            SetNodeStatus(v.name, UncordonFailed);
            return false;
          }
          if current == InstallInProgress {
            SetNodeStatus(v.name, InstallComplete);
          } else {
            SetNodeStatus(v.name, Complete);
          }
          return true;
        }
      }
      return false;
    }

    method IsNodeNew(version: string, v: NodeView) returns (isNew: bool)
      modifies this`nodeStatus
      ensures var a := NodeNew(StatusOf(old(nodeStatus), v.name), version, v);
              isNew == a.yes && nodeStatus == SetStatus(old(nodeStatus), v.name, a.state)
    {
      if v.versionLabel.None? {
        SetNodeStatus(v.name, InstallInProgress);
        return true;
      }
      if v.persisted.Some? {
        if v.versionLabel.value != version && v.persisted.value.status == InstallInProgress {
          if !v.versionUpdated {
            SetNodeStatus(v.name, Failed);
          }
          SetTwice(old(nodeStatus), v.name, Failed, InstallInProgress);
          SetNodeStatus(v.name, InstallInProgress);
          return true;
        }
      }
      return false;
    }

    method IsNodeStateUpgradeInProgress(version: string, v: NodeView) returns (running: bool)
      modifies this`nodeStatus
      ensures var a := UpgradeInProgress(StatusOf(old(nodeStatus), v.name), version, v);
              running == a.yes && nodeStatus == SetStatus(old(nodeStatus), v.name, a.state)
    {
      if v.versionLabel.Some? {
        if v.versionLabel.value != version && StatusOf(nodeStatus, v.name) == InProgress {
          if !v.versionUpdated {
            SetNodeStatus(v.name, Failed);
          }
          return true;
        }
      }
      return StatusOf(nodeStatus, v.name) == InProgress;
    }

    /** Steps 1 and 2 of the node loop. */
    method RefreshNode(v: NodeView)
      modifies this`nodeStatus
      ensures nodeStatus == SetStatus(old(nodeStatus), v.name,
                Refreshed(StatusOf(old(nodeStatus), v.name), StartOf(nodeUpgradeStartTime, v.name), v))
      ensures StatusOf(nodeStatus, v.name) != Empty
    {
      ghost var before := nodeStatus;
      HandleInitStatus(v);
      HandleUpgradeTimedOut(v);
      SetTwice(before, v.name, InitStatus(StatusOf(before, v.name), v), StatusOf(nodeStatus, v.name));
    }

    /** Steps 7 to 9 of the node loop. */
    method ClassifyUnfinishedNode(version: string, v: NodeView) returns (bucket: Bucket)
      modifies this`nodeStatus
      ensures var r := ClassifyUnfinished(StatusOf(old(nodeStatus), v.name), version, v);
              bucket == r.bucket && nodeStatus == SetStatus(old(nodeStatus), v.name, r.state)
    {
      var isNew := IsNodeNew(version, v);
      if isNew {
        return Installing;
      }
      if StatusOf(nodeStatus, v.name) == InstallInProgress {
        return Installing;
      }
      var running := IsNodeStateUpgradeInProgress(version, v);
      if running {
        return Progressing;
      }
      if !ReadyForUpgrade(v) {
        return NotReady;
      }
      return Candidate;
    }

    /** Steps 6 to 9 of the node loop. */
    method ClassifyFreeNode(version: string, v: NodeView) returns (bucket: Bucket)
      requires StatusOf(nodeStatus, v.name) != Empty
      modifies this`nodeStatus
      ensures var r := ClassifyFree(StatusOf(old(nodeStatus), v.name), version, v);
              bucket == r.bucket && nodeStatus == SetStatus(old(nodeStatus), v.name, r.state)
      ensures StatusOf(nodeStatus, v.name) != Empty
    {
      ghost var before := nodeStatus;
      NoneEmptied(StatusOf(before, v.name), version, v);
      var ready := IsNodeReady(version, v);
      ghost var middle := StatusOf(nodeStatus, v.name);
      if ready {
        return Done;
      }
      bucket := ClassifyUnfinishedNode(version, v);
      SetTwice(before, v.name, middle, StatusOf(nodeStatus, v.name));
    }

    /** Steps 3 to 9 of the node loop. */
    method ClassifyNode(version: string, v: NodeView) returns (bucket: Bucket)
      requires StatusOf(nodeStatus, v.name) != Empty
      modifies this`nodeStatus
      ensures var r := ClassifyCurrent(StatusOf(old(nodeStatus), v.name), version, v);
              bucket == r.bucket && nodeStatus == SetStatus(old(nodeStatus), v.name, r.state)
      ensures StatusOf(nodeStatus, v.name) != Empty
    {
      ghost var before := nodeStatus;
      if IsFailed(StatusOf(nodeStatus, v.name)) {
        return FailedNode;
      }
      var missing := IsNodeNmcStatusMissing(v);
      if missing {
        return Progressing;
      }
      ghost var middle := StatusOf(nodeStatus, v.name);
      if IsUpgrading(StatusOf(nodeStatus, v.name)) {
        return Progressing;
      }
      bucket := ClassifyFreeNode(version, v);
      SetTwice(before, v.name, middle, StatusOf(nodeStatus, v.name));
    }

    /** One turn of the node loop: what a Look step does to the fields. */
    method LookOnce(ghost phase: Phase, v: NodeView) returns (bucket: Bucket)
      requires phase.Scanning?
      modifies this
      ensures Snapshot(phase.(seen := phase.seen + [Seen(bucket, v.now, v.persisted.Some?)]))
              == LookStep(old(Snapshot(phase)), v)
    {
      ghost var before := nodeStatus;
      RefreshNode(v);
      ghost var refreshed := StatusOf(nodeStatus, v.name);
      bucket := ClassifyNode(currentVersion, v);
      SetTwice(before, v.name, refreshed, StatusOf(nodeStatus, v.name));
      if ClearsStart(bucket) {
        nodeUpgradeStartTime := nodeUpgradeStartTime[v.name := NoStamp];
      }
      clock := v.now;
    }

    /** One turn of the node loop is one Look step of the run so far. */
    method LookAtNode(ghost cfg: Config, ghost s0: State, ghost run: seq<Event>, ghost phase: Phase, v: NodeView)
      returns (bucket: Bucket)
      requires Leads(cfg, s0, run, Snapshot(phase))
      requires phase.Scanning? && Enabled(cfg, Snapshot(phase), Look(v))
      modifies this
      ensures Leads(cfg, s0, run + [Look(v)],
                    Snapshot(phase.(seen := phase.seen + [Seen(bucket, v.now, v.persisted.Some?)])))
      ensures clock == v.now
    {
      LookLeads(cfg, s0, run, Snapshot(phase), v);
      bucket := LookOnce(phase, v);
    }

    method MarkStarted(ghost phase: Phase, node: NodeId, at: Instant)
      requires phase.Scanning?
      modifies this
      ensures Snapshot(phase.(admitted := phase.admitted + 1)) == StartOn(old(Snapshot(phase)), node, at)
    {
      SetNodeStatus(node, Started);
      nodeUpgradeStartTime := nodeUpgradeStartTime[node := Stamp(Seconds(at))];
      workers := workers[spawned := Worker(node, Begin)];
      spawned := spawned + 1;
      clock := at;
      admittedAt := admittedAt[node := at];
    }

    /** Start one candidate: one Admit step of the run so far. */
    method StartNode(ghost cfg: Config, ghost s0: State, ghost run: seq<Event>, ghost phase: Phase,
                     node: NodeId, at: Instant)
      requires Leads(cfg, s0, run, Snapshot(phase))
      requires phase.Scanning? && Enabled(cfg, Snapshot(phase), Admit(at))
      requires phase.admitted < Count(phase.seen, Candidate)
      requires node == Candidates(cfg.nodes, phase.seen)[phase.admitted]
      modifies this
      ensures Leads(cfg, s0, run + [Admit(at)], Snapshot(phase.(admitted := phase.admitted + 1)))
      ensures clock == at
    {
      AdmitLeads(cfg, s0, run, Snapshot(phase), node, at);
      MarkStarted(phase, node, at);
    }

    /** Turn i of the node loop, after the looks at the nodes before it. */
    method ScanNode(ghost cfg: Config, ghost s0: State, ghost begin: seq<Event>, ghost seen: seq<Seen>,
                    views: seq<NodeView>, i: nat)
      returns (bucket: Bucket, ghost x: Seen)
      requires i < |views| && |seen| == i && i < |cfg.nodes| && views[i].name == cfg.nodes[i] && clock <= views[i].now
      requires Leads(cfg, s0, begin + Looks(views[..i]), Snapshot(Scanning(seen, 0)))
      modifies this
      ensures x.bucket == bucket
      ensures Leads(cfg, s0, begin + Looks(views[..i + 1]), Snapshot(Scanning(seen + [x], 0)))
      ensures clock == views[i].now
    {
      bucket := LookAtNode(cfg, s0, begin + Looks(views[..i]), Scanning(seen, 0), views[i]);
      x := Seen(bucket, views[i].now, views[i].persisted.Some?);
      LooksNext(begin, views, i);
    }

    /** The end of a turn: the node goes into one counter, or becomes a candidate. */
    static method CountNode(ghost nodes: seq<NodeId>, ghost seen: seq<Seen>, ghost x: Seen, bucket: Bucket,
                            name: NodeId, candidates0: seq<NodeId>, done0: nat, inProgress0: nat, failed0: nat,
                            installing0: nat, notReady0: nat)
      returns (candidates: seq<NodeId>, done: nat, inProgress: nat, failed: nat, installing: nat, notReady: nat)
      requires Counted(nodes, seen, candidates0, done0, inProgress0, failed0, installing0, notReady0)
      requires |seen| < |nodes| && name == nodes[|seen|] && x.bucket == bucket
      ensures Counted(nodes, seen + [x], candidates, done, inProgress, failed, installing, notReady)
    {
      CountedNext(nodes, seen, x, candidates0, done0, inProgress0, failed0, installing0, notReady0);
      candidates, done, inProgress := candidates0, done0, inProgress0;
      failed, installing, notReady := failed0, installing0, notReady0;
      match bucket
      case FailedNode => failed := failed + 1;
      case Progressing => inProgress := inProgress + 1;
      case Done => done := done + 1;
      case Installing => installing := installing + 1;
      case NotReady => notReady := notReady + 1;
      case Candidate => candidates := candidates + [name];
    }

    /** The node loop of a pass: the counters, the candidates, the steps taken. */
    method ScanNodes(cfg: Config, ghost s0: State, ghost begin: seq<Event>, views: seq<NodeView>)
      returns (candidates: seq<NodeId>, done: nat, inProgress: nat, failed: nat, installing: nat, notReady: nat,
               ghost seen: seq<Seen>)
      requires ViewsFit(cfg.nodes, clock, views)
      requires Leads(cfg, s0, begin, Snapshot(Scanning([], 0)))
      modifies this
      ensures |seen| == |cfg.nodes|
      ensures Leads(cfg, s0, begin + Looks(views), Snapshot(Scanning(seen, 0)))
      ensures Counted(cfg.nodes, seen, candidates, done, inProgress, failed, installing, notReady)
      ensures clock == if views == [] then old(clock) else views[|views| - 1].now
    {
      candidates, seen := [], [];
      done, inProgress, failed, installing, notReady := 0, 0, 0, 0, 0;
      assert begin + Looks(views[..0]) == begin;
      for i := 0 to |views|
        invariant |seen| == i
        invariant Leads(cfg, s0, begin + Looks(views[..i]), Snapshot(Scanning(seen, 0)))
        invariant clock == if i == 0 then old(clock) else views[i - 1].now
        invariant Counted(cfg.nodes, seen, candidates, done, inProgress, failed, installing, notReady)
      {
        var bucket;
        ghost var x;
        bucket, x := ScanNode(cfg, s0, begin, seen, views, i);
        candidates, done, inProgress, failed, installing, notReady :=
          CountNode(cfg.nodes, seen, x, bucket, views[i].name,
                    candidates, done, inProgress, failed, installing, notReady);
        seen := seen + [x];
      }
      assert views[..|views|] == views;
    }

    /** The admission loop of a pass: the first candidates in node order are started. */
    method StartCandidates(cfg: Config, ghost s0: State, ghost scan: seq<Event>, ghost seen: seq<Seen>,
                           candidates: seq<NodeId>, quota: nat, times: seq<Instant>)
      requires |seen| == |cfg.nodes| && candidates == Candidates(cfg.nodes, seen)
      requires quota == PassQuota(cfg, seen) <= |candidates| && quota <= |times|
      requires TimesFit(clock, times)
      requires Leads(cfg, s0, scan, Snapshot(Scanning(seen, 0)))
      modifies this
      ensures Leads(cfg, s0, scan + Admits(times[..quota]), Snapshot(Scanning(seen, quota)))
    {
      ghost var run := scan;
      assert run == scan + Admits(times[..0]);
      for i := 0 to quota
        invariant Leads(cfg, s0, run, Snapshot(Scanning(seen, i)))
        invariant run == scan + Admits(times[..i])
        invariant forall j :: i <= j < |times| ==> clock <= times[j]
      {
        StartNode(cfg, s0, run, Scanning(seen, i), candidates[i], times[i]);
        run := run + [Admit(times[i])];
        assert times[..i + 1][..i] == times[..i];
      }
    }

    /** What a pass does with its counters: it asks to be called again exactly
        when not every node is done. */
    static method Decide(policy: Policy, total: nat, candidates: nat, done: nat, inProgress: nat, failed: nat,
                         installing: nat, notReady: nat)
      returns (requeue: bool, started: nat)
      requires candidates + done + inProgress + failed + installing + notReady == total
      ensures started == Quota(policy, inProgress, failed, candidates, total) <= candidates
      ensures started > 0 ==>
                && Allows(policy.maxUnavailable, total, inProgress + started + failed)
                && (policy.maxParallel != 0 ==> inProgress + started <= policy.maxParallel)
      ensures started < candidates ==>
                || !Allows(policy.maxUnavailable, total, inProgress + started + failed + 1)
                || (policy.maxParallel != 0 && inProgress + started >= policy.maxParallel)
      ensures requeue <==> done < total
    {
      QuotaMeetsPolicy(policy, inProgress, failed, candidates, total);
      if candidates == 0 && (inProgress > 0 || failed > 0 || installing > 0) {
        return true, 0;
      }
      if done == total || candidates == 0 {
        return notReady > 0, 0;
      }
      var check := PolicyCheck(policy, inProgress, failed, total);
      if check.violated {
        return true, 0;
      }
      return true, Min(check.allowed - inProgress, candidates);
    }

    /** A new version makes the pass forget every status. */
    method TakeVersion(ghost cfg: Config, version: string)
      modifies this`nodeStatus, this`currentVersion
      ensures Leads(cfg, old(Snapshot(Idle)), [BeginPass(version)], Snapshot(Scanning([], 0)))
    {
      ghost var s0 := Snapshot(Idle);
      if currentVersion != "" && currentVersion != version {
        nodeStatus := map[];
      }
      currentVersion := version;
      assert [BeginPass(version)][1..] == [];
      assert Snapshot(Scanning([], 0)) == Step(cfg, s0, BeginPass(version));
    }

    /** A reconcile pass. views are what it sees of the nodes, times the clock
        readings of the start times it sets. It asks to be called again exactly
        when some node is not done. */
    method HandleUpgrade(cfg: Config, enabled: bool, version: string, views: seq<NodeView>, times: seq<Instant>)
      returns (requeue: bool, started: nat, ghost seen: seq<Seen>)
      requires ViewsFit(cfg.nodes, clock, views) && |times| == |cfg.nodes|
      requires TimesFit(if views == [] then clock else views[|views| - 1].now, times)
      modifies this
      ensures !enabled ==> !requeue && started == 0 && Snapshot(Idle) == old(Snapshot(Idle))
      ensures enabled ==>
                && |seen| == |cfg.nodes|
                && started == PassQuota(cfg, seen) <= |times|
                && Leads(cfg, old(Snapshot(Idle)), PassEvents(version, views, times[..started]), Snapshot(Idle))
                && (requeue <==> exists i :: 0 <= i < |seen| && seen[i].bucket != Done)
    {
      if !enabled {
        return false, 0, [];
      }
      ghost var s0 := Snapshot(Idle);
      TakeVersion(cfg, version);
      var candidates, done, inProgress, failed, installing, notReady;
      candidates, done, inProgress, failed, installing, notReady, seen :=
        ScanNodes(cfg, s0, [BeginPass(version)], views);
      ghost var scan := [BeginPass(version)] + Looks(views);
      BucketsPartition(seen, |seen|);
      AllDone(seen, |seen|);
      requeue, started := Decide(cfg.policy, |views|, |candidates|, done, inProgress, failed, installing, notReady);
      StartCandidates(cfg, s0, scan, seen, candidates, started, times);
      PlayAppend(cfg, s0, scan + Admits(times[..started]), EndPass);
    }

    /** HandleDelete and a version change forget every status. */
    method ClearNodeStatus(ghost cfg: Config)
      modifies this`nodeStatus
      ensures Snapshot(Idle) == Step(cfg, old(Snapshot(Idle)), DropStatuses)
    {
      nodeStatus := map[];
    }

    /** One reply reaches one worker goroutine: one Work step. */
    method Advance(cfg: Config, ghost phase: Phase, id: nat, reply: Reply)
      requires id in workers
      modifies this`nodeStatus, this`workers
      ensures Snapshot(phase) == Step(cfg, old(Snapshot(phase)), Work(id, reply))
    {
      var w := workers[id];
      var m := WorkerMove(w.pc, cfg.reboot, reply);
      if m.write.Some? {
        SetNodeStatus(w.node, m.write.value);
      }
      if m.next.Some? {
        workers := workers[id := w.(pc := m.next.value)];
      } else {
        workers := workers - {id};
      }
    }

    /** handleNodeUpgrade as one thread of control, calls answered by rs in order.
        It ends in the status the worker of the state machine ends in. */
    method HandleNodeUpgrade(node: NodeId, reboot: bool, rs: seq<Reply>)
      requires |rs| == MAX_CALLS
      requires StatusOf(nodeStatus, node) != Empty
      modifies this`nodeStatus
      ensures StatusOf(nodeStatus, node) == WorkerOutcome(Begin, reboot, old(StatusOf(nodeStatus, node)), rs)
      ensures forall other :: other != node ==> StatusOf(nodeStatus, other) == StatusOf(old(nodeStatus), other)
    {
      ghost var s := StatusOf(nodeStatus, node);
      assert rs == rs[0..];
      OutcomeStep(Begin, reboot, s, rs, 0);
      OutcomeStep(Cordon, reboot, s, rs, 1);
      OutcomeStep(Drain, reboot, s, rs, 2);
      OutcomeStep(Label, reboot, s, rs, 3);
      if rs[0].done {
        SetNodeStatus(node, InProgress);
        return;
      }
      if rs[1].current {
        if !rs[1].ok {
          SetNodeStatus(node, CordonFailed);
          return;
        }
      } else {
        return;
      }
      if rs[2].current {
        if !rs[2].ok {
          SetNodeStatus(node, DrainFailed);
          return;
        }
      } else {
        return;
      }
      if reboot {
        HandleNodeReboot(node, rs[3..]);
      } else if !rs[3].ok {
        SetNodeStatus(node, Failed);
      } else {
        SetNodeStatus(node, InProgress);
      }
    }

    method HandleNodeReboot(node: NodeId, rs: seq<Reply>)
      requires |rs| == MAX_CALLS - 3
      requires StatusOf(nodeStatus, node) != Empty
      modifies this`nodeStatus
      ensures StatusOf(nodeStatus, node) == WorkerOutcome(PodCleanup, true, old(StatusOf(nodeStatus, node)), rs)
      ensures forall other :: other != node ==> StatusOf(nodeStatus, other) == StatusOf(old(nodeStatus), other)
    {
      ghost var s := StatusOf(nodeStatus, node);
      assert rs == rs[0..];
      OutcomeStep(PodCleanup, true, s, rs, 0);
      OutcomeStep(RebootLabel, true, s, rs, 1);
      OutcomeStep(PodCreate, true, s, rs, 2);
      OutcomeStep(Confirm, true, s, rs, 3);
      if !rs[0].ok {
        SetNodeStatus(node, RebootFailed);
        return;
      }
      if !rs[1].ok {
        SetNodeStatus(node, Failed);
        return;
      }
      if !rs[2].ok {
        SetNodeStatus(node, RebootFailed);
        return;
      }
      if !rs[3].ok {
        return;
      }
      if rs[3].current {
        SetNodeStatus(node, RebootInProgress);
      }
      DeleteRebootPod(node, rs[4..]);
    }

    method DeleteRebootPod(node: NodeId, rs: seq<Reply>)
      requires |rs| == MAX_CALLS - 7
      requires StatusOf(nodeStatus, node) != Empty
      modifies this`nodeStatus
      ensures StatusOf(nodeStatus, node) == WorkerOutcome(FindPod, true, old(StatusOf(nodeStatus, node)), rs)
      ensures forall other :: other != node ==> StatusOf(nodeStatus, other) == StatusOf(old(nodeStatus), other)
    {
      ghost var s := StatusOf(nodeStatus, node);
      if !rs[0].ok {
        return;
      }
      for i := 0 to MAX_POLLS
        invariant nodeStatus == old(nodeStatus)
        invariant WorkerOutcome(FindPod, true, s, rs) == WorkerOutcome(Await(i), true, s, rs[1 + i..])
      {
        var r := rs[1 + i];
        assert rs[1 + i..][1..] == rs[1 + (i + 1)..];
        if !r.ok {
          return;
        }
        if r.done {
          if r.current {
            SetNodeStatus(node, InProgress);
          }
          return;
        }
      }
      var last := rs[1 + MAX_POLLS];
      if !last.ok {
        return;
      }
      if last.current {
        SetNodeStatus(node, InProgress);
      }
    }
  }

  lemma CountsExtend(nodes: seq<NodeId>, seen: seq<Seen>, x: Seen)
    requires |seen| < |nodes|
    ensures forall b :: Count(seen + [x], b) == Count(seen, b) + if x.bucket == b then 1 else 0
    ensures Candidates(nodes, seen + [x])
            == Candidates(nodes, seen) + if x.bucket.Candidate? then [nodes[|seen|]] else []
  {
    forall b ensures Count(seen + [x], b) == Count(seen, b) + if x.bucket == b then 1 else 0 {
      CountExtends(seen, x, b, |seen|);
    }
    CandidatesExtend(nodes, seen, x, |seen|);
  }

  lemma CountedNext(nodes: seq<NodeId>, seen: seq<Seen>, x: Seen, candidates: seq<NodeId>, done: nat,
                    inProgress: nat, failed: nat, installing: nat, notReady: nat)
    requires Counted(nodes, seen, candidates, done, inProgress, failed, installing, notReady) && |seen| < |nodes|
    ensures Counted(nodes, seen + [x],
                    if x.bucket.Candidate? then candidates + [nodes[|seen|]] else candidates,
                    if x.bucket.Done? then done + 1 else done,
                    if x.bucket.Progressing? then inProgress + 1 else inProgress,
                    if x.bucket.FailedNode? then failed + 1 else failed,
                    if x.bucket.Installing? then installing + 1 else installing,
                    if x.bucket.NotReady? then notReady + 1 else notReady)
  {
    CountsExtend(nodes, seen, x);
  }

  lemma {:induction false} CandidatesExtend(nodes: seq<NodeId>, seen: seq<Seen>, x: Seen, upTo: nat)
    requires upTo <= |seen| < |nodes|
    ensures CandidatesUpTo(nodes, seen + [x], upTo) == CandidatesUpTo(nodes, seen, upTo)
  {
    if upTo > 0 {
      CandidatesExtend(nodes, seen, x, upTo - 1);
    }
  }

  lemma {:induction false} AllDone(seen: seq<Seen>, upTo: nat)
    requires upTo <= |seen|
    ensures CountOf(seen, Done, upTo) == upTo <==> forall i :: 0 <= i < upTo ==> seen[i].bucket == Done
  {
    if upTo > 0 {
      AllDone(seen, upTo - 1);
    }
  }
}

/** Where the guarantees of UpgradeSafety end: runs that break them once an
    assumption is dropped, and what the Reboot-Failed status does to capacity. */
module UpgradeLimits {
  import opened Base
  import opened NodeUpgrade
  import opened UpgradeMachine
  import opened UpgradeSafety
  import ImageTags

  /** States some run leads to, without assumption W. */
  ghost predicate Reachable(cfg: Config, s: State) {
    exists run :: Legal(cfg, INITIAL, run) && UncordonsGoWell(run) && Play(cfg, INITIAL, run) == s
  }

  lemma ReachNext(cfg: Config, s: State, e: Event)
    requires Reachable(cfg, s) && Enabled(cfg, s, e) && (e.Look? ==> UncordonsSucceed(e.view))
    ensures Reachable(cfg, Step(cfg, s, e))
  {
    var run :| Legal(cfg, INITIAL, run) && UncordonsGoWell(run) && Play(cfg, INITIAL, run) == s;
    PlayAppend(cfg, INITIAL, run, e);
    assert UncordonsGoWell(run + [e]);
  }

  const A := NodeId("a")

  /** A view of a node whose version label is there but old. */
  function OldView(name: NodeId, now: Instant, unschedulable: bool): NodeView {
    NodeView(name, now, false, false, false, false, None, true, true, Some("0"), true, "", unschedulable, [])
  }

  // ------------------------------------------------------------- without W

  const ONE_NODE := Config([A], Policy(1, Number(1)), false)

  /** Before a pass over the one node: what it will classify. */
  predicate Ready(s: State, st: UpgradeState, start: Stamp, now: Instant) {
    s.phase.Idle? && (s.version == "" || s.version == "1") && s.clock <= now &&
    StatusOf(s.status, A) == st && StartOf(s.start, A) == start
  }

  lemma ScanOne(s: State, v: NodeView, st: UpgradeState, start: Stamp, r: Verdict) returns (s': State)
    requires Reachable(ONE_NODE, s) && Ready(s, st, start, v.now)
    requires v.name == A && UncordonsSucceed(v) && r == Classify(st, start, "1", v)
    ensures Reachable(ONE_NODE, s')
    ensures s'.phase == Scanning([Seen(r.bucket, v.now, v.persisted.Some?)], 0)
    ensures s'.version == "1" && s'.clock == v.now && s'.workers == s.workers && s'.spawned == s.spawned
    ensures StatusOf(s'.status, A) == r.state
    ensures StartOf(s'.start, A) == if ClearsStart(r.bucket) then NoStamp else start
  {
    var s1 := Step(ONE_NODE, s, BeginPass("1"));
    ReachNext(ONE_NODE, s, BeginPass("1"));
    s' := Step(ONE_NODE, s1, Look(v));
    ReachNext(ONE_NODE, s1, Look(v));
  }

  lemma StartOne(s: State, c: Seen) returns (s': State)
    requires Reachable(ONE_NODE, s) && s.phase == Scanning([c], 0) && c.bucket == Candidate
    ensures Reachable(ONE_NODE, s')
    ensures s'.phase.Idle? && s'.version == s.version && s'.clock == s.clock
    ensures s'.workers == s.workers[s.spawned := Worker(A, Begin)] && s'.spawned == s.spawned + 1
    ensures StatusOf(s'.status, A) == Started && StartOf(s'.start, A) == Stamp(Seconds(s.clock))
  {
    OnlyCandidate(ONE_NODE, c);
    var s1 := Step(ONE_NODE, s, Admit(s.clock));
    ReachNext(ONE_NODE, s, Admit(s.clock));
    s' := Step(ONE_NODE, s1, EndPass);
    ReachNext(ONE_NODE, s1, EndPass);
  }

  /** A view of node A with the retry label on it. */
  function RetryView(now: Instant): NodeView {
    OldView(A, now, false).(requeueLabel := true, labelRemoved := true, versionReset := true, podsCleaned := true)
  }

  function LateView(now: Instant): NodeView {
    OldView(A, now, false).(persisted := Some(ModuleStatus("img:os-0", Started, NoStamp)))
  }

  lemma RetryVerdicts()
    ensures Classify(Empty, NoStamp, "1", OldView(A, 0, false)) == Verdict(NotStarted, Candidate)
    ensures Classify(Started, Stamp(0), "1", LateView(3 * HOUR)) == Verdict(TimedOut, FailedNode)
    ensures Classify(TimedOut, NoStamp, "1", RetryView(3 * HOUR)) == Verdict(NotStarted, Candidate)
  {
    LookSparesUpgrading(Started, Stamp(0), "1", LateView(3 * HOUR));
  }

  /** The node is started at 0. */
  lemma FirstStart() returns (s: State)
    ensures Reachable(ONE_NODE, s) && Ready(s, Started, Stamp(0), 0)
    ensures s.spawned == 1 && 0 in s.workers && s.workers[0].node == A
  {
    RetryVerdicts();
    assert Legal(ONE_NODE, INITIAL, []) && UncordonsGoWell([]) && Play(ONE_NODE, INITIAL, []) == INITIAL;
    s := ScanOne(INITIAL, OldView(A, 0, false), Empty, NoStamp, Verdict(NotStarted, Candidate));
    s := StartOne(s, s.phase.seen[0]);
  }

  /** Three hours later it is timed out, and its worker is still there. */
  lemma TimesOut(s: State) returns (s': State)
    requires Reachable(ONE_NODE, s) && Ready(s, Started, Stamp(0), 0)
    ensures Reachable(ONE_NODE, s') && Ready(s', TimedOut, NoStamp, 3 * HOUR)
    ensures s'.spawned == s.spawned && s'.workers == s.workers
  {
    RetryVerdicts();
    var s1 := ScanOne(s, LateView(3 * HOUR), Started, Stamp(0), Verdict(TimedOut, FailedNode));
    OnlyFailed(ONE_NODE, s1.phase.seen[0]);
    ReachNext(ONE_NODE, s1, EndPass);
    s' := Step(ONE_NODE, s1, EndPass);
  }

  /** Without assumption W two workers can be live on one node: the first is
      timed out but not cancelled, and the retry label admits the node again. */
  lemma TwoWorkersWithoutW() returns (s: State)
    ensures ValidConfig(ONE_NODE) && Reachable(ONE_NODE, s)
    ensures 0 in s.workers && 1 in s.workers && s.workers[0].node == s.workers[1].node
  {
    RetryVerdicts();
    s := FirstStart();
    s := TimesOut(s);
    s := ScanOne(s, RetryView(3 * HOUR), TimedOut, NoStamp, Verdict(NotStarted, Candidate));
    s := StartOne(s, s.phase.seen[0]);
  }

  lemma OnlyCandidate(cfg: Config, c: Seen)
    requires cfg.policy == Policy(1, Number(1)) && |cfg.nodes| == 1 && c.bucket == Candidate
    ensures PassQuota(cfg, [c]) == 1 && Candidates(cfg.nodes, [c]) == [cfg.nodes[0]]
  {
    assert forall b :: CountOf([c], b, 1) == CountOf([c], b, 0) + if c.bucket == b then 1 else 0;
    assert CandidatesUpTo(cfg.nodes, [c], 1) == CandidatesUpTo(cfg.nodes, [c], 0) + [cfg.nodes[0]];
  }

  lemma OnlyFailed(cfg: Config, c: Seen)
    requires |cfg.nodes| == 1 && c.bucket == FailedNode
    ensures PassQuota(cfg, [c]) == 0
  {
    assert CountOf([c], Candidate, 1) == CountOf([c], Candidate, 0);
  }

  // ------------------------------------------------------------ failed uncordons

  /** States reached by runs that meet assumption W; smooth: and whose uncordon
      calls succeed. */
  ghost predicate CalmlyReachable(cfg: Config, s: State, smooth: bool) {
    exists run :: Calm(cfg, INITIAL, run) && (smooth ==> UncordonsGoWell(run)) && Leads(cfg, INITIAL, run, s)
  }

  lemma {:induction false} CalmAppend(cfg: Config, s: State, run: seq<Event>, e: Event)
    requires Calm(cfg, s, run) && Legal(cfg, s, run)
    requires Enabled(cfg, Play(cfg, s, run), e) && Undisturbed(Play(cfg, s, run), e)
    ensures Calm(cfg, s, run + [e])
    decreases |run|
  {
    if run == [] {
      assert run + [e] == [e] && [e][1..] == [];
    } else {
      CalmAppend(cfg, Step(cfg, s, run[0]), run[1..], e);
      assert (run + [e])[1..] == run[1..] + [e];
    }
  }

  lemma CalmNext(cfg: Config, s: State, e: Event, smooth: bool)
    requires CalmlyReachable(cfg, s, smooth) && Enabled(cfg, s, e) && Undisturbed(s, e)
    requires smooth && e.Look? ==> UncordonsSucceed(e.view)
    ensures CalmlyReachable(cfg, Step(cfg, s, e), smooth)
  {
    var run :| Calm(cfg, INITIAL, run) && (smooth ==> UncordonsGoWell(run)) && Leads(cfg, INITIAL, run, s);
    PlayAppend(cfg, INITIAL, run, e);
    CalmAppend(cfg, INITIAL, run, e);
    assert smooth ==> UncordonsGoWell(run + [e]);
    assert Leads(cfg, INITIAL, run + [e], Step(cfg, s, e));
  }

  lemma CalmStart(cfg: Config, smooth: bool)
    ensures CalmlyReachable(cfg, INITIAL, smooth)
  {
    assert Calm(cfg, INITIAL, []) && UncordonsGoWell([]) && Leads(cfg, INITIAL, [], INITIAL);
  }

  /** A view of a node that already has the image of version "1" and whose
      uncordon fails. */
  function StuckView(name: NodeId, now: Instant): NodeView {
    OldView(name, now, false).(
      persisted := Some(ModuleStatus("os-1", NotStarted, NoStamp)), readyUncordon := false)
  }

  lemma StuckVerdict(name: NodeId, now: Instant)
    ensures Classify(Empty, NoStamp, "1", StuckView(name, now)) == Verdict(UncordonFailed, Candidate)
  {
    assert HasSuffix("os-1", "1");
  }

  /** A first pass has found the first nodes right and could uncordon none. */
  ghost predicate StuckUpTo(cfg: Config, s: State, k: nat) {
    && CalmlyReachable(cfg, s, false)
    && s.workers == map[] && s.version == "1" && s.start == map[]
    && s.phase.Scanning? && |s.phase.seen| == k <= |cfg.nodes|
    && (forall i :: 0 <= i < k ==> StatusOf(s.status, cfg.nodes[i]).UncordonFailed?)
    && (forall i :: k <= i < |cfg.nodes| ==> StatusOf(s.status, cfg.nodes[i]).Empty?)
  }

  lemma {:induction false} StickAll(cfg: Config, s: State, k: nat) returns (s': State)
    requires ValidConfig(cfg) && StuckUpTo(cfg, s, k)
    ensures StuckUpTo(cfg, s', |cfg.nodes|)
    decreases |cfg.nodes| - k
  {
    if k == |cfg.nodes| {
      s' := s;
    } else {
      var v := StuckView(cfg.nodes[k], s.clock);
      StuckVerdict(v.name, v.now);
      CalmNext(cfg, s, Look(v), false);
      s' := StickAll(cfg, LookStep(s, v), k + 1);
    }
  }

  /** With uncordon replies free, MaxUnavailableNodes bounds the active and failed
      nodes in all calm runs exactly when it covers every node: one pass that
      finds every image right and can uncordon no node leaves all of them failed. */
  lemma BudgetHoldsIff(cfg: Config)
    requires ValidConfig(cfg)
    ensures (forall s :: CalmlyReachable(cfg, s, false) ==>
               |Occupied(cfg, s, true)| <= Budget(cfg.policy, |cfg.nodes|))
            <==> |cfg.nodes| <= Budget(cfg.policy, |cfg.nodes|)
  {
    AllNodes(cfg);
    var all := set n | n in cfg.nodes;
    if |cfg.nodes| <= Budget(cfg.policy, |cfg.nodes|) {
      forall s ensures |Occupied(cfg, s, true)| <= |cfg.nodes| {
        SubsetSize(Occupied(cfg, s, true), all);
      }
    } else {
      CalmStart(cfg, false);
      CalmNext(cfg, INITIAL, BeginPass("1"), false);
      var s := StickAll(cfg, Step(cfg, INITIAL, BeginPass("1")), 0);
      assert Occupied(cfg, s, true) == all;
    }
  }

  // ---------------------------------------------------------- Reboot-Failed

  /** Every node an upgrade has taken out of service, Reboot-Failed ones included:
      their cordon taint stays on. */
  function Down(cfg: Config, s: State): set<NodeId> {
    set n | n in cfg.nodes && (IsCounted(StatusOf(s.status, n)) || StatusOf(s.status, n).RebootFailed?)
  }

  /** The policy ever lets a pass start a node. */
  predicate CanAdmit(cfg: Config) {
    Budget(cfg.policy, |cfg.nodes|) > 0 && ParallelBudget(cfg.policy, |cfg.nodes|) > 0
  }

  /** No worker can write Reboot-Failed. */
  ghost predicate NoReboots(cfg: Config, s: State) {
    && (forall n :: !StatusOf(s.status, n).RebootFailed?)
    && (forall id :: id in s.workers ==>
          !cfg.reboot && (var pc := s.workers[id].pc; pc.Begin? || pc.Cordon? || pc.Drain? || pc.Label?))
  }

  lemma StepHasNoReboots(cfg: Config, s: State, e: Event)
    requires ValidConfig(cfg) && (!cfg.reboot || !CanAdmit(cfg))
    requires NoReboots(cfg, s) && Enabled(cfg, s, e)
    ensures NoReboots(cfg, Step(cfg, s, e))
  {
    match e
    case Look(v) =>
      LookNoReboot(StatusOf(s.status, v.name), StartOf(s.start, v.name), s.version, v);
    case Admit(at) =>
      QuotaExactAndMaximal(cfg.policy, Count(s.phase.seen, Progressing), Count(s.phase.seen, FailedNode),
                           Count(s.phase.seen, Candidate), |cfg.nodes|);
    case Work(id, r) =>
      WorkHasNoReboots(cfg, s, id, r);
    case _ =>
  }

  lemma WorkHasNoReboots(cfg: Config, s: State, id: nat, r: Reply)
    requires NoReboots(cfg, s) && id in s.workers
    ensures NoReboots(cfg, WorkStep(cfg, s, id, r))
  {
    var m := WorkerMove(s.workers[id].pc, cfg.reboot, r);
    assert m.write.Some? ==> !m.write.value.RebootFailed?;
    assert m.next.Some? ==> m.next.value.Cordon? || m.next.value.Drain? || m.next.value.Label?;
  }

  lemma {:induction false} RunHasNoReboots(cfg: Config, s: State, run: seq<Event>)
    requires ValidConfig(cfg) && (!cfg.reboot || !CanAdmit(cfg))
    requires NoReboots(cfg, s) && Legal(cfg, s, run)
    ensures NoReboots(cfg, Play(cfg, s, run))
    decreases |run|
  {
    if run != [] {
      StepHasNoReboots(cfg, s, run[0]);
      RunHasNoReboots(cfg, Step(cfg, s, run[0]), run[1..]);
    }
  }

  lemma UnfinishedNoReboot(s: UpgradeState, version: string, v: NodeView)
    requires !s.RebootFailed?
    ensures !ClassifyUnfinished(s, version, v).state.RebootFailed?
  {
    var newNode := NodeNew(s, version, v).state;
    assert !newNode.RebootFailed?;
    assert !UpgradeInProgress(newNode, version, v).state.RebootFailed?;
  }

  lemma LookNoReboot(s: UpgradeState, start: Stamp, version: string, v: NodeView)
    requires !s.RebootFailed?
    ensures !Classify(s, start, version, v).state.RebootFailed?
  {
    var s2 := Refreshed(s, start, v);
    assert !s2.RebootFailed?;
    var nmc := NmcStatusMissing(s2, v).state;
    var ready := NodeReady(nmc, version, v).state;
    assert !nmc.RebootFailed?;
    assert !ready.RebootFailed?;
    UnfinishedNoReboot(ready, version, v);
  }

  lemma SubsetSize<T>(a: set<T>, b: set<T>)
    requires a <= b
    ensures |a| <= |b|
  {
    assert b == a + (b - a);
  }

  /** A pass over nodes none of which is active or failed, where only node j is schedulable. */
  ghost predicate Round(cfg: Config, s: State, j: nat) {
    && CalmlyReachable(cfg, s, true)
    && s.workers == map[]
    && (forall n :: n in cfg.nodes ==> var st := StatusOf(s.status, n); st.Empty? || st.NotStarted? || st.RebootFailed?)
    && (forall i :: 0 <= i < j && i < |cfg.nodes| ==> StatusOf(s.status, cfg.nodes[i]).RebootFailed?)
  }

  predicate SeesOnly(seen: seq<Seen>, j: nat) {
    forall i :: 0 <= i < |seen| ==> seen[i].bucket == if i == j then Candidate else NotReady
  }

  lemma {:induction false} CountsOfOne(nodes: seq<NodeId>, seen: seq<Seen>, j: nat, upTo: nat)
    requires upTo <= |seen| <= |nodes| && SeesOnly(seen, j)
    ensures CountOf(seen, Progressing, upTo) == 0 && CountOf(seen, FailedNode, upTo) == 0
    ensures CountOf(seen, Candidate, upTo) == if j < upTo then 1 else 0
    ensures CandidatesUpTo(nodes, seen, upTo) == if j < upTo then [nodes[j]] else []
  {
    if upTo > 0 {
      CountsOfOne(nodes, seen, j, upTo - 1);
    }
  }

  lemma {:induction false} ScanRound(cfg: Config, s: State, j: nat) returns (s': State)
    requires ValidConfig(cfg) && Round(cfg, s, j) && j < |cfg.nodes|
    requires s.phase.Scanning? && s.phase.admitted == 0 && |s.phase.seen| <= |cfg.nodes| && SeesOnly(s.phase.seen, j)
    ensures Round(cfg, s', j) && Scanned(cfg, s') && s'.phase.admitted == 0 && SeesOnly(s'.phase.seen, j)
    decreases |cfg.nodes| - |s.phase.seen|
  {
    var k := |s.phase.seen|;
    if k == |cfg.nodes| {
      s' := s;
    } else {
      var v := OldView(cfg.nodes[k], s.clock, k != j);
      var st, start := StatusOf(s.status, v.name), StartOf(s.start, v.name);
      assert Classify(st, start, s.version, v)
          == Verdict(if st.Empty? then NotStarted else st, if k == j then Candidate else NotReady);
      CalmNext(cfg, s, Look(v), true);
      s' := ScanRound(cfg, LookStep(s, v), j);
    }
  }

  /** Four replies take a fresh worker to Reboot-Failed. */
  lemma {:induction false} WorkerFails(cfg: Config, s: State, id: nat, node: NodeId, pc: Pc) returns (s': State)
    requires CalmlyReachable(cfg, s, true) && cfg.reboot && s.workers == map[id := Worker(node, pc)]
    requires pc.Begin? || pc.Cordon? || pc.Drain? || pc.PodCleanup?
    ensures CalmlyReachable(cfg, s', true) && s'.workers == map[] && s'.phase == s.phase && s'.version == s.version
    ensures StatusOf(s'.status, node).RebootFailed?
    ensures forall n :: n != node ==> StatusOf(s'.status, n) == StatusOf(s.status, n)
    decreases if pc.Begin? then 3 else if pc.Cordon? then 2 else if pc.Drain? then 1 else 0
  {
    var reply := Reply(!pc.PodCleanup?, true, false);
    CalmNext(cfg, s, Work(id, reply), true);
    s' := WorkStep(cfg, s, id, reply);
    if !pc.PodCleanup? {
      s' := WorkerFails(cfg, s', id, node, s'.workers[id].pc);
    }
  }

  /** After the scan node j alone is started, and the pass ends. */
  lemma StartRound(cfg: Config, s: State, j: nat) returns (s': State)
    requires CanAdmit(cfg) && j < |cfg.nodes| && CalmlyReachable(cfg, s, true)
    requires Scanned(cfg, s) && s.phase.admitted == 0 && SeesOnly(s.phase.seen, j)
    ensures CalmlyReachable(cfg, s', true) && s'.phase.Idle?
    ensures s'.workers == s.workers[s.spawned := Worker(cfg.nodes[j], Begin)]
    ensures s'.status == SetStatus(s.status, cfg.nodes[j], Started)
  {
    var seen := s.phase.seen;
    CountsOfOne(cfg.nodes, seen, j, |seen|);
    assert PassQuota(cfg, seen) == 1;
    CalmNext(cfg, s, Admit(s.clock), true);
    var s1 := Step(cfg, s, Admit(s.clock));
    CalmNext(cfg, s1, EndPass, true);
    s' := Step(cfg, s1, EndPass);
  }

  lemma PlayRound(cfg: Config, s: State, j: nat) returns (s': State)
    requires ValidConfig(cfg) && cfg.reboot && CanAdmit(cfg)
    requires Round(cfg, s, j) && j < |cfg.nodes| && s.phase.Idle?
    ensures Round(cfg, s', j + 1) && s'.phase.Idle?
  {
    CalmNext(cfg, s, BeginPass(s.version), true);
    var s1 := ScanRound(cfg, Step(cfg, s, BeginPass(s.version)), j);
    var s2 := StartRound(cfg, s1, j);
    s' := WorkerFails(cfg, s2, s1.spawned, cfg.nodes[j], Begin);
  }

  lemma {:induction false} PlayRounds(cfg: Config, j: nat) returns (s: State)
    requires ValidConfig(cfg) && cfg.reboot && CanAdmit(cfg) && j <= |cfg.nodes|
    ensures Round(cfg, s, j) && s.phase.Idle?
  {
    if j == 0 {
      s := INITIAL;
      CalmStart(cfg, true);
    } else {
      s := PlayRounds(cfg, j - 1);
      s := PlayRound(cfg, s, j - 1);
    }
  }

  /** MaxUnavailableNodes bounds the nodes an upgrade has taken down in every run
      exactly when upgrades do not reboot nodes, or never start, or the limit
      covers all nodes: Reboot-Failed nodes are not counted as failed. */
  lemma DownWithinBudgetIff(cfg: Config)
    requires ValidConfig(cfg)
    ensures (forall s :: CalmlyReachable(cfg, s, true) ==> |Down(cfg, s)| <= Budget(cfg.policy, |cfg.nodes|))
            <==> !cfg.reboot || !CanAdmit(cfg) || |cfg.nodes| <= Budget(cfg.policy, |cfg.nodes|)
  {
    if !cfg.reboot || !CanAdmit(cfg) || |cfg.nodes| <= Budget(cfg.policy, |cfg.nodes|) {
      forall s | CalmlyReachable(cfg, s, true) ensures |Down(cfg, s)| <= Budget(cfg.policy, |cfg.nodes|) {
        DownWithinBudget(cfg, s);
      }
    } else {
      var s := PlayRounds(cfg, |cfg.nodes|);
      AllNodes(cfg);
      assert Down(cfg, s) == set n | n in cfg.nodes;
    }
  }

  lemma AllNodes(cfg: Config)
    requires ValidConfig(cfg)
    ensures |set n | n in cfg.nodes| == |cfg.nodes|
  {
    var m := map n | n in cfg.nodes :: Failed;
    TallyIsCardinality(m, cfg.nodes, true);
    AllFailedTally(m, cfg.nodes, |cfg.nodes|);
    assert (set n | n in cfg.nodes && TakesSlot(StatusOf(m, n), true)) == set n | n in cfg.nodes;
  }

  lemma {:induction false} AllFailedTally(m: Statuses, nodes: seq<NodeId>, upTo: nat)
    requires upTo <= |nodes| && forall n :: n in nodes ==> StatusOf(m, n).Failed?
    ensures Tally(m, nodes, true, upTo) == upTo
  {
    if upTo > 0 {
      AllFailedTally(m, nodes, upTo - 1);
    }
  }

  lemma DownWithinBudget(cfg: Config, s: State)
    requires ValidConfig(cfg) && CalmlyReachable(cfg, s, true)
    requires !cfg.reboot || !CanAdmit(cfg) || |cfg.nodes| <= Budget(cfg.policy, |cfg.nodes|)
    ensures |Down(cfg, s)| <= Budget(cfg.policy, |cfg.nodes|)
  {
    var run :| Calm(cfg, INITIAL, run) && UncordonsGoWell(run) && Leads(cfg, INITIAL, run, s);
    GoodUncordonsFaultFree(cfg, INITIAL, run);
    if |cfg.nodes| <= Budget(cfg.policy, |cfg.nodes|) {
      AllNodes(cfg);
      SubsetSize(Down(cfg, s), set n | n in cfg.nodes);
    } else {
      RunHasNoReboots(cfg, INITIAL, run);
      CapacityHolds(cfg, run);
      assert Down(cfg, s) == Occupied(cfg, s, true);
    }
  }

  // ------------------------------------------------------------ the wrong image

  /** A node that runs an image of version u and is to get version w is taken for
      upgraded, without an upgrade, exactly when w ends u. */
  lemma TakenForUpgradedIff(image: string, os: string, driverType: string, u: string, w: string, kernel: string,
                            start: Stamp, version: string, v: NodeView)
    requires '$' !in u && |u| < ImageTags.TAG_LIMIT && '-' !in w
    requires v.persisted.Some? && TargetVersion(version, v) == w && v.readyUncordon
    requires v.persisted.value.image
             == ImageTags.Render(ImageTags.ImageWithTag(image, os, driverType, u), kernel)
    ensures Classify(NotStarted, start, version, v) == Verdict(Complete, Done) <==> HasSuffix(u, w)
  {
    ImageTags.ReadyTestAcceptsIff(image, os, driverType, u, w, kernel);
    UnfinishedBuckets(NotStarted, version, v);
  }
}

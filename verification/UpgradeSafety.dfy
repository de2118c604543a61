/** What every run of the upgrade manager keeps: worker exclusion, capacity,
    provenance and age of upgrades, and the statuses that stick. */
module UpgradeSafety {
  import opened Base
  import opened NodeUpgrade
  import opened UpgradeMachine

  ghost predicate ValidConfig(cfg: Config) {
    Distinct(cfg.nodes)
  }

  // ---------------------------------------------------------------- counting

  lemma {:induction false} CountExtends(seen: seq<Seen>, x: Seen, b: Bucket, upTo: nat)
    requires upTo <= |seen|
    ensures CountOf(seen + [x], b, upTo) == CountOf(seen, b, upTo)
  {
    if upTo > 0 {
      CountExtends(seen, x, b, upTo - 1);
    }
  }

  lemma {:induction false} CountMonotone(seen: seq<Seen>, b: Bucket, i: nat, j: nat)
    requires i <= j <= |seen|
    ensures CountOf(seen, b, i) <= CountOf(seen, b, j)
    decreases j
  {
    if i < j {
      CountMonotone(seen, b, i, j - 1);
    }
  }

  /** Node i of the pass is a candidate that has been started. */
  predicate Chosen(p: Phase, i: nat)
    requires p.Scanning? && i < |p.seen|
  {
    p.seen[i].bucket.Candidate? && CountOf(p.seen, Candidate, i) < p.admitted
  }

  predicate Waiting(p: Phase, i: nat)
    requires p.Scanning? && i < |p.seen|
  {
    p.seen[i].bucket.Candidate? && !Chosen(p, i)
  }

  /** The k-th candidate is the node with k candidates before it. */
  lemma {:induction false} CandidateIndex(nodes: seq<NodeId>, seen: seq<Seen>, upTo: nat, k: nat) returns (i: nat)
    requires upTo <= |seen| <= |nodes|
    requires k < CountOf(seen, Candidate, upTo)
    ensures i < upTo
    ensures seen[i].bucket.Candidate? && CountOf(seen, Candidate, i) == k
    ensures CandidatesUpTo(nodes, seen, upTo)[k] == nodes[i]
  {
    if k < CountOf(seen, Candidate, upTo - 1) {
      i := CandidateIndex(nodes, seen, upTo - 1, k);
    } else {
      i := upTo - 1;
    }
  }

  /** Starting one more candidate moves exactly that one from waiting to chosen. */
  lemma ChosenGrows(p: Phase, i: nat, j: nat)
    requires p.Scanning? && i < |p.seen| && j < |p.seen|
    requires p.seen[i].bucket.Candidate? && CountOf(p.seen, Candidate, i) == p.admitted
    ensures Chosen(p.(admitted := p.admitted + 1), j) <==> Chosen(p, j) || j == i
  {
    if j < i {
      CountMonotone(p.seen, Candidate, j + 1, i);
    } else if i < j {
      CountMonotone(p.seen, Candidate, i + 1, j);
    }
  }

  predicate TakesSlot(s: UpgradeState, withFailed: bool) {
    IsActive(s) || (withFailed && IsFailed(s))
  }

  function Tally(m: Statuses, nodes: seq<NodeId>, withFailed: bool, upTo: nat): nat
    requires upTo <= |nodes|
  {
    if upTo == 0 then 0
    else Tally(m, nodes, withFailed, upTo - 1) + if TakesSlot(StatusOf(m, nodes[upTo - 1]), withFailed) then 1 else 0
  }

  lemma {:induction false} TallyShrinks(m: Statuses, m': Statuses, nodes: seq<NodeId>, withFailed: bool, upTo: nat)
    requires upTo <= |nodes|
    requires forall i :: 0 <= i < upTo && TakesSlot(StatusOf(m', nodes[i]), withFailed) ==>
                           TakesSlot(StatusOf(m, nodes[i]), withFailed)
    ensures Tally(m', nodes, withFailed, upTo) <= Tally(m, nodes, withFailed, upTo)
  {
    if upTo > 0 {
      TallyShrinks(m, m', nodes, withFailed, upTo - 1);
    }
  }

  /** Nodes that take a slot, as a set. */
  function Occupied(cfg: Config, s: State, withFailed: bool): set<NodeId> {
    set n | n in cfg.nodes && TakesSlot(StatusOf(s.status, n), withFailed)
  }

  function OccupiedUpTo(m: Statuses, nodes: seq<NodeId>, withFailed: bool, upTo: nat): set<NodeId>
    requires upTo <= |nodes|
  {
    if upTo == 0 then {} else
    var front := OccupiedUpTo(m, nodes, withFailed, upTo - 1);
    if TakesSlot(StatusOf(m, nodes[upTo - 1]), withFailed) then front + {nodes[upTo - 1]} else front
  }

  lemma {:induction false} OccupiedMember(m: Statuses, nodes: seq<NodeId>, withFailed: bool, upTo: nat, n: NodeId)
    requires upTo <= |nodes|
    ensures n in OccupiedUpTo(m, nodes, withFailed, upTo)
            <==> TakesSlot(StatusOf(m, n), withFailed) && exists i :: 0 <= i < upTo && nodes[i] == n
  {
    if upTo > 0 {
      OccupiedMember(m, nodes, withFailed, upTo - 1, n);
    }
  }

  lemma OneMore(nodes: set<NodeId>, n: NodeId)
    ensures n !in nodes ==> |nodes + {n}| == |nodes| + 1
  {
  }

  lemma NotCountedBefore(m: Statuses, nodes: seq<NodeId>, withFailed: bool, i: nat)
    requires i < |nodes| && Distinct(nodes)
    ensures nodes[i] !in OccupiedUpTo(m, nodes, withFailed, i)
  {
    OccupiedMember(m, nodes, withFailed, i, nodes[i]);
  }

  lemma {:induction false} TallyIsSize(m: Statuses, nodes: seq<NodeId>, withFailed: bool, upTo: nat)
    requires upTo <= |nodes| && Distinct(nodes)
    ensures |OccupiedUpTo(m, nodes, withFailed, upTo)| == Tally(m, nodes, withFailed, upTo)
  {
    if upTo > 0 {
      TallyIsSize(m, nodes, withFailed, upTo - 1);
      NotCountedBefore(m, nodes, withFailed, upTo - 1);
      OneMore(OccupiedUpTo(m, nodes, withFailed, upTo - 1), nodes[upTo - 1]);
    }
  }

  lemma TallyIsCardinality(m: Statuses, nodes: seq<NodeId>, withFailed: bool)
    requires Distinct(nodes)
    ensures |set n | n in nodes && TakesSlot(StatusOf(m, n), withFailed)| == Tally(m, nodes, withFailed, |nodes|)
  {
    TallyIsSize(m, nodes, withFailed, |nodes|);
    forall n ensures n in OccupiedUpTo(m, nodes, withFailed, |nodes|)
                     <==> n in nodes && TakesSlot(StatusOf(m, n), withFailed)
    {
      OccupiedMember(m, nodes, withFailed, |nodes|, n);
    }
    assert OccupiedUpTo(m, nodes, withFailed, |nodes|) == set n | n in nodes && TakesSlot(StatusOf(m, n), withFailed);
  }

  /** Node i takes a slot the pass has accounted for. */
  predicate Booked(p: Phase, i: nat, withFailed: bool)
    requires p.Scanning? && i < |p.seen|
  {
    p.seen[i].bucket.Progressing? || (withFailed && p.seen[i].bucket.FailedNode?) || Chosen(p, i)
  }

  lemma {:induction false} TallyBooked(m: Statuses, nodes: seq<NodeId>, p: Phase, withFailed: bool, upTo: nat)
    requires p.Scanning? && upTo <= |p.seen| <= |nodes|
    requires forall i :: 0 <= i < upTo && TakesSlot(StatusOf(m, nodes[i]), withFailed) ==> Booked(p, i, withFailed)
    ensures Tally(m, nodes, withFailed, upTo)
            <= CountOf(p.seen, Progressing, upTo) + (if withFailed then CountOf(p.seen, FailedNode, upTo) else 0)
               + Min(p.admitted, CountOf(p.seen, Candidate, upTo))
  {
    if upTo > 0 {
      TallyBooked(m, nodes, p, withFailed, upTo - 1);
    }
  }

  // --------------------------------------------------------------- exclusion

  /** A live worker owns a node that is Started or Reboot-In-Progress, alone. */
  ghost predicate WorkerDiscipline(cfg: Config, s: State) {
    && (forall id :: id in s.workers ==>
          && id < s.spawned
          && s.workers[id].node in cfg.nodes
          && IsUpgrading(StatusOf(s.status, s.workers[id].node)))
    && (forall a, b :: a in s.workers && b in s.workers && s.workers[a].node == s.workers[b].node ==> a == b)
  }

  /** What the bucket of node i says about its status for the rest of the pass:
      only nodes a worker may own, or that were just started, still move. */
  predicate Placed(p: Phase, i: nat, st: UpgradeState)
    requires p.Scanning? && i < |p.seen|
  {
    if p.seen[i].bucket.Progressing? || Chosen(p, i) then IsAdmitted(st) else BucketFits(p.seen[i].bucket, st)
  }

  ghost predicate PassOk(cfg: Config, s: State) {
    s.phase.Scanning? ==>
      && |s.phase.seen| <= |cfg.nodes|
      && (|s.phase.seen| < |cfg.nodes| ==> s.phase.admitted == 0)
      && (|s.phase.seen| == |cfg.nodes| ==> s.phase.admitted <= PassQuota(cfg, s.phase.seen))
      && (forall i :: 0 <= i < |s.phase.seen| ==> Placed(s.phase, i, StatusOf(s.status, cfg.nodes[i])))
  }

  ghost predicate Exclusive(cfg: Config, s: State) {
    WorkerDiscipline(cfg, s) && PassOk(cfg, s)
  }

  lemma LookKeepsExclusion(cfg: Config, s: State, v: NodeView)
    requires ValidConfig(cfg) && Exclusive(cfg, s)
    requires Enabled(cfg, s, Look(v)) && Undisturbed(s, Look(v))
    ensures Exclusive(cfg, Step(cfg, s, Look(v)))
  {
    var s' := LookStep(s, v);
    var was, start := StatusOf(s.status, v.name), StartOf(s.start, v.name);
    BucketFixesStatus(was, start, s.version, v);
    if IsUpgrading(was) {
      LookSparesUpgrading(was, start, s.version, v);
    }
    forall i | 0 <= i < |s'.phase.seen|
      ensures Placed(s'.phase, i, StatusOf(s'.status, cfg.nodes[i]))
    {
      if i < |s.phase.seen| {
        CountExtends(s.phase.seen, s'.phase.seen[|s.phase.seen|], Candidate, i);
        assert Placed(s.phase, i, StatusOf(s.status, cfg.nodes[i]));
      }
    }
  }

  /** The candidate an Admit step starts. */
  lemma AdmitTarget(cfg: Config, s: State, at: Instant) returns (i: nat)
    requires PassOk(cfg, s) && Enabled(cfg, s, Admit(at))
    ensures i < |cfg.nodes| && Waiting(s.phase, i)
    ensures Candidates(cfg.nodes, s.phase.seen)[s.phase.admitted] == cfg.nodes[i]
    ensures CountOf(s.phase.seen, Candidate, i) == s.phase.admitted
  {
    QuotaExactAndMaximal(cfg.policy, Count(s.phase.seen, Progressing), Count(s.phase.seen, FailedNode),
                         Count(s.phase.seen, Candidate), |cfg.nodes|);
    i := CandidateIndex(cfg.nodes, s.phase.seen, |s.phase.seen|, s.phase.admitted);
  }

  /** A waiting candidate has no worker. */
  lemma WaitingIsFree(cfg: Config, s: State, i: nat)
    requires Exclusive(cfg, s) && s.phase.Scanning? && i < |s.phase.seen| && Waiting(s.phase, i)
    ensures !Owned(s, cfg.nodes[i])
  {
    assert Placed(s.phase, i, StatusOf(s.status, cfg.nodes[i]));
  }

  lemma AdmitKeepsDiscipline(cfg: Config, s: State, at: Instant, node: NodeId)
    requires WorkerDiscipline(cfg, s) && Enabled(cfg, s, Admit(at)) && node in cfg.nodes && !Owned(s, node)
    requires Candidates(cfg.nodes, s.phase.seen)[s.phase.admitted] == node
    ensures WorkerDiscipline(cfg, AdmitStep(cfg, s, at))
  {
    var s' := AdmitStep(cfg, s, at);
    assert s'.workers == s.workers[s.spawned := Worker(node, Begin)];
    assert forall id :: id in s.workers ==> s.workers[id].node != node;
  }

  lemma AdmitKeepsPlaces(cfg: Config, s: State, at: Instant, i: nat)
    requires ValidConfig(cfg) && PassOk(cfg, s) && Enabled(cfg, s, Admit(at))
    requires i < |cfg.nodes| && Waiting(s.phase, i) && CountOf(s.phase.seen, Candidate, i) == s.phase.admitted
    requires Candidates(cfg.nodes, s.phase.seen)[s.phase.admitted] == cfg.nodes[i]
    ensures PassOk(cfg, AdmitStep(cfg, s, at))
  {
    var s' := AdmitStep(cfg, s, at);
    forall j | 0 <= j < |s'.phase.seen|
      ensures Placed(s'.phase, j, StatusOf(s'.status, cfg.nodes[j]))
    {
      ChosenGrows(s.phase, i, j);
      assert Placed(s.phase, j, StatusOf(s.status, cfg.nodes[j]));
    }
  }

  lemma AdmitKeepsExclusion(cfg: Config, s: State, at: Instant)
    requires ValidConfig(cfg) && Exclusive(cfg, s)
    requires Enabled(cfg, s, Admit(at))
    ensures Exclusive(cfg, Step(cfg, s, Admit(at)))
  {
    var i := AdmitTarget(cfg, s, at);
    WaitingIsFree(cfg, s, i);
    AdmitKeepsDiscipline(cfg, s, at, cfg.nodes[i]);
    AdmitKeepsPlaces(cfg, s, at, i);
  }

  /** Whatever a worker writes, its node stays admitted; while it goes on, the
      node stays Started or Reboot-In-Progress. */
  lemma WorkerWrites(pc: Pc, reboot: bool, r: Reply)
    ensures var m := WorkerMove(pc, reboot, r);
            m.write.Some? ==> IsAdmitted(m.write.value) && (m.next.Some? ==> IsUpgrading(m.write.value))
  {
  }

  lemma WorkKeepsDiscipline(cfg: Config, s: State, id: nat, r: Reply)
    requires WorkerDiscipline(cfg, s) && id in s.workers
    ensures WorkerDiscipline(cfg, WorkStep(cfg, s, id, r))
  {
    WorkerWrites(s.workers[id].pc, cfg.reboot, r);
  }

  lemma WorkKeepsPlaces(cfg: Config, s: State, id: nat, r: Reply)
    requires Exclusive(cfg, s) && id in s.workers
    ensures PassOk(cfg, WorkStep(cfg, s, id, r))
  {
    var s' := WorkStep(cfg, s, id, r);
    WorkerWrites(s.workers[id].pc, cfg.reboot, r);
    if s.phase.Scanning? {
      forall i | 0 <= i < |s'.phase.seen|
        ensures Placed(s'.phase, i, StatusOf(s'.status, cfg.nodes[i]))
      {
        assert Placed(s.phase, i, StatusOf(s.status, cfg.nodes[i]));
      }
    }
  }

  lemma WorkKeepsExclusion(cfg: Config, s: State, id: nat, r: Reply)
    requires Exclusive(cfg, s) && id in s.workers
    ensures Exclusive(cfg, Step(cfg, s, Work(id, r)))
  {
    WorkKeepsDiscipline(cfg, s, id, r);
    WorkKeepsPlaces(cfg, s, id, r);
  }

  lemma StepKeepsExclusion(cfg: Config, s: State, e: Event)
    requires ValidConfig(cfg) && Exclusive(cfg, s)
    requires Enabled(cfg, s, e) && Undisturbed(s, e)
    ensures Exclusive(cfg, Step(cfg, s, e))
  {
    match e
    case Look(v) => LookKeepsExclusion(cfg, s, v);
    case Admit(at) => AdmitKeepsExclusion(cfg, s, at);
    case Work(id, r) => WorkKeepsExclusion(cfg, s, id, r);
    case _ =>
  }

  lemma {:induction false} RunKeepsExclusion(cfg: Config, s: State, run: seq<Event>)
    requires ValidConfig(cfg) && Exclusive(cfg, s) && Calm(cfg, s, run)
    ensures Legal(cfg, s, run) && Exclusive(cfg, Play(cfg, s, run))
    decreases |run|
  {
    CalmIsLegal(cfg, s, run);
    if run != [] {
      StepKeepsExclusion(cfg, s, run[0]);
      RunKeepsExclusion(cfg, Step(cfg, s, run[0]), run[1..]);
    }
  }

  /** Worker exclusion over whole runs, under assumption W alone. */
  lemma WorkersExclusive(cfg: Config, run: seq<Event>)
    requires ValidConfig(cfg) && Calm(cfg, INITIAL, run)
    ensures Legal(cfg, INITIAL, run)
    ensures var s := Play(cfg, INITIAL, run);
            && (forall id :: id in s.workers ==> IsUpgrading(StatusOf(s.status, s.workers[id].node)))
            && (forall a, b :: a in s.workers && b in s.workers && a != b ==> s.workers[a].node != s.workers[b].node)
  {
    RunKeepsExclusion(cfg, INITIAL, run);
  }

  /** Assumption W is exactly what a step needs: a step that is not Undisturbed
      leaves a live worker on a node whose status no longer says so. */
  lemma DisciplineIffUndisturbed(cfg: Config, s: State, e: Event)
    requires ValidConfig(cfg) && Exclusive(cfg, s)
    requires Enabled(cfg, s, e)
    ensures WorkerDiscipline(cfg, Step(cfg, s, e)) <==> Undisturbed(s, e)
  {
    if Undisturbed(s, e) {
      StepKeepsExclusion(cfg, s, e);
    } else if e.Look? {
      var v := e.view;
      var id :| id in s.workers && s.workers[id].node == v.name;
      LookSparesUpgrading(StatusOf(s.status, v.name), StartOf(s.start, v.name), s.version, v);
      assert id in LookStep(s, v).workers;
    } else {
      var id :| id in s.workers;
      assert id in Step(cfg, s, e).workers;
    }
  }

  // ---------------------------------------------------------------- capacity

  /** Every node that takes a slot is in the books of the running pass; so no
      candidate still waiting takes one. */
  ghost predicate Books(cfg: Config, s: State, withFailed: bool) {
    s.phase.Scanning? && |s.phase.seen| <= |cfg.nodes| ==>
      forall i :: 0 <= i < |s.phase.seen| && TakesSlot(StatusOf(s.status, cfg.nodes[i]), withFailed) ==>
        Booked(s.phase, i, withFailed)
  }

  /** The limit on active nodes, or on active and failed ones together. */
  function SlotLimit(cfg: Config, withFailed: bool): nat {
    if withFailed then Budget(cfg.policy, |cfg.nodes|) else ParallelBudget(cfg.policy, |cfg.nodes|)
  }

  ghost predicate WithinLimit(cfg: Config, s: State, withFailed: bool) {
    Tally(s.status, cfg.nodes, withFailed, |cfg.nodes|) <= SlotLimit(cfg, withFailed)
  }

  ghost predicate Accounted(cfg: Config, s: State, withFailed: bool) {
    Exclusive(cfg, s) && Books(cfg, s, withFailed) && WithinLimit(cfg, s, withFailed)
  }

  /** The look of step e, if it is one, leaves no Uncordon-Failed status behind
      that its own pass does not count. */
  predicate Faultless(s: State, e: Event) {
    e.Look? ==> !UncordonFault(Refreshed(StatusOf(s.status, e.view.name), StartOf(s.start, e.view.name), e.view),
                               s.version, e.view)
  }

  /** What a look does to one node's slot. */
  lemma LookSlot(s: State, v: NodeView, withFailed: bool)
    requires s.phase.Scanning? && (withFailed ==> Faultless(s, Look(v)))
    ensures var r := Verdicted(s, v);
            TakesSlot(r.state, withFailed) ==>
              && TakesSlot(StatusOf(s.status, v.name), withFailed)
              && (r.bucket.Progressing? || (withFailed && r.bucket.FailedNode?))
  {
    var was, start := StatusOf(s.status, v.name), StartOf(s.start, v.name);
    LookTakesNoSlot(was, start, s.version, v);
    BooksBalanceIffNoUncordonFault(was, start, s.version, v);
  }

  /** A look adds no chosen candidate. */
  lemma LookChoosesNone(p: Phase, x: Seen, i: nat)
    requires p.Scanning? && i < |p.seen|
    ensures Chosen(p.(seen := p.seen + [x]), i) == Chosen(p, i)
  {
    CountExtends(p.seen, x, Candidate, i);
  }

  lemma LookKeepsBooks(cfg: Config, s: State, v: NodeView, withFailed: bool)
    requires ValidConfig(cfg) && Accounted(cfg, s, withFailed)
    requires Enabled(cfg, s, Look(v)) && (withFailed ==> Faultless(s, Look(v)))
    ensures Books(cfg, LookStep(s, v), withFailed) && WithinLimit(cfg, LookStep(s, v), withFailed)
  {
    var s', n := LookStep(s, v), |s.phase.seen|;
    LookSlot(s, v, withFailed);
    forall i | 0 <= i < n ensures Chosen(s'.phase, i) == Chosen(s.phase, i) && cfg.nodes[i] != v.name {
      LookChoosesNone(s.phase, s'.phase.seen[n], i);
    }
    TallyShrinks(s.status, s'.status, cfg.nodes, withFailed, |cfg.nodes|);
  }

  lemma AdmitKeepsBooks(cfg: Config, s: State, at: Instant, withFailed: bool)
    requires ValidConfig(cfg) && Accounted(cfg, s, withFailed)
    requires Enabled(cfg, s, Admit(at))
    ensures Books(cfg, Step(cfg, s, Admit(at)), withFailed)
    ensures WithinLimit(cfg, Step(cfg, s, Admit(at)), withFailed)
  {
    var target := AdmitTarget(cfg, s, at);
    var s' := AdmitStep(cfg, s, at);
    forall i | 0 <= i < |s.phase.seen|
      ensures Chosen(s'.phase, i) <==> Chosen(s.phase, i) || i == target
      ensures i != target ==> cfg.nodes[i] != cfg.nodes[target]
    {
      ChosenGrows(s.phase, target, i);
    }
    TallyBooked(s'.status, cfg.nodes, s'.phase, withFailed, |cfg.nodes|);
    QuotaExactAndMaximal(cfg.policy, Count(s.phase.seen, Progressing), Count(s.phase.seen, FailedNode),
                         Count(s.phase.seen, Candidate), |cfg.nodes|);
  }

  lemma WorkKeepsBooks(cfg: Config, s: State, id: nat, r: Reply, withFailed: bool)
    requires ValidConfig(cfg) && Accounted(cfg, s, withFailed)
    requires id in s.workers
    ensures Books(cfg, WorkStep(cfg, s, id, r), withFailed) && WithinLimit(cfg, WorkStep(cfg, s, id, r), withFailed)
  {
    var s' := WorkStep(cfg, s, id, r);
    TallyShrinks(s.status, s'.status, cfg.nodes, withFailed, |cfg.nodes|);
  }

  /** The inductive step of both bounds. Active nodes need nothing beyond W; with
      the failed ones included, the looks must be faultless. */
  lemma StepKeepsAccounts(cfg: Config, s: State, e: Event, withFailed: bool)
    requires ValidConfig(cfg) && Accounted(cfg, s, withFailed)
    requires Enabled(cfg, s, e) && Undisturbed(s, e) && (withFailed ==> Faultless(s, e))
    ensures Accounted(cfg, Step(cfg, s, e), withFailed)
  {
    StepKeepsExclusion(cfg, s, e);
    match e
    case Look(v) => LookKeepsBooks(cfg, s, v, withFailed);
    case Admit(at) => AdmitKeepsBooks(cfg, s, at, withFailed);
    case Work(id, r) => WorkKeepsBooks(cfg, s, id, r, withFailed);
    case _ => TallyShrinks(s.status, Step(cfg, s, e).status, cfg.nodes, withFailed, |cfg.nodes|);
  }

  /** No look of the run leaves an uncounted Uncordon-Failed status. */
  predicate FaultFree(cfg: Config, s: State, run: seq<Event>)
    requires Legal(cfg, s, run)
    decreases |run|
  {
    run == [] || (Faultless(s, run[0]) && FaultFree(cfg, Step(cfg, s, run[0]), run[1..]))
  }

  lemma {:induction false} RunKeepsAccounts(cfg: Config, s: State, run: seq<Event>, withFailed: bool)
    requires ValidConfig(cfg) && Accounted(cfg, s, withFailed)
    requires Calm(cfg, s, run) && Legal(cfg, s, run) && (withFailed ==> FaultFree(cfg, s, run))
    ensures Accounted(cfg, Play(cfg, s, run), withFailed)
    decreases |run|
  {
    if run != [] {
      StepKeepsAccounts(cfg, s, run[0], withFailed);
      RunKeepsAccounts(cfg, Step(cfg, s, run[0]), run[1..], withFailed);
    }
  }

  lemma {:induction false} InitialTally(nodes: seq<NodeId>, withFailed: bool, upTo: nat)
    requires upTo <= |nodes|
    ensures Tally(map[], nodes, withFailed, upTo) == 0
  {
    if upTo > 0 {
      InitialTally(nodes, withFailed, upTo - 1);
    }
  }

  lemma RunWithinLimit(cfg: Config, run: seq<Event>, withFailed: bool)
    requires ValidConfig(cfg) && Calm(cfg, INITIAL, run) && Legal(cfg, INITIAL, run)
    requires withFailed ==> FaultFree(cfg, INITIAL, run)
    ensures |Occupied(cfg, Play(cfg, INITIAL, run), withFailed)| <= SlotLimit(cfg, withFailed)
  {
    InitialTally(cfg.nodes, withFailed, |cfg.nodes|);
    RunKeepsAccounts(cfg, INITIAL, run, withFailed);
    TallyIsCardinality(Play(cfg, INITIAL, run).status, cfg.nodes, withFailed);
  }

  /** MaxParallelUpgrades over whole runs, under assumption W alone: the active
      nodes never exceed it, whatever the uncordon calls do. */
  lemma ParallelHolds(cfg: Config, run: seq<Event>)
    requires ValidConfig(cfg) && Calm(cfg, INITIAL, run)
    ensures Legal(cfg, INITIAL, run)
    ensures var active, limit := |Occupied(cfg, Play(cfg, INITIAL, run), false)|, cfg.policy.maxParallel;
            && active <= ParallelBudget(cfg.policy, |cfg.nodes|)
            && (limit != 0 ==> active == 0 || active <= limit)
            && (limit == 0 ==> Allows(cfg.policy.maxUnavailable, |cfg.nodes|, active))
  {
    CalmIsLegal(cfg, INITIAL, run);
    RunWithinLimit(cfg, run, false);
    AllowsIff(cfg.policy, |cfg.nodes|, |Occupied(cfg, Play(cfg, INITIAL, run), false)|);
  }

  /** MaxUnavailableNodes over whole runs: the nodes that are active or failed
      never exceed the number, or the percentage of the nodes rounded up, however
      workers interleave with the looks of the passes, as long as no look leaves
      an uncordon fault. */
  lemma CapacityHolds(cfg: Config, run: seq<Event>)
    requires ValidConfig(cfg) && Calm(cfg, INITIAL, run) && Legal(cfg, INITIAL, run)
    requires FaultFree(cfg, INITIAL, run)
    ensures var down, limit := |Occupied(cfg, Play(cfg, INITIAL, run), true)|, cfg.policy.maxUnavailable;
            && down <= Budget(cfg.policy, |cfg.nodes|)
            && (down > 0 ==>
                  match limit
                  case Number(n) => down <= n
                  case Percent(p) => 100 * (down - 1) < p * |cfg.nodes|
                  case Malformed => false)
  {
    RunWithinLimit(cfg, run, true);
    AllowsIff(cfg.policy, |cfg.nodes|, |Occupied(cfg, Play(cfg, INITIAL, run), true)|);
  }

  /** The statuses of the nodes both limits are about. */
  lemma OccupiedExact(cfg: Config, s: State, n: NodeId)
    ensures n in Occupied(cfg, s, false) <==>
              n in cfg.nodes && StatusOf(s.status, n) in {Started, RebootInProgress, InProgress}
    ensures n in Occupied(cfg, s, true) <==>
              && n in cfg.nodes
              && StatusOf(s.status, n) in {Started, RebootInProgress, InProgress} + FAILED_STATES
  {
  }

  /** Runs whose uncordon calls all succeed have no fault. */
  lemma {:induction false} GoodUncordonsFaultFree(cfg: Config, s: State, run: seq<Event>)
    requires Legal(cfg, s, run) && UncordonsGoWell(run)
    ensures FaultFree(cfg, s, run)
    decreases |run|
  {
    if run != [] {
      var s' := Step(cfg, s, run[0]);
      if run[0].Look? {
        var v := run[0].view;
        LookTakesNoSlot(StatusOf(s.status, v.name), StartOf(s.start, v.name), s.version, v);
      }
      assert forall i :: 0 <= i < |run[1..]| ==> run[1..][i] == run[i + 1];
      GoodUncordonsFaultFree(cfg, s', run[1..]);
    }
  }

  // ------------------------------------------------------ provenance and age

  predicate HasOrigin(s: State, n: NodeId) {
    IsAdmitted(StatusOf(s.status, n)) ==>
      && n in s.admittedAt
      && n in s.start
      && (IsActive(StatusOf(s.status, n)) ==> s.start[n] == Stamp(Seconds(s.admittedAt[n])))
  }

  ghost predicate Provenance(s: State) {
    forall n :: HasOrigin(s, n)
  }

  /** A node that is active after the pass looked at it was started at most two
      hours before that look. */
  ghost predicate Young(cfg: Config, s: State) {
    s.phase.Scanning? && |s.phase.seen| <= |cfg.nodes| ==>
      forall i :: 0 <= i < |s.phase.seen| ==>
        && s.phase.seen[i].at <= s.clock
        && (s.phase.seen[i].persisted && IsActive(StatusOf(s.status, cfg.nodes[i])) ==>
              && cfg.nodes[i] in s.admittedAt
              && s.phase.seen[i].at <= s.admittedAt[cfg.nodes[i]] + UPGRADE_LIMIT)
  }

  ghost predicate Traced(cfg: Config, s: State) {
    Exclusive(cfg, s) && Provenance(s) && Young(cfg, s)
  }

  lemma LookKeepsNodeOrigin(s: State, v: NodeView, n: NodeId)
    requires s.phase.Scanning? && HasOrigin(s, n)
    ensures HasOrigin(LookStep(s, v), n)
  {
    if n == v.name {
      LookKeepsProvenance(StatusOf(s.status, n), StartOf(s.start, n), s.version, v);
    }
  }

  lemma LookKeepsOrigin(s: State, v: NodeView)
    requires s.phase.Scanning? && Provenance(s)
    ensures Provenance(LookStep(s, v))
  {
    forall n ensures HasOrigin(LookStep(s, v), n) {
      assert HasOrigin(s, n);
      LookKeepsNodeOrigin(s, v, n);
    }
  }

  /** A persisted node that a look leaves active has not run out of time. */
  lemma LookedIsYoung(s: State, v: NodeView)
    requires s.phase.Scanning? && Provenance(s) && v.persisted.Some? && IsActive(Verdicted(s, v).state)
    ensures v.name in s.admittedAt && v.now <= s.admittedAt[v.name] + UPGRADE_LIMIT
  {
    LookTakesNoSlot(StatusOf(s.status, v.name), StartOf(s.start, v.name), s.version, v);
    assert HasOrigin(s, v.name);
    SecondsBounds(s.admittedAt[v.name]);
  }

  lemma LookKeepsYoung(cfg: Config, s: State, v: NodeView)
    requires ValidConfig(cfg) && Provenance(s) && Young(cfg, s) && Enabled(cfg, s, Look(v))
    ensures Young(cfg, LookStep(s, v))
  {
    var s', n := LookStep(s, v), |s.phase.seen|;
    if v.persisted.Some? && IsActive(Verdicted(s, v).state) {
      LookedIsYoung(s, v);
    }
    forall i | 0 <= i < n ensures cfg.nodes[i] != v.name && s'.phase.seen[i] == s.phase.seen[i] {
    }
  }

  lemma AdmitKeepsOrigin(cfg: Config, s: State, at: Instant)
    requires Provenance(s) && Enabled(cfg, s, Admit(at))
    ensures Provenance(AdmitStep(cfg, s, at))
  {
    forall n ensures HasOrigin(AdmitStep(cfg, s, at), n) {
      assert HasOrigin(s, n);
    }
  }

  /** Workers and status drops only act on nodes that have been started. */
  lemma OthersKeepTrace(cfg: Config, s: State, e: Event)
    requires Traced(cfg, s) && Enabled(cfg, s, e) && !e.Look? && !e.Admit?
    ensures Provenance(Step(cfg, s, e)) && Young(cfg, Step(cfg, s, e))
  {
    forall n ensures HasOrigin(Step(cfg, s, e), n) {
      assert HasOrigin(s, n);
    }
  }

  lemma AdmitKeepsYoung(cfg: Config, s: State, at: Instant)
    requires ValidConfig(cfg) && PassOk(cfg, s) && Young(cfg, s) && Enabled(cfg, s, Admit(at))
    ensures Young(cfg, AdmitStep(cfg, s, at))
  {
    var target := AdmitTarget(cfg, s, at);
    var s' := AdmitStep(cfg, s, at);
    forall i | 0 <= i < |s.phase.seen| && i != target
      ensures cfg.nodes[i] != cfg.nodes[target] && s'.phase.seen[i] == s.phase.seen[i]
    {
    }
  }

  lemma StepKeepsTrace(cfg: Config, s: State, e: Event)
    requires ValidConfig(cfg) && Traced(cfg, s)
    requires Enabled(cfg, s, e) && Undisturbed(s, e)
    ensures Traced(cfg, Step(cfg, s, e))
  {
    StepKeepsExclusion(cfg, s, e);
    match e
    case Look(v) =>
      LookKeepsOrigin(s, v);
      LookKeepsYoung(cfg, s, v);
    case Admit(at) =>
      AdmitKeepsOrigin(cfg, s, at);
      AdmitKeepsYoung(cfg, s, at);
    case _ => OthersKeepTrace(cfg, s, e);
  }

  lemma {:induction false} RunKeepsTrace(cfg: Config, s: State, run: seq<Event>)
    requires ValidConfig(cfg) && Traced(cfg, s) && Calm(cfg, s, run)
    ensures Legal(cfg, s, run) && Traced(cfg, Play(cfg, s, run))
    decreases |run|
  {
    CalmIsLegal(cfg, s, run);
    if run != [] {
      StepKeepsTrace(cfg, s, run[0]);
      RunKeepsTrace(cfg, Step(cfg, s, run[0]), run[1..]);
    }
  }

  /** Provenance: a node that is active, Reboot-Failed, or failed otherwise than
      by an uncordon was started by an earlier Admit step, and an active one
      still carries the stamp of that step. */
  lemma UpgradesWereAdmitted(cfg: Config, run: seq<Event>, n: NodeId)
    requires ValidConfig(cfg) && Calm(cfg, INITIAL, run)
    ensures Legal(cfg, INITIAL, run)
    ensures var s := Play(cfg, INITIAL, run);
            IsAdmitted(StatusOf(s.status, n)) ==>
              && n in s.admittedAt && n in s.start
              && (IsActive(StatusOf(s.status, n)) ==> s.start[n] == Stamp(Seconds(s.admittedAt[n])))
  {
    RunKeepsTrace(cfg, INITIAL, run);
    assert HasOrigin(Play(cfg, INITIAL, run), n);
  }

  /** Bounded age: when a pass has looked at every node, each node that is active
      and has a persisted entry was started at most two hours before the look. */
  lemma UpgradesAreYoung(cfg: Config, run: seq<Event>, i: nat)
    requires ValidConfig(cfg) && Calm(cfg, INITIAL, run)
    requires i < |cfg.nodes|
    ensures Legal(cfg, INITIAL, run)
    ensures var s := Play(cfg, INITIAL, run);
            Scanned(cfg, s) && s.phase.seen[i].persisted && IsActive(StatusOf(s.status, cfg.nodes[i])) ==>
              && cfg.nodes[i] in s.admittedAt
              && s.phase.seen[i].at - s.admittedAt[cfg.nodes[i]] <= UPGRADE_LIMIT
  {
    RunKeepsTrace(cfg, INITIAL, run);
  }

  /** The timeout over whole runs: a look finds an active node with a persisted
      entry timed out exactly when more than two hours have passed since the
      second in which it was started. */
  lemma TimedOutIff(cfg: Config, run: seq<Event>, v: NodeView)
    requires ValidConfig(cfg) && Calm(cfg, INITIAL, run) && Legal(cfg, INITIAL, run)
    requires Enabled(cfg, Play(cfg, INITIAL, run), Look(v)) && v.persisted.Some?
    requires IsActive(StatusOf(Play(cfg, INITIAL, run).status, v.name))
    ensures var s := Play(cfg, INITIAL, run);
            && v.name in s.admittedAt
            && (Verdicted(s, v) == Verdict(TimedOut, FailedNode) <==>
                v.now - (s.admittedAt[v.name] - s.admittedAt[v.name] % 1_000_000_000) > 7_200_000_000_000)
  {
    RunKeepsTrace(cfg, INITIAL, run);
    var s := Play(cfg, INITIAL, run);
    assert HasOrigin(s, v.name);
    var at := s.admittedAt[v.name];
    TimeExceededIff(StartOf(s.start, v.name), v, Seconds(at));
    assert Seconds(at) * SECOND == at - at % SECOND;
    RefreshTable(StatusOf(s.status, v.name), StartOf(s.start, v.name), v);
    LookTable(Refreshed(StatusOf(s.status, v.name), StartOf(s.start, v.name), v), s.version, v);
  }

  /** Nodes the running pass found done or failed have no start time. */
  ghost predicate Cleared(cfg: Config, s: State) {
    s.phase.Scanning? && |s.phase.seen| <= |cfg.nodes| ==>
      forall i :: 0 <= i < |s.phase.seen| && s.phase.seen[i].bucket in {Done, FailedNode} ==>
        StartOf(s.start, cfg.nodes[i]) == NoStamp
  }

  lemma LookKeepsCleared(cfg: Config, s: State, v: NodeView)
    requires ValidConfig(cfg) && Cleared(cfg, s) && Enabled(cfg, s, Look(v))
    ensures Cleared(cfg, LookStep(s, v))
  {
    var s' := LookStep(s, v);
    forall i | 0 <= i < |s.phase.seen| ensures cfg.nodes[i] != v.name && s'.phase.seen[i] == s.phase.seen[i] {
    }
  }

  lemma AdmitKeepsCleared(cfg: Config, s: State, at: Instant)
    requires ValidConfig(cfg) && PassOk(cfg, s) && Cleared(cfg, s) && Enabled(cfg, s, Admit(at))
    ensures Cleared(cfg, AdmitStep(cfg, s, at))
  {
    var target := AdmitTarget(cfg, s, at);
    forall i | 0 <= i < |s.phase.seen| && i != target ensures cfg.nodes[i] != cfg.nodes[target] {
    }
  }

  lemma {:induction false} RunKeepsCleared(cfg: Config, s: State, run: seq<Event>)
    requires ValidConfig(cfg) && Exclusive(cfg, s) && Cleared(cfg, s) && Calm(cfg, s, run)
    ensures Legal(cfg, s, run) && Cleared(cfg, Play(cfg, s, run))
    decreases |run|
  {
    CalmIsLegal(cfg, s, run);
    if run != [] {
      StepKeepsExclusion(cfg, s, run[0]);
      match run[0] {
        case Look(v) => LookKeepsCleared(cfg, s, v);
        case Admit(at) => AdmitKeepsCleared(cfg, s, at);
        case _ =>
      }
      RunKeepsCleared(cfg, Step(cfg, s, run[0]), run[1..]);
    }
  }

  /** In every run, a node the running pass found done or failed has its start
      time cleared, so the next upgrade of it is timed from its own start. */
  lemma StartsCleared(cfg: Config, run: seq<Event>, i: nat)
    requires ValidConfig(cfg) && Calm(cfg, INITIAL, run) && i < |cfg.nodes|
    ensures Legal(cfg, INITIAL, run)
    ensures var s := Play(cfg, INITIAL, run);
            s.phase.Scanning? && i < |s.phase.seen| <= |cfg.nodes| && s.phase.seen[i].bucket in {Done, FailedNode} ==>
              StartOf(s.start, cfg.nodes[i]) == NoStamp
  {
    RunKeepsCleared(cfg, INITIAL, run);
  }

  /** A pass for another version than the last one forgets every status, any other
      pass none. */
  lemma NewVersionForgets(cfg: Config, s: State, version: string, n: NodeId)
    requires s.phase.Idle?
    ensures var s' := Step(cfg, s, BeginPass(version));
            && s'.version == version
            && StatusOf(s'.status, n)
               == if s.version in {"", version} then StatusOf(s.status, n) else Empty
  {
  }

  // --------------------------------------------------------- sticky statuses

  /** The step neither asks for a retry of a failed node n nor drops statuses. */
  predicate LeavesFailed(s: State, e: Event, n: NodeId) {
    match e
    case Look(v) => v.name == n ==> !Requeued(v)
    case BeginPass(version) => !VersionChanges(s, version)
    case DropStatuses => false
    case _ => true
  }

  predicate LeavesFinished(s: State, e: Event, n: NodeId) {
    match e
    case Look(v) => v.name == n ==> ImageMatches(s.version, v)
    case BeginPass(version) => !VersionChanges(s, version)
    case DropStatuses => false
    case _ => true
  }

  predicate RunLeaves(cfg: Config, s: State, run: seq<Event>, n: NodeId, finished: bool)
    decreases |run|
  {
    run == [] ||
    (&& Enabled(cfg, s, run[0])
     && (if finished then LeavesFinished(s, run[0], n) else LeavesFailed(s, run[0], n))
     && RunLeaves(cfg, Step(cfg, s, run[0]), run[1..], n, finished))
  }

  /** n is a candidate of the running pass that has not been started yet. */
  ghost predicate InLine(cfg: Config, s: State, n: NodeId) {
    s.phase.Scanning? && |s.phase.seen| <= |cfg.nodes| &&
    exists i :: 0 <= i < |s.phase.seen| && Waiting(s.phase, i) && cfg.nodes[i] == n
  }

  lemma LookLeavesLine(cfg: Config, s: State, v: NodeView, n: NodeId)
    requires !InLine(cfg, s, n) && Enabled(cfg, s, Look(v))
    requires v.name == n ==> !Verdicted(s, v).bucket.Candidate?
    ensures !InLine(cfg, LookStep(s, v), n)
  {
    var s' := LookStep(s, v);
    forall i | 0 <= i < |s.phase.seen| ensures Waiting(s'.phase, i) == Waiting(s.phase, i) {
      LookChoosesNone(s.phase, s'.phase.seen[|s.phase.seen|], i);
    }
  }

  lemma AdmitLeavesLine(cfg: Config, s: State, at: Instant, n: NodeId)
    requires PassOk(cfg, s) && !InLine(cfg, s, n) && Enabled(cfg, s, Admit(at))
    ensures StatusOf(AdmitStep(cfg, s, at).status, n) == StatusOf(s.status, n)
    ensures !InLine(cfg, AdmitStep(cfg, s, at), n)
  {
    var target := AdmitTarget(cfg, s, at);
    var s' := AdmitStep(cfg, s, at);
    assert cfg.nodes[target] != n;
    forall i | 0 <= i < |s.phase.seen| ensures Waiting(s'.phase, i) ==> Waiting(s.phase, i) {
      ChosenGrows(s.phase, target, i);
    }
  }

  /** The step may leave the status of n as it is. */
  predicate Leaves(s: State, e: Event, n: NodeId) {
    || (IsFailed(StatusOf(s.status, n)) && LeavesFailed(s, e, n))
    || (IsFinished(StatusOf(s.status, n)) && LeavesFinished(s, e, n))
  }

  lemma LookLeavesStatus(s: State, v: NodeView, n: NodeId)
    requires s.phase.Scanning? && Leaves(s, Look(v), n) && v.name == n
    ensures Verdicted(s, v).state == StatusOf(s.status, n) && !Verdicted(s, v).bucket.Candidate?
  {
  }

  lemma OtherLeavesStatus(cfg: Config, s: State, e: Event, n: NodeId)
    requires WorkerDiscipline(cfg, s) && !InLine(cfg, s, n) && Enabled(cfg, s, e) && !e.Look? && !e.Admit?
    requires Leaves(s, e, n)
    ensures StatusOf(Step(cfg, s, e).status, n) == StatusOf(s.status, n)
    ensures !InLine(cfg, Step(cfg, s, e), n)
  {
    if e.Work? {
      assert IsUpgrading(StatusOf(s.status, s.workers[e.id].node));
    }
  }

  lemma StepLeavesStatus(cfg: Config, s: State, e: Event, n: NodeId)
    requires ValidConfig(cfg) && Exclusive(cfg, s) && !InLine(cfg, s, n)
    requires Enabled(cfg, s, e) && Leaves(s, e, n)
    ensures StatusOf(Step(cfg, s, e).status, n) == StatusOf(s.status, n)
    ensures !InLine(cfg, Step(cfg, s, e), n)
  {
    match e
    case Look(v) =>
      if v.name == n {
        LookLeavesStatus(s, v, n);
      }
      LookLeavesLine(cfg, s, v, n);
    case Admit(at) => AdmitLeavesLine(cfg, s, at, n);
    case _ => OtherLeavesStatus(cfg, s, e, n);
  }

  lemma {:induction false} RunLeavesStatus(cfg: Config, s: State, run: seq<Event>, n: NodeId, finished: bool)
    requires ValidConfig(cfg) && Exclusive(cfg, s) && !InLine(cfg, s, n)
    requires Calm(cfg, s, run) && RunLeaves(cfg, s, run, n, finished)
    requires if finished then IsFinished(StatusOf(s.status, n)) else IsFailed(StatusOf(s.status, n))
    ensures Legal(cfg, s, run)
    ensures StatusOf(Play(cfg, s, run).status, n) == StatusOf(s.status, n)
    decreases |run|
  {
    CalmIsLegal(cfg, s, run);
    if run != [] {
      StepKeepsExclusion(cfg, s, run[0]);
      StepLeavesStatus(cfg, s, run[0], n);
      RunLeavesStatus(cfg, Step(cfg, s, run[0]), run[1..], n, finished);
    }
  }

  /** A node that is failed between two passes keeps that very status over any
      number of passes, until a pass finds the upgrade-required label on it and
      every call of the requeue goes well. */
  lemma FailedSticks(cfg: Config, before: seq<Event>, run: seq<Event>, n: NodeId)
    requires ValidConfig(cfg)
    requires Calm(cfg, INITIAL, before) && Legal(cfg, INITIAL, before)
    requires var s := Play(cfg, INITIAL, before);
             s.phase.Idle? && Calm(cfg, s, run) && RunLeaves(cfg, s, run, n, false) && IsFailed(StatusOf(s.status, n))
    ensures var s := Play(cfg, INITIAL, before);
            Legal(cfg, s, run) && StatusOf(Play(cfg, s, run).status, n) == StatusOf(s.status, n)
  {
    RunKeepsExclusion(cfg, INITIAL, before);
    RunLeavesStatus(cfg, Play(cfg, INITIAL, before), run, n, false);
  }

  /** A node that is Complete or Install-Complete between two passes keeps that
      status for as long as every look finds the wanted image on it. */
  lemma FinishedSticks(cfg: Config, before: seq<Event>, run: seq<Event>, n: NodeId)
    requires ValidConfig(cfg)
    requires Calm(cfg, INITIAL, before) && Legal(cfg, INITIAL, before)
    requires var s := Play(cfg, INITIAL, before);
             s.phase.Idle? && Calm(cfg, s, run) && RunLeaves(cfg, s, run, n, true) && IsFinished(StatusOf(s.status, n))
    ensures var s := Play(cfg, INITIAL, before);
            Legal(cfg, s, run) && StatusOf(Play(cfg, s, run).status, n) == StatusOf(s.status, n)
  {
    RunKeepsExclusion(cfg, INITIAL, before);
    RunLeavesStatus(cfg, Play(cfg, INITIAL, before), run, n, true);
  }

  // ------------------------------------------------------- the pass as a whole

  /** The six buckets partition the nodes a pass has looked at. */
  lemma {:induction false} BucketsPartition(seen: seq<Seen>, upTo: nat)
    requires upTo <= |seen|
    ensures CountOf(seen, FailedNode, upTo) + CountOf(seen, Progressing, upTo) + CountOf(seen, Done, upTo)
            + CountOf(seen, Installing, upTo) + CountOf(seen, NotReady, upTo) + CountOf(seen, Candidate, upTo) == upTo
  {
    if upTo > 0 {
      BucketsPartition(seen, upTo - 1);
    }
  }

  /** Classification is a partition: once a pass has looked at every node, the
      bucket sizes add up to the number of nodes, and each bucket still fixes
      what its nodes' statuses can be, whatever the workers did meanwhile. */
  lemma PassPartitions(cfg: Config, run: seq<Event>)
    requires ValidConfig(cfg) && Calm(cfg, INITIAL, run)
    ensures Legal(cfg, INITIAL, run)
    ensures var s := Play(cfg, INITIAL, run);
            Scanned(cfg, s) ==>
              && Count(s.phase.seen, FailedNode) + Count(s.phase.seen, Progressing) + Count(s.phase.seen, Done)
                 + Count(s.phase.seen, Installing) + Count(s.phase.seen, NotReady) + Count(s.phase.seen, Candidate)
                 == |cfg.nodes|
              && forall i :: 0 <= i < |cfg.nodes| ==> Placed(s.phase, i, StatusOf(s.status, cfg.nodes[i]))
  {
    RunKeepsExclusion(cfg, INITIAL, run);
    var s := Play(cfg, INITIAL, run);
    if Scanned(cfg, s) {
      BucketsPartition(s.phase.seen, |s.phase.seen|);
    }
  }

  // ------------------------------------------------------------ running on

  lemma {:induction false} PlayAppend(cfg: Config, s: State, run: seq<Event>, e: Event)
    requires Legal(cfg, s, run) && Enabled(cfg, Play(cfg, s, run), e)
    ensures Legal(cfg, s, run + [e])
    ensures Play(cfg, s, run + [e]) == Step(cfg, Play(cfg, s, run), e)
    decreases |run|
  {
    if run == [] {
      assert run + [e] == [e] && [e][1..] == [];
    } else {
      PlayAppend(cfg, Step(cfg, s, run[0]), run[1..], e);
      assert (run + [e])[1..] == run[1..] + [e];
    }
  }
}

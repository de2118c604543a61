/** The upgrade manager as a state machine. Its steps are: a pass begins, looks
    at the next node, starts the next candidate, ends; one API reply reaches one
    worker goroutine; the statuses are dropped. A run is any sequence of steps,
    so workers interleave with a pass between any two nodes it looks at. */
module UpgradeMachine {
  import opened Base
  import opened NodeUpgrade

  /** The node list and policy of a DeviceConfig, fixed over a run. */
  datatype Config = Config(nodes: seq<NodeId>, policy: Policy, reboot: bool)

  /** Where a worker goroutine stands in handleNodeUpgrade, handleNodeReboot and
      deleteRebootPod: the API call whose reply it waits for. */
  datatype Pc =
    | Begin | Cordon | Drain | Label
    | PodCleanup | RebootLabel | PodCreate | Confirm | FindPod
    | Await(polls: nat)

  datatype Worker = Worker(node: NodeId, pc: Pc)

  /** ok: the call succeeded. current: the DeviceConfig still has the version the
      worker was started for. done: the version label is already right (Begin) or
      the node is Ready again (Await). */
  datatype Reply = Reply(ok: bool, current: bool, done: bool)

  /** The status a worker writes, if any, and where it goes on, if anywhere. */
  datatype Move = Move(write: Option<UpgradeState>, next: Option<Pc>)

  const MAX_POLLS: nat := 360

  function WorkerMove(pc: Pc, reboot: bool, r: Reply): Move {
    match pc
    case Begin => if r.done then Move(Some(InProgress), None) else Move(None, Some(Cordon))
    case Cordon =>
      if !r.current then Move(None, None)
      else if !r.ok then Move(Some(CordonFailed), None)
      else Move(None, Some(Drain))
    case Drain =>
      if !r.current then Move(None, None)
      else if !r.ok then Move(Some(DrainFailed), None)
      else Move(None, Some(if reboot then PodCleanup else Label))
    case Label => Move(Some(if r.ok then InProgress else Failed), None)
    case PodCleanup => if r.ok then Move(None, Some(RebootLabel)) else Move(Some(RebootFailed), None)
    case RebootLabel => if r.ok then Move(None, Some(PodCreate)) else Move(Some(Failed), None)
    case PodCreate => if r.ok then Move(None, Some(Confirm)) else Move(Some(RebootFailed), None)
    case Confirm =>
      if r.ok then Move(if r.current then Some(RebootInProgress) else None, Some(FindPod))
      else Move(None, None)
    case FindPod => Move(None, if r.ok then Some(Await(0)) else None)
    case Await(polls) =>
      if !r.ok then Move(None, None)
      else if r.done || polls >= MAX_POLLS then Move(if r.current then Some(InProgress) else None, None)
      else Move(None, Some(Await(polls + 1)))
  }

  type Statuses = map<NodeId, UpgradeState>
  type Starts = map<NodeId, Stamp>

  function StatusOf(m: Statuses, node: NodeId): UpgradeState {
    if node in m then m[node] else Empty
  }

  /** setNodeStatus stores only a status that differs from the one it reads. */
  function SetStatus(m: Statuses, node: NodeId, s: UpgradeState): (r: Statuses)
    ensures StatusOf(r, node) == s
    ensures forall other :: other != node ==> StatusOf(r, other) == StatusOf(m, other)
  {
    if StatusOf(m, node) != s then m[node := s] else m
  }

  lemma SetTwice(m: Statuses, node: NodeId, a: UpgradeState, b: UpgradeState)
    requires !b.Empty?
    ensures SetStatus(SetStatus(m, node, a), node, b) == SetStatus(m, node, b)
  {
  }

  lemma SetCommutes(m: Statuses, n: NodeId, a: UpgradeState, n': NodeId, b: UpgradeState)
    requires n != n'
    ensures SetStatus(SetStatus(m, n, a), n', b) == SetStatus(SetStatus(m, n', b), n, a)
  {
  }

  function StartOf(m: Starts, node: NodeId): Stamp {
    if node in m then m[node] else NoStamp
  }

  /** A node the running pass has looked at. */
  datatype Seen = Seen(bucket: Bucket, at: Instant, persisted: bool)

  datatype Phase = Idle | Scanning(seen: seq<Seen>, admitted: nat)

  /** admittedAt is a history variable: when each node was last started. */
  datatype State = State(
    status: Statuses,
    start: Starts,
    version: string,
    workers: map<nat, Worker>,
    spawned: nat,
    phase: Phase,
    clock: Instant,
    admittedAt: map<NodeId, Instant>)

  const INITIAL := State(map[], map[], "", map[], 0, Idle, 0, map[])

  function CountOf(seen: seq<Seen>, b: Bucket, upTo: nat): (r: nat)
    requires upTo <= |seen|
    ensures r <= upTo
  {
    if upTo == 0 then 0
    else CountOf(seen, b, upTo - 1) + if seen[upTo - 1].bucket == b then 1 else 0
  }

  function Count(seen: seq<Seen>, b: Bucket): nat {
    CountOf(seen, b, |seen|)
  }

  /** The candidates of the pass, in node order. */
  function Candidates(nodes: seq<NodeId>, seen: seq<Seen>): (r: seq<NodeId>)
    requires |seen| <= |nodes|
    ensures |r| == Count(seen, Candidate)
  {
    CandidatesUpTo(nodes, seen, |seen|)
  }

  function CandidatesUpTo(nodes: seq<NodeId>, seen: seq<Seen>, upTo: nat): (r: seq<NodeId>)
    requires upTo <= |seen| <= |nodes|
    ensures |r| == CountOf(seen, Candidate, upTo)
  {
    if upTo == 0 then []
    else CandidatesUpTo(nodes, seen, upTo - 1) +
         if seen[upTo - 1].bucket == Candidate then [nodes[upTo - 1]] else []
  }

  function PassQuota(cfg: Config, seen: seq<Seen>): nat {
    Quota(cfg.policy, Count(seen, Progressing), Count(seen, FailedNode), Count(seen, Candidate), |cfg.nodes|)
  }

  datatype Event =
    | BeginPass(version: string)
    | Look(view: NodeView)
    | Admit(at: Instant)
    | EndPass
    | Work(id: nat, reply: Reply)
    | DropStatuses

  predicate Scanned(cfg: Config, s: State) {
    s.phase.Scanning? && |s.phase.seen| == |cfg.nodes|
  }

  predicate Enabled(cfg: Config, s: State, e: Event) {
    match e
    case BeginPass(_) => s.phase.Idle?
    case Look(v) =>
      && s.phase.Scanning?
      && |s.phase.seen| < |cfg.nodes|
      && v.name == cfg.nodes[|s.phase.seen|]
      && s.clock <= v.now
    case Admit(at) => Scanned(cfg, s) && s.phase.admitted < PassQuota(cfg, s.phase.seen) && s.clock <= at
    case EndPass => Scanned(cfg, s) && s.phase.admitted == PassQuota(cfg, s.phase.seen)
    case Work(id, _) => id in s.workers
    case DropStatuses => s.phase.Idle?
  }

  predicate VersionChanges(s: State, version: string) {
    s.version != "" && s.version != version
  }

  function Verdicted(s: State, v: NodeView): Verdict {
    Classify(StatusOf(s.status, v.name), StartOf(s.start, v.name), s.version, v)
  }

  function LookStep(s: State, v: NodeView): State
    requires s.phase.Scanning?
  {
    var r := Verdicted(s, v);
    s.(status := SetStatus(s.status, v.name, r.state),
       start := if ClearsStart(r.bucket) then s.start[v.name := NoStamp] else s.start,
       clock := v.now,
       phase := s.phase.(seen := s.phase.seen + [Seen(r.bucket, v.now, v.persisted.Some?)]))
  }

  function AdmitStep(cfg: Config, s: State, at: Instant): State
    requires Enabled(cfg, s, Admit(at))
  {
    QuotaExactAndMaximal(cfg.policy, Count(s.phase.seen, Progressing), Count(s.phase.seen, FailedNode),
                         Count(s.phase.seen, Candidate), |cfg.nodes|);
    StartOn(s, Candidates(cfg.nodes, s.phase.seen)[s.phase.admitted], at)
  }

  /** The node is marked and stamped, and a worker goroutine starts for it. */
  function StartOn(s: State, node: NodeId, at: Instant): State
    requires s.phase.Scanning?
  {
    s.(status := SetStatus(s.status, node, Started),
       start := s.start[node := Stamp(Seconds(at))],
       workers := s.workers[s.spawned := Worker(node, Begin)],
       spawned := s.spawned + 1,
       clock := at,
       admittedAt := s.admittedAt[node := at],
       phase := s.phase.(admitted := s.phase.admitted + 1))
  }

  function WorkStep(cfg: Config, s: State, id: nat, r: Reply): State
    requires id in s.workers
  {
    var w := s.workers[id];
    var m := WorkerMove(w.pc, cfg.reboot, r);
    s.(status := if m.write.Some? then SetStatus(s.status, w.node, m.write.value) else s.status,
       workers := if m.next.Some? then s.workers[id := w.(pc := m.next.value)] else s.workers - {id})
  }

  function Step(cfg: Config, s: State, e: Event): State
    requires Enabled(cfg, s, e)
  {
    match e
    case BeginPass(version) =>
      s.(status := if VersionChanges(s, version) then map[] else s.status,
         version := version,
         phase := Scanning([], 0))
    case Look(v) => LookStep(s, v)
    case Admit(at) => AdmitStep(cfg, s, at)
    case EndPass => s.(phase := Idle)
    case Work(id, r) => WorkStep(cfg, s, id, r)
    case DropStatuses => s.(status := map[])
  }

  predicate Owned(s: State, node: NodeId) {
    exists id :: id in s.workers && s.workers[id].node == node
  }

  /** Assumption W: a node's time runs out, and its status is dropped, only while
      no worker goroutine is live for it. The operator cancels no worker. */
  predicate Undisturbed(s: State, e: Event) {
    match e
    case Look(v) => Owned(s, v.name) ==> !TimeExceeded(StartOf(s.start, v.name), v)
    case BeginPass(version) => VersionChanges(s, version) ==> s.workers == map[]
    case DropStatuses => s.workers == map[]
    case _ => true
  }

  predicate Legal(cfg: Config, s: State, run: seq<Event>)
    decreases |run|
  {
    run == [] || (Enabled(cfg, s, run[0]) && Legal(cfg, Step(cfg, s, run[0]), run[1..]))
  }

  function Play(cfg: Config, s: State, run: seq<Event>): State
    requires Legal(cfg, s, run)
    decreases |run|
  {
    if run == [] then s else Play(cfg, Step(cfg, s, run[0]), run[1..])
  }

  ghost predicate Leads(cfg: Config, s: State, run: seq<Event>, s': State) {
    Legal(cfg, s, run) && Play(cfg, s, run) == s'
  }

  /** A legal run that meets assumption W. */
  predicate Calm(cfg: Config, s: State, run: seq<Event>)
    decreases |run|
  {
    run == [] ||
    (Enabled(cfg, s, run[0]) && Undisturbed(s, run[0]) && Calm(cfg, Step(cfg, s, run[0]), run[1..]))
  }

  predicate UncordonsGoWell(run: seq<Event>) {
    forall i :: 0 <= i < |run| && run[i].Look? ==> UncordonsSucceed(run[i].view)
  }

  lemma {:induction false} CalmIsLegal(cfg: Config, s: State, run: seq<Event>)
    requires Calm(cfg, s, run)
    ensures Legal(cfg, s, run)
    decreases |run|
  {
    if run != [] {
      CalmIsLegal(cfg, Step(cfg, s, run[0]), run[1..]);
    }
  }
}

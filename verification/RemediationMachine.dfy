/** Auto-remediation as a state machine: a pass cleans the status CR and reloads
    the tracker, then visits nodes one by one; between any two steps Argo may
    move workflows on. Creating a workflow is gated by the tracker. */
module RemediationMachine {
  import opened Base
  import opened Attempts

  datatype WorkflowPhase = Pending | Running | Succeeded | Ended

  /** node is the node the workflow was created for. suspended: a Suspend stage
      of it is running. */
  datatype Workflow = Workflow(name: string, node: NodeId, phase: WorkflowPhase, suspended: bool)

  /** The windowSize of a recovery policy: empty, a duration, or text that does not parse. */
  datatype Window = Unset | Length(ns: int) | Unparsable

  datatype Mapping = Mapping(condition: Condition, maxRuns: int, window: Window)

  const DEFAULT_MAX_RUNS: int := 3
  const DEFAULT_WINDOW: int := 5 * HOUR

  function EffectiveMax(m: Mapping): int {
    if m.maxRuns == 0 then DEFAULT_MAX_RUNS else m.maxRuns
  }

  function WindowOf(m: Mapping): Option<int> {
    match m.window
    case Unset => Some(DEFAULT_WINDOW)
    case Length(ns) => Some(ns)
    case Unparsable => None
  }

  /** What a pass meets on one node, and how its API calls end. */
  datatype NodeVisit = NodeVisit(
    node: NodeId,
    mapping: Option<Mapping>,  // of the node's first true condition that has one
    listed: bool,              // listing workflows succeeded
    deletable: set<string>,    // workflows whose deletion would succeed
    abortLabel: bool,
    abortLabelRemoved: bool,   // taking the abort label off succeeded
    tainted: bool,
    upgrading: bool,           // driver install or upgrade in progress
    templateFound: bool,
    created: bool,             // creating the workflow succeeded
    template: string,          // the mapping's workflow template
    suffix: string,            // generated end of the new workflow's name
    pruneAt: Instant,
    at: Instant,               // start time registered for the attempt
    written: bool)             // writing the attempt to the status CR succeeded

  /** What the operator takes a node's workflow names to begin with. */
  function NamePrefix(node: NodeId): string {
    node.text + "-"
  }

  /** The API server keeps this much of the GenerateName it is given, and appends
      five generated characters, none of them a dash. */
  const MAX_GENERATED: nat := 58

  /** The name of a new workflow, from the GenerateName "node-template-". */
  function WorkflowName(node: NodeId, template: string, suffix: string): string {
    var base := NamePrefix(node) + template + "-";
    (if |base| > MAX_GENERATED then base[..MAX_GENERATED] else base) + suffix
  }

  datatype Outcome = Outcome(kept: seq<Workflow>, create: bool)

  /** handleExistingWorkflowsOnNode: finished workflows are deleted, the first
      running one decides. */
  function Existing(todo: seq<Workflow>, v: NodeVisit): Outcome {
    if todo == [] then Outcome([], true) else
    var w := todo[0];
    if !HasPrefix(w.name, NamePrefix(v.node)) || w.phase.Pending? || w.phase.Ended? then
      var rest := Existing(todo[1..], v);
      Outcome([w] + rest.kept, rest.create)
    else if w.phase.Succeeded? then
      if w.name in v.deletable then Existing(todo[1..], v) else Outcome(todo, false)
    else if w.suspended && v.abortLabel && w.name in v.deletable then
      Outcome(todo[1..], v.abortLabelRemoved)
    else Outcome(todo, false)
  }

  datatype Pair = Pair(node: NodeId, condition: Condition)

  datatype Phase = Idle | InPass(visited: set<NodeId>)

  /** history is a history variable: when every workflow ever created for a pair
      was started. cutoff is the one of the last CR cleanup. */
  datatype State = State(
    cr: StatusCR,
    tracker: Tracker,
    workflows: seq<Workflow>,
    history: map<Pair, seq<Instant>>,
    phase: Phase,
    cutoff: int,
    clock: Instant)

  const INITIAL := State(map[], map[], [], map[], Idle, -(RETENTION as int), 0)

  function HistoryOf(s: State, node: NodeId, condition: Condition): seq<Instant> {
    if Pair(node, condition) in s.history then s.history[Pair(node, condition)] else []
  }

  predicate Violated(tracker: Tracker, node: NodeId, m: Mapping) {
    |Lookup(tracker, node, m.condition)| >= EffectiveMax(m)
  }

  function Register(cr: StatusCR, node: NodeId, condition: Condition, a: Attempt): StatusCR {
    var conditions := if node in cr then cr[node] else map[];
    cr[node := conditions[condition := ListOf(cr, node, condition) + [a]]]
  }

  /** The visit passes every gate and its workflow is created. */
  predicate Creates(s: State, v: NodeVisit) {
    && v.mapping.Some? && v.listed
    && Existing(s.workflows, v).create
    && !v.tainted && !v.upgrading && !Violated(s.tracker, v.node, v.mapping.value)
    && v.templateFound && v.created
  }

  /** The created workflow is also registered in the CR. */
  predicate Records(v: NodeVisit) {
    v.mapping.Some? && WindowOf(v.mapping.value).Some? && v.written
  }

  function VisitStep(s: State, v: NodeVisit): State
    requires s.phase.InPass?
  {
    var s1 := s.(phase := InPass(s.phase.visited + {v.node}));
    if v.mapping.None? || !v.listed then s1 else
    var s2 := s1.(workflows := Existing(s.workflows, v).kept);
    if Creates(s, v) then CreateStep(s2, v) else s2
  }

  /** Create, prune by the policy window, register in the tracker, then in the CR.
      A window that does not parse, or a failed write, ends the pass. */
  function CreateStep(s: State, v: NodeVisit): State
    requires v.mapping.Some?
  {
    var m := v.mapping.value;
    var name := WorkflowName(v.node, v.template, v.suffix);
    var made := s.(
      workflows := s.workflows + [Workflow(name, v.node, Pending, false)],
      history := s.history[Pair(v.node, m.condition) := HistoryOf(s, v.node, m.condition) + [v.at]],
      clock := v.at);
    var window := WindowOf(m);
    if window.None? then made.(phase := Idle) else
    var pruned := DropOld(Lookup(s.tracker, v.node, m.condition), v.pruneAt - window.value);
    var noted := made.(tracker := s.tracker[Key(v.node, m.condition) := pruned + [v.at]]);
    if v.written
    then noted.(cr := Register(s.cr, v.node, m.condition, Attempt(name, Seconds(v.at))))
    else noted.(phase := Idle)
  }

  datatype Event =
    | Begin(now: Instant, synced: Option<Tracker>)  // None: reloading the tracker failed
    | Visit(visit: NodeVisit)
    | End
    | Argo(index: nat, next: Option<Workflow>)      // a workflow moves on, or is removed

  predicate IsLive(p: WorkflowPhase) {
    p.Pending? || p.Running?
  }

  predicate ArgoMoves(w: Workflow, next: Option<Workflow>) {
    next.Some? ==>
      next.value.name == w.name && next.value.node == w.node && (IsLive(next.value.phase) ==> IsLive(w.phase))
  }

  ghost predicate Enabled(s: State, e: Event) {
    match e
    case Begin(now, synced) =>
      && s.phase.Idle? && s.clock <= now
      && (synced.Some? ==> SyncedFrom(Clean(s.cr, now - RETENTION), synced.value))
    case Visit(v) =>
      s.phase.InPass? && v.node !in s.phase.visited && s.clock <= v.pruneAt <= v.at && '-' !in v.suffix
    case End => s.phase.InPass?
    case Argo(i, next) => i < |s.workflows| && ArgoMoves(s.workflows[i], next)
  }

  ghost function Step(s: State, e: Event): State
    requires Enabled(s, e)
  {
    match e
    case Begin(now, synced) =>
      var cleaned := s.(cr := Clean(s.cr, now - RETENTION), cutoff := now - RETENTION, clock := now);
      if synced.Some? then cleaned.(tracker := synced.value, phase := InPass({})) else cleaned
    case Visit(v) => VisitStep(s, v)
    case End => s.(phase := Idle)
    case Argo(i, next) =>
      s.(workflows := s.workflows[..i] + (if next.Some? then [next.value] else []) + s.workflows[i + 1..])
  }

  ghost predicate Legal(s: State, run: seq<Event>)
    decreases |run|
  {
    run == [] || (Enabled(s, run[0]) && Legal(Step(s, run[0]), run[1..]))
  }

  ghost function Play(s: State, run: seq<Event>): State
    requires Legal(s, run)
    decreases |run|
  {
    if run == [] then s else Play(Step(s, run[0]), run[1..])
  }

  lemma {:induction false} LegalAppend(s: State, run: seq<Event>, e: Event)
    requires Legal(s, run) && Enabled(Play(s, run), e)
    ensures Legal(s, run + [e]) && Play(s, run + [e]) == Step(Play(s, run), e)
    decreases |run|
  {
    if run == [] {
      assert run + [e] == [e] && [e][1..] == [];
    } else {
      LegalAppend(Step(s, run[0]), run[1..], e);
      assert (run + [e])[1..] == run[1..] + [e];
    }
  }
}

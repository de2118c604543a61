/** Exactly which node names keep remediation to one running workflow per node:
    the operator finds a node's workflows by their names alone. */
module WorkflowLimits {
  import opened Base
  import opened Attempts
  import opened RemediationMachine
  import opened WorkflowSafety

  /** States of runs in which created workflows have left the pending phase when
      their node is visited again. */
  ghost predicate Reached(s: State, nodes: set<NodeId>) {
    exists run :: SettledRun(INITIAL, run, nodes) && Legal(INITIAL, run) && Play(INITIAL, run) == s
  }

  lemma {:induction false} SettledAppend(s: State, run: seq<Event>, e: Event, nodes: set<NodeId>)
    requires SettledRun(s, run, nodes) && Legal(s, run)
    requires Enabled(Play(s, run), e) && Settled(Play(s, run), e, nodes)
    ensures SettledRun(s, run + [e], nodes)
    decreases |run|
  {
    if run == [] {
      assert run + [e] == [e] && [e][1..] == [];
    } else {
      SettledAppend(Step(s, run[0]), run[1..], e, nodes);
      assert (run + [e])[1..] == run[1..] + [e];
    }
  }

  lemma ReachNext(s: State, e: Event, nodes: set<NodeId>)
    requires Reached(s, nodes) && Enabled(s, e) && Settled(s, e, nodes)
    ensures Reached(Step(s, e), nodes)
  {
    var run :| SettledRun(INITIAL, run, nodes) && Legal(INITIAL, run) && Play(INITIAL, run) == s;
    LegalAppend(INITIAL, run, e);
    SettledAppend(INITIAL, run, e, nodes);
  }

  /** Between passes at instant 0, with nothing recorded. */
  ghost predicate Fresh(s: State, nodes: set<NodeId>, ws: seq<Workflow>) {
    Reached(s, nodes) && s.phase.Idle? && s.clock == 0 && s.cr == map[] && s.workflows == ws
  }

  lemma FreshStart(nodes: set<NodeId>)
    ensures Fresh(INITIAL, nodes, [])
  {
    assert SettledRun(INITIAL, [], nodes) && Legal(INITIAL, []) && Play(INITIAL, []) == INITIAL;
  }

  /** A visit that passes every gate and whose workflow is not recorded. */
  function PlainVisit(n: NodeId): NodeVisit {
    NodeVisit(n, Some(Mapping(Condition("Fault"), 1, Unset)), true, {}, false, false, false, false, true, true,
              "t", "w", 0, 0, false)
  }

  /** Only how the operator deals with the node's workflows is left open. */
  predicate IsPlain(v: NodeVisit) {
    v == PlainVisit(v.node).(deletable := v.deletable, abortLabel := v.abortLabel,
                             abortLabelRemoved := v.abortLabelRemoved)
  }

  lemma PlainCreates(s: State, v: NodeVisit)
    requires s.phase == InPass({}) && s.tracker == map[] && IsPlain(v) && Existing(s.workflows, v).create
    ensures var s' := VisitStep(s, v);
            && s'.phase.Idle? && s'.clock == 0 && s'.cr == s.cr
            && s'.workflows == Existing(s.workflows, v).kept + [NewWorkflow(v)]
  {
    assert Creates(s, v);
  }

  /** A pass with one such visit. */
  lemma PlainPass(s: State, nodes: set<NodeId>, ws: seq<Workflow>, v: NodeVisit) returns (s': State)
    requires Fresh(s, nodes, ws) && IsPlain(v) && v.node in nodes
    requires NoPending(ws, v.node) && Existing(ws, v).create
    ensures Fresh(s', nodes, Existing(ws, v).kept + [NewWorkflow(v)])
  {
    assert Clean(map[], 0 - RETENTION) == map[];
    assert SyncedFrom(map[], map[]);
    ReachNext(s, Begin(0, Some(map[])), nodes);
    var s1 := Step(s, Begin(0, Some(map[])));
    PlainCreates(s1, v);
    ReachNext(s1, Visit(v), nodes);
    s' := Step(s1, Visit(v));
  }

  function Running(w: Workflow, suspended: bool): Workflow {
    w.(phase := WorkflowPhase.Running, suspended := suspended)
  }

  /** Argo starts a pending workflow. */
  lemma StartWorkflow(s: State, nodes: set<NodeId>, ws: seq<Workflow>, i: nat, suspended: bool) returns (s': State)
    requires Fresh(s, nodes, ws) && i < |ws| && ws[i].phase.Pending?
    ensures Fresh(s', nodes, ws[i := Running(ws[i], suspended)])
  {
    var next := Running(ws[i], suspended);
    ReachNext(s, Argo(i, Some(next)), nodes);
    s' := Step(s, Argo(i, Some(next)));
    assert ws[..i] + [next] + ws[i + 1..] == ws[i := next];
  }

  lemma TwoRunning(w: Workflow, w': Workflow, n: NodeId)
    requires w.node == w'.node == n && w.phase.Running? && w'.phase.Running?
    ensures RunningOn([w, w'], n) == 2
  {
    assert [w, w'][1..] == [w'] && [w'][1..] == [];
    assert RunningOn([w'], n) == 1 + RunningOn([w'][1..], n);
  }

  /** A node whose name is too long: its running workflow is not recognised. */
  lemma LongNameOverruns(n: NodeId, nodes: set<NodeId>) returns (s: State)
    requires n in nodes && !IsShort(n)
    ensures Reached(s, nodes) && RunningOn(s.workflows, n) == 2
  {
    var v := PlainVisit(n);
    var w := NewWorkflow(v);
    var r := Running(w, false);
    FreshStart(nodes);
    s := PlainPass(INITIAL, nodes, [], v);
    assert [] + [w] == [w];
    s := StartWorkflow(s, nodes, [w], 0, false);
    assert [w][0 := r] == [r];
    LongLosesPrefix(n, v.template, v.suffix);
    assert [r][1..] == [] && Existing([r], v) == Outcome([r], true);
    s := PlainPass(s, nodes, [r], v);
    assert [r] + [w] == [r, w];
    s := StartWorkflow(s, nodes, [r, w], 1, false);
    assert [r, w][1 := r] == [r, r];
    TwoRunning(r, r, n);
  }

  lemma WithinPrefix(a: NodeId, b: NodeId, template: string, suffix: string)
    requires HasPrefix(b.text, NamePrefix(a)) && IsShort(b)
    ensures HasPrefix(WorkflowName(b, template, suffix), NamePrefix(a))
  {
    var name, p := WorkflowName(b, template, suffix), NamePrefix(a);
    ShortKeepsPrefix(b, template, suffix);
    assert name[..|p|] == NamePrefix(b)[..|p|] == b.text[..|p|];
  }

  /** A node whose name with a dash begins another's: aborting the other node's
      workflow makes room for a second one on this node. */
  lemma SharedPrefixOverruns(a: NodeId, b: NodeId, nodes: set<NodeId>) returns (s: State)
    requires a in nodes && b in nodes && a != b && IsShort(b) && HasPrefix(b.text, NamePrefix(a))
    ensures Reached(s, nodes) && RunningOn(s.workflows, a) == 2
  {
    var va, vb := PlainVisit(a), PlainVisit(b);
    var wa, wb := NewWorkflow(va), NewWorkflow(vb);
    var ra, rb := Running(wa, false), Running(wb, true);
    FreshStart(nodes);
    s := PlainPass(INITIAL, nodes, [], vb);
    assert [] + [wb] == [wb] && [wb][1..] == [];
    assert Existing([wb], va) == Outcome([wb] + [], true);
    s := PlainPass(s, nodes, [wb], va);
    assert Existing([wb], va).kept + [wa] == [wb, wa];
    s := StartWorkflow(s, nodes, [wb, wa], 0, true);
    assert [wb, wa][0 := rb] == [rb, wa];
    s := StartWorkflow(s, nodes, [rb, wa], 1, false);
    assert [rb, wa][1 := ra] == [rb, ra];
    WithinPrefix(a, b, vb.template, vb.suffix);
    var v := va.(deletable := {wb.name}, abortLabel := true, abortLabelRemoved := true);
    assert [rb, ra][1..] == [ra] && Existing([rb, ra], v) == Outcome([ra], true);
    s := PlainPass(s, nodes, [rb, ra], v);
    assert [ra] + [wa] == [ra, wa];
    s := StartWorkflow(s, nodes, [ra, wa], 1, false);
    assert [ra, wa][1 := ra] == [ra, ra];
    TwoRunning(ra, ra, a);
  }

  /** In all settled runs over the nodes no node has two running workflows, if and
      only if no node name followed by a dash begins another one, and every name
      leaves room for its dash in a generated name. */
  lemma AtMostOneRunningIff(nodes: set<NodeId>)
    ensures (forall s, n :: Reached(s, nodes) ==> RunningOn(s.workflows, n) <= 1) <==> Tellable(nodes)
  {
    if Tellable(nodes) {
      forall s, n | Reached(s, nodes) ensures RunningOn(s.workflows, n) <= 1 {
        var run :| SettledRun(INITIAL, run, nodes) && Legal(INITIAL, run) && Play(INITIAL, run) == s;
        AtMostOneRunning(run, nodes, n);
      }
    } else if n :| n in nodes && !IsShort(n) {
      var s := LongNameOverruns(n, nodes);
    } else {
      var a, b :| a in nodes && b in nodes && a != b && HasPrefix(b.text, NamePrefix(a));
      var s := SharedPrefixOverruns(a, b, nodes);
    }
  }
}

/** At most one remediation workflow runs per node, and exactly when. */
module WorkflowSafety {
  import opened Base
  import opened Attempts
  import opened RemediationMachine
  import opened RemediationSafety

  // ---------------------------------------------------------- names and nodes

  /** No node name followed by a dash begins another node's name. */
  ghost predicate PrefixFree(nodes: set<NodeId>) {
    forall a, b :: a in nodes && b in nodes && a != b ==> !HasPrefix(b.text, NamePrefix(a))
  }

  ghost predicate Named(w: Workflow) {
    HasPrefix(w.name, NamePrefix(w.node))
  }

  /** Two dash-terminated prefixes of one name: the same node, or one within the other. */
  lemma TwoPrefixes(name: string, a: NodeId, b: NodeId)
    requires HasPrefix(name, NamePrefix(a)) && HasPrefix(name, NamePrefix(b))
    ensures a == b || HasPrefix(b.text, NamePrefix(a)) || HasPrefix(a.text, NamePrefix(b))
  {
    var p, q := NamePrefix(a), NamePrefix(b);
    if |p| < |q| {
      assert b.text[..|p|] == name[..|p|];
    } else if |q| < |p| {
      assert a.text[..|q|] == name[..|q|];
    } else {
      assert a.text == p[..|p| - 1] && b.text == q[..|q| - 1];
    }
  }

  /** The name prefix test finds exactly the node's own workflows. */
  lemma PrefixDecides(w: Workflow, n: NodeId, nodes: set<NodeId>)
    requires PrefixFree(nodes) && w.node in nodes && n in nodes && Named(w)
    ensures HasPrefix(w.name, NamePrefix(n)) <==> w.node == n
  {
    if HasPrefix(w.name, NamePrefix(n)) {
      TwoPrefixes(w.name, w.node, n);
    }
  }

  // ------------------------------------------------------------ live workflows

  /** Workflows of the node that are running or about to run. */
  function LiveOn(ws: seq<Workflow>, n: NodeId): nat {
    if ws == [] then 0
    else (if ws[0].node == n && IsLive(ws[0].phase) then 1 else 0) + LiveOn(ws[1..], n)
  }

  function RunningOn(ws: seq<Workflow>, n: NodeId): nat {
    if ws == [] then 0
    else (if ws[0].node == n && ws[0].phase.Running? then 1 else 0) + RunningOn(ws[1..], n)
  }

  lemma {:induction false} RunningIsLive(ws: seq<Workflow>, n: NodeId)
    ensures RunningOn(ws, n) <= LiveOn(ws, n)
  {
    if ws != [] {
      RunningIsLive(ws[1..], n);
    }
  }

  lemma {:induction false} LiveConcat(a: seq<Workflow>, b: seq<Workflow>, n: NodeId)
    ensures LiveOn(a + b, n) == LiveOn(a, n) + LiveOn(b, n)
  {
    if a == [] {
      assert a + b == b;
    } else {
      LiveConcat(a[1..], b, n);
      assert (a + b)[1..] == a[1..] + b;
    }
  }

  ghost predicate NoPending(ws: seq<Workflow>, n: NodeId) {
    forall w :: w in ws && w.node == n ==> !w.phase.Pending?
  }

  ghost predicate WellNamed(ws: seq<Workflow>, nodes: set<NodeId>) {
    forall w :: w in ws ==> w.node in nodes && Named(w)
  }

  /** Nothing new appears among the kept workflows. */
  lemma {:induction false} ExistingShrinks(todo: seq<Workflow>, v: NodeVisit, n: NodeId)
    ensures LiveOn(Existing(todo, v).kept, n) <= LiveOn(todo, n)
    ensures forall w :: w in Existing(todo, v).kept ==> w in todo
  {
    if todo != [] {
      ExistingShrinks(todo[1..], v, n);
      LiveConcat([todo[0]], Existing(todo[1..], v).kept, n);
      LiveConcat([todo[0]], todo[1..], n);
      assert [todo[0]] + todo[1..] == todo;
    }
  }

  /** When a workflow may be created, the node's live workflows left are the
      pending ones, which the loop over the list does not look at. */
  lemma {:induction false} ExistingClears(todo: seq<Workflow>, v: NodeVisit, nodes: set<NodeId>)
    requires PrefixFree(nodes) && WellNamed(todo, nodes) && v.node in nodes
    requires LiveOn(todo, v.node) <= 1 && Existing(todo, v).create
    ensures LiveOn(Existing(todo, v).kept, v.node) == 0 <==> NoPending(todo, v.node)
  {
    if todo != [] {
      var w := todo[0];
      PrefixDecides(w, v.node, nodes);
      assert todo == [w] + todo[1..];
      if HasPrefix(w.name, NamePrefix(v.node)) && w.phase.Running? {
        NoneLive(todo[1..], v.node);
      } else {
        ExistingClears(todo[1..], v, nodes);
        LiveConcat([w], Existing(todo[1..], v).kept, v.node);
      }
    }
  }

  // ------------------------------------------- what stays and what goes, exactly

  /** A workflow of the node, going by its name. */
  predicate LooksOwn(w: Workflow, v: NodeVisit) {
    HasPrefix(w.name, v.node.text + "-")
  }

  /** A running workflow that waits in a Suspend stage, whose node carries the abort
      label and whose deletion succeeds. */
  predicate IsAborted(w: Workflow, v: NodeVisit) {
    w.phase == Running && w.suspended && v.abortLabel && w.name in v.deletable
  }

  /** The loop over the workflows ends at the first one of the node that runs, or
      that succeeded and cannot be deleted. */
  predicate Stops(w: Workflow, v: NodeVisit) {
    LooksOwn(w, v) && (w.phase == Running || (w.phase == Succeeded && w.name !in v.deletable))
  }

  ghost predicate FirstStop(ws: seq<Workflow>, v: NodeVisit, stop: nat) {
    && stop <= |ws|
    && (forall i :: 0 <= i < stop ==> !Stops(ws[i], v))
    && (stop < |ws| ==> Stops(ws[stop], v))
  }

  /** Gone are the node's succeeded workflows before the end of the loop, and the
      one at its end when it is aborted. */
  predicate Goes(ws: seq<Workflow>, v: NodeVisit, stop: nat, i: nat)
    requires i < |ws|
  {
    LooksOwn(ws[i], v) && ((i < stop && ws[i].phase == Succeeded) || (i == stop && IsAborted(ws[i], v)))
  }

  lemma {:induction false} StopExists(ws: seq<Workflow>, v: NodeVisit, k: nat) returns (stop: nat)
    requires k <= |ws| && forall i :: 0 <= i < k ==> !Stops(ws[i], v)
    ensures FirstStop(ws, v, stop) && k <= stop
    decreases |ws| - k
  {
    if k == |ws| || Stops(ws[k], v) {
      stop := k;
    } else {
      stop := StopExists(ws, v, k + 1);
    }
  }

  /** The rest of the list, once the loop has ended. */
  lemma {:induction false} AllFrom(ws: seq<Workflow>, k: nat) returns (at: seq<nat>)
    requires k <= |ws|
    ensures PickedAt(ws, at, ws[k..])
    ensures forall i :: i in at <==> k <= i < |ws|
    decreases |ws| - k
  {
    at := [];
    if k < |ws| {
      at := AllFrom(ws, k + 1);
      PickFirst(ws, k, at, ws[k + 1..]);
      assert [ws[k]] + ws[k + 1..] == ws[k..];
      at := [k] + at;
    }
  }

  lemma {:induction false} ExistingFrom(ws: seq<Workflow>, v: NodeVisit, stop: nat, k: nat) returns (at: seq<nat>)
    requires FirstStop(ws, v, stop) && k <= stop
    ensures PickedAt(ws, at, Existing(ws[k..], v).kept)
    ensures forall i :: i in at <==> k <= i < |ws| && !Goes(ws, v, stop, i)
    ensures Existing(ws[k..], v).create <==> stop == |ws| || (IsAborted(ws[stop], v) && v.abortLabelRemoved)
    decreases |ws| - k
  {
    if k == |ws| {
      at := [];
    } else if k == stop {
      at := AllFrom(ws, if IsAborted(ws[k], v) then k + 1 else k);
      assert ws[k..][1..] == ws[k + 1..];
    } else {
      at := ExistingFrom(ws, v, stop, k + 1);
      assert ws[k..][1..] == ws[k + 1..];
      if !Goes(ws, v, stop, k) {
        PickFirst(ws, k, at, Existing(ws[k + 1..], v).kept);
        at := [k] + at;
      }
    }
  }

  /** What a visit does to the workflows already there: they keep their order, only
      those that Goes names are removed, and a new one may be created exactly when
      the loop met no end, or ended at an aborted workflow whose label came off. */
  lemma ExistingExact(ws: seq<Workflow>, v: NodeVisit) returns (stop: nat, at: seq<nat>)
    ensures FirstStop(ws, v, stop)
    ensures PickedAt(ws, at, Existing(ws, v).kept)
    ensures forall i :: 0 <= i < |ws| ==> (i in at <==> !Goes(ws, v, stop, i))
    ensures Existing(ws, v).create <==> stop == |ws| || (IsAborted(ws[stop], v) && v.abortLabelRemoved)
  {
    stop := StopExists(ws, v, 0);
    at := ExistingFrom(ws, v, stop, 0);
    assert ws[0..] == ws;
  }

  /** Never touched: other nodes' workflows, pending and ended ones, and running ones
      that are not aborted. */
  lemma SparedStay(ws: seq<Workflow>, v: NodeVisit, w: Workflow)
    requires w in ws
    requires || !LooksOwn(w, v) || w.phase in {Pending, Ended}
             || (w.phase == Running && !(w.suspended && v.abortLabel && w.name in v.deletable))
    ensures w in Existing(ws, v).kept
  {
    var stop, at := ExistingExact(ws, v);
    var i :| 0 <= i < |ws| && ws[i] == w;
    assert i in at;
  }

  /** When a visit creates a workflow, from what it meets alone. */
  lemma CreatedIff(s: State, v: NodeVisit, stop: nat)
    requires s.phase.InPass? && FirstStop(s.workflows, v, stop) && v.mapping.Some?
    ensures var s', m := VisitStep(s, v), v.mapping.value;
            if && v.listed && !v.tainted && !v.upgrading && v.templateFound && v.created
               && (stop == |s.workflows| || (IsAborted(s.workflows[stop], v) && v.abortLabelRemoved))
               && |Lookup(s.tracker, v.node, m.condition)| < (if m.maxRuns == 0 then 3 else m.maxRuns)
            then && HistoryOf(s', v.node, m.condition) == HistoryOf(s, v.node, m.condition) + [v.at]
                 && s'.workflows != [] && s'.workflows[|s'.workflows| - 1] == NewWorkflow(v)
            else s'.history == s.history && |s'.workflows| <= |s.workflows|
  {
    var stop', at := ExistingExact(s.workflows, v);
    assert stop' == stop;
    KeptNoLonger(s.workflows, v);
  }

  lemma {:induction false} KeptNoLonger(ws: seq<Workflow>, v: NodeVisit)
    ensures |Existing(ws, v).kept| <= |ws|
  {
    if ws != [] {
      KeptNoLonger(ws[1..], v);
    }
  }

  lemma {:induction false} NoneLive(ws: seq<Workflow>, n: NodeId)
    requires LiveOn(ws, n) == 0
    ensures forall w :: w in ws && w.node == n ==> !IsLive(w.phase)
  {
    if ws != [] {
      NoneLive(ws[1..], n);
      assert ws == [ws[0]] + ws[1..];
    }
  }

  ghost predicate Solo(s: State, nodes: set<NodeId>) {
    WellNamed(s.workflows, nodes) && forall n :: LiveOn(s.workflows, n) <= 1
  }

  /** The API server leaves the dash behind the node's name in a generated name. */
  predicate IsShort(n: NodeId) {
    |n.text| < MAX_GENERATED
  }

  lemma ShortKeepsPrefix(n: NodeId, template: string, suffix: string)
    requires IsShort(n)
    ensures HasPrefix(WorkflowName(n, template, suffix), NamePrefix(n))
  {
    var base := NamePrefix(n) + template + "-";
    var name := WorkflowName(n, template, suffix);
    assert name[..|NamePrefix(n)|] == base[..|NamePrefix(n)|] == NamePrefix(n);
  }

  lemma LongLosesPrefix(n: NodeId, template: string, suffix: string)
    requires !IsShort(n) && '-' !in suffix
    ensures !HasPrefix(WorkflowName(n, template, suffix), NamePrefix(n))
  {
    var base := NamePrefix(n) + template + "-";
    var name, p := WorkflowName(n, template, suffix), NamePrefix(n);
    assert |base| > MAX_GENERATED && name == base[..MAX_GENERATED] + suffix;
    if |p| <= |name| {
      var x := suffix[|n.text| - MAX_GENERATED];
      assert name[|n.text|] == x && x in suffix;
      assert name[..|p|][|n.text|] != p[|n.text|];
    }
  }

  /** A generated workflow name begins with the node and a dash exactly when the
      node's name is short enough. */
  lemma GeneratedNameIff(n: NodeId, template: string, suffix: string)
    requires '-' !in suffix
    ensures HasPrefix(WorkflowName(n, template, suffix), NamePrefix(n)) <==> IsShort(n)
    ensures exists base :: && WorkflowName(n, template, suffix) == base + suffix
                           && HasPrefix(n.text + "-" + template + "-", base)
                           && (|base| == 58 || base == n.text + "-" + template + "-")
  {
    var full := n.text + "-" + template + "-";
    var base := if |full| > 58 then full[..58] else full;
    assert WorkflowName(n, template, suffix) == base + suffix;
    if IsShort(n) {
      ShortKeepsPrefix(n, template, suffix);
    } else {
      LongLosesPrefix(n, template, suffix);
    }
  }

  /** The workflow a visit creates. */
  function NewWorkflow(v: NodeVisit): Workflow {
    Workflow(WorkflowName(v.node, v.template, v.suffix), v.node, Pending, false)
  }

  lemma NewLive(v: NodeVisit, kept: seq<Workflow>, w: Workflow, n: NodeId)
    requires w == NewWorkflow(v) && IsShort(v.node)
    ensures LiveOn(kept + [w], n) == LiveOn(kept, n) + (if n == v.node then 1 else 0) && Named(w)
  {
    LiveConcat(kept, [w], n);
    ShortKeepsPrefix(v.node, v.template, v.suffix);
  }

  /** Creating a workflow keeps every node down to one live workflow exactly when
      the node has none that is still pending. */
  lemma SoloIffNoPending(s: State, v: NodeVisit, nodes: set<NodeId>)
    requires PrefixFree(nodes) && Solo(s, nodes) && v.node in nodes
    requires IsShort(v.node) && Enabled(s, Visit(v)) && Creates(s, v)
    ensures Solo(VisitStep(s, v), nodes) <==> NoPending(s.workflows, v.node)
  {
    var kept := Existing(s.workflows, v).kept;
    var w := NewWorkflow(v);
    assert VisitStep(s, v).workflows == kept + [w];
    ExistingClears(s.workflows, v, nodes);
    NewLive(v, kept, w, v.node);
    forall n ensures LiveOn(kept + [w], n) <= 1 || n == v.node {
      ExistingShrinks(s.workflows, v, n);
      NewLive(v, kept, w, n);
    }
    ExistingShrinks(s.workflows, v, v.node);
  }

  /** The assumption: workflows created for a node have left the pending phase
      when the node is visited again. */
  ghost predicate Settled(s: State, e: Event, nodes: set<NodeId>) {
    e.Visit? ==> e.visit.node in nodes && NoPending(s.workflows, e.visit.node)
  }

  lemma ArgoKeepsSolo(s: State, i: nat, next: Option<Workflow>, nodes: set<NodeId>)
    requires Solo(s, nodes) && Enabled(s, Argo(i, next))
    ensures Solo(Step(s, Argo(i, next)), nodes)
  {
    var ws, w := s.workflows, s.workflows[i];
    var mid := if next.Some? then [next.value] else [];
    assert ws == ws[..i] + [w] + ws[i + 1..];
    var after := ws[..i] + mid + ws[i + 1..];
    forall n ensures LiveOn(after, n) <= 1 {
      LiveConcat(ws[..i] + mid, ws[i + 1..], n);
      LiveConcat(ws[..i], mid, n);
      LiveConcat(ws[..i] + [w], ws[i + 1..], n);
      LiveConcat(ws[..i], [w], n);
    }
  }

  /** Names that let the operator find a node's own workflows by prefix. */
  ghost predicate Tellable(nodes: set<NodeId>) {
    PrefixFree(nodes) && forall n :: n in nodes ==> IsShort(n)
  }

  lemma VisitKeepsSolo(s: State, v: NodeVisit, nodes: set<NodeId>)
    requires Tellable(nodes) && Solo(s, nodes) && Enabled(s, Visit(v)) && Settled(s, Visit(v), nodes)
    ensures Solo(VisitStep(s, v), nodes)
  {
    if Creates(s, v) {
      SoloIffNoPending(s, v, nodes);
    } else {
      forall n ensures LiveOn(VisitStep(s, v).workflows, n) <= 1 {
        ExistingShrinks(s.workflows, v, n);
      }
      ExistingShrinks(s.workflows, v, v.node);
    }
  }

  ghost predicate SettledRun(s: State, run: seq<Event>, nodes: set<NodeId>)
    decreases |run|
  {
    run == [] ||
    (Enabled(s, run[0]) && Settled(s, run[0], nodes) && SettledRun(Step(s, run[0]), run[1..], nodes))
  }

  lemma {:induction false} RunKeepsSolo(s: State, run: seq<Event>, nodes: set<NodeId>)
    requires Tellable(nodes) && Solo(s, nodes) && SettledRun(s, run, nodes)
    ensures Legal(s, run) && Solo(Play(s, run), nodes)
    decreases |run|
  {
    if run != [] {
      match run[0] {
        case Visit(v) => VisitKeepsSolo(s, v, nodes);
        case Argo(i, next) => ArgoKeepsSolo(s, i, next, nodes);
        case _ =>
      }
      RunKeepsSolo(Step(s, run[0]), run[1..], nodes);
    }
  }

  /** At most one remediation workflow runs on any node, in every run. */
  lemma AtMostOneRunning(run: seq<Event>, nodes: set<NodeId>, n: NodeId)
    requires Tellable(nodes) && SettledRun(INITIAL, run, nodes)
    ensures Legal(INITIAL, run) && RunningOn(Play(INITIAL, run).workflows, n) <= 1
  {
    RunKeepsSolo(INITIAL, run, nodes);
    RunningIsLive(Play(INITIAL, run).workflows, n);
  }

  /** A visit that creates a workflow although one was running on the node has
      aborted that one: the label was there, the workflow was suspended, and both
      its deletion and the label's removal succeeded. */
  lemma {:induction false} OnlyAbortReplaces(todo: seq<Workflow>, v: NodeVisit, nodes: set<NodeId>, w: Workflow)
    requires PrefixFree(nodes) && WellNamed(todo, nodes) && v.node in nodes
    requires Existing(todo, v).create && LiveOn(todo, v.node) <= 1
    requires w in todo && w.node == v.node && w.phase.Running?
    ensures w.suspended && v.abortLabel && v.abortLabelRemoved && w.name in v.deletable
    ensures w !in Existing(todo, v).kept
  {
    var x := todo[0];
    PrefixDecides(x, v.node, nodes);
    assert todo == [x] + todo[1..];
    if HasPrefix(x.name, NamePrefix(v.node)) && x.phase.Running? {
      NoneLive(todo[1..], v.node);
      assert w == x;
    } else {
      OnlyAbortReplaces(todo[1..], v, nodes, w);
    }
  }
}

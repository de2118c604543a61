/** Exclusive assignment of nodes to DeviceConfigs: the in-memory assignment map,
    the persisted statuses it is rebuilt from after a restart, and the reconciles
    that keep the two together. */
module NodeOwnership {
  import opened Base

  /** A DeviceConfig by its namespaced name. */
  datatype ConfigId = ConfigId(text: string)

  /** What the API server holds of a config: the Ready condition, the keys of
      NodeModuleStatus, and whether it has a deletion timestamp. */
  datatype ConfigStatus = ConfigStatus(ready: bool, nodes: set<NodeId>, deleting: bool)

  type Configs = map<ConfigId, ConfigStatus>
  type Assignments = map<NodeId, ConfigId>

  /** failed: rebuilding the assignments after the last start returned an error,
      and every reconcile since returns it too. */
  datatype State = State(configs: Configs, assignments: Assignments, failed: bool)

  const INITIAL := State(map[], map[], false)

  // ------------------------------------------------------ the map operations

  predicate Conflicts(m: Assignments, c: ConfigId, nodes: set<NodeId>) {
    exists n :: n in nodes && n in m && m[n] != c
  }

  function Assign(m: Assignments, c: ConfigId, nodes: set<NodeId>): Assignments {
    m + map n | n in nodes :: c
  }

  function Release(m: Assignments, nodes: set<NodeId>): Assignments {
    m - nodes
  }

  function Forget(m: Assignments, c: ConfigId): Assignments {
    map n | n in m && m[n] != c :: m[n]
  }

  /** buildNodeAssignments over the listed configs: None on the first conflict. */
  function Rebuild(configs: Configs, order: seq<ConfigId>): Option<Assignments> {
    if order == [] then Some(map[]) else
    var c := order[|order| - 1];
    var m := Rebuild(configs, order[..|order| - 1]);
    if m.None? || c !in configs || !configs[c].ready then m
    else if Conflicts(m.value, c, configs[c].nodes) then None
    else Some(Assign(m.value, c, configs[c].nodes))
  }

  predicate IsReady(configs: Configs, c: ConfigId) {
    c in configs && configs[c].ready
  }

  /** Ready configs among those listed have no node in common. */
  ghost predicate Disjoint(configs: Configs, order: seq<ConfigId>) {
    forall c, d :: c in order && d in order && c != d && IsReady(configs, c) && IsReady(configs, d) ==>
      configs[c].nodes !! configs[d].nodes
  }

  ghost predicate Exact(configs: Configs, order: seq<ConfigId>, m: Assignments) {
    && (forall n :: n in m ==> m[n] in order && IsReady(configs, m[n]) && n in configs[m[n]].nodes)
    && (forall c, n :: c in order && IsReady(configs, c) && n in configs[c].nodes ==> n in m && m[n] == c)
  }

  lemma ConflictIsOverlap(configs: Configs, front: seq<ConfigId>, c: ConfigId, m: Assignments)
    requires c !in front && IsReady(configs, c)
    requires Disjoint(configs, front) && Exact(configs, front, m)
    ensures Disjoint(configs, front + [c]) <==> !Conflicts(m, c, configs[c].nodes)
  {
    var order := front + [c];
    if Conflicts(m, c, configs[c].nodes) {
      var n :| n in configs[c].nodes && n in m && m[n] != c;
      assert m[n] in order && c in order && n in configs[m[n]].nodes;
    } else {
      forall d | d in front && IsReady(configs, d)
        ensures configs[c].nodes !! configs[d].nodes
      {
        assert forall n :: n in configs[d].nodes ==> n in m && m[n] == d;
      }
    }
  }

  lemma AssignKeepsExact(configs: Configs, front: seq<ConfigId>, c: ConfigId, m: Assignments)
    requires c !in front && IsReady(configs, c)
    requires Exact(configs, front, m) && !Conflicts(m, c, configs[c].nodes)
    ensures Exact(configs, front + [c], Assign(m, c, configs[c].nodes))
  {
    forall d, n | d in front + [c] && IsReady(configs, d) && n in configs[d].nodes
      ensures Assign(m, c, configs[c].nodes)[n] == d
    {
      if d != c {
        assert d in front && n in m && m[n] == d;
      }
    }
  }

  lemma UnreadyAddsNothing(configs: Configs, front: seq<ConfigId>, c: ConfigId)
    requires !IsReady(configs, c)
    ensures Disjoint(configs, front + [c]) <==> Disjoint(configs, front)
    ensures forall m :: Exact(configs, front, m) ==> Exact(configs, front + [c], m)
  {
    assert forall d :: d in front ==> d in front + [c];
    assert forall d :: d in front + [c] && IsReady(configs, d) ==> d in front;
  }

  lemma OverlapStays(configs: Configs, front: seq<ConfigId>, c: ConfigId)
    ensures Disjoint(configs, front + [c]) ==> Disjoint(configs, front)
  {
    assert forall d :: d in front ==> d in front + [c];
  }

  /** Rebuilding succeeds exactly when the Ready configs are disjoint, and then
      maps each of their nodes to its config and nothing else. */
  lemma {:induction false} RebuildExact(configs: Configs, order: seq<ConfigId>)
    requires Distinct(order)
    ensures Rebuild(configs, order).Some? <==> Disjoint(configs, order)
    ensures Rebuild(configs, order).Some? ==> Exact(configs, order, Rebuild(configs, order).value)
  {
    if order != [] {
      var c, front := order[|order| - 1], order[..|order| - 1];
      RebuildExact(configs, front);
      assert order == front + [c] && c !in front;
      if !IsReady(configs, c) {
        UnreadyAddsNothing(configs, front, c);
      } else if Rebuild(configs, front).None? {
        OverlapStays(configs, front, c);
      } else {
        var m := Rebuild(configs, front).value;
        ConflictIsOverlap(configs, front, c, m);
        if !Conflicts(m, c, configs[c].nodes) {
          AssignKeepsExact(configs, front, c, m);
        }
      }
    }
  }

  // ------------------------------------------------------------------ reconciles

  /** How a reconcile of an existing config that is not being deleted ends. */
  datatype Reconciled =
    | Rejected(conditionWritten: bool)  // node conflict or invalid spec
    | Stopped                           // some handler or the status write failed
    | Succeeded

  /** A config being deleted is finalized by two reconciles: one deletes the KMM
      module and releases the selected nodes, a later one finds the module gone
      and removes the finalizer, and with it the object. */
  datatype Event =
    | Create(config: ConfigId)
    | Delete(config: ConfigId)
    | Reconcile(config: ConfigId, nodes: set<NodeId>, outcome: Reconciled)
    | ReleaseNodes(config: ConfigId, nodes: set<NodeId>)
    | Remove(config: ConfigId)
    | NotFound(config: ConfigId)
    | Restart(order: seq<ConfigId>)

  ghost predicate Listing(configs: Configs, order: seq<ConfigId>) {
    Distinct(order) && forall c :: c in order <==> c in configs
  }

  ghost predicate Enabled(s: State, e: Event) {
    match e
    case Create(c) => c !in s.configs
    case Delete(c) => c in s.configs
    case Reconcile(c, nodes, outcome) =>
      && !s.failed && c in s.configs && !s.configs[c].deleting
      && (Conflicts(s.assignments, c, nodes) ==> outcome.Rejected?)
    case ReleaseNodes(c, nodes) => !s.failed && c in s.configs && s.configs[c].deleting
    case Remove(c) => c in s.configs && s.configs[c].deleting && (s.failed ==> !s.configs[c].ready)
    case NotFound(c) => !s.failed && c !in s.configs
    case Restart(order) => Listing(s.configs, order)
  }

  function Step(s: State, e: Event): State {
    match e
    case Create(c) => s.(configs := s.configs[c := ConfigStatus(false, {}, false)])
    case Delete(c) =>
      if c in s.configs then s.(configs := s.configs[c := s.configs[c].(deleting := true)]) else s
    case Reconcile(c, nodes, Rejected(written)) =>
      if written && c in s.configs
      then s.(configs := s.configs[c := s.configs[c].(ready := false)])
      else s
    case Reconcile(c, nodes, Stopped) => s
    case Reconcile(c, nodes, Succeeded) =>
      s.(configs := s.configs[c := ConfigStatus(true, nodes, false)], assignments := Assign(s.assignments, c, nodes))
    case ReleaseNodes(c, nodes) => s.(assignments := Release(s.assignments, nodes))
    case Remove(c) => s.(configs := s.configs - {c})
    case NotFound(c) => s.(assignments := Forget(s.assignments, c))
    case Restart(order) =>
      var rebuilt := Rebuild(s.configs, order);
      if rebuilt.Some? then s.(assignments := rebuilt.value, failed := false) else s.(failed := true)
  }

  /** Ready, and not being deleted. */
  predicate IsLive(configs: Configs, c: ConfigId) {
    IsReady(configs, c) && !configs[c].deleting
  }

  /** Every node in a live config's persisted status is mapped to that config. */
  ghost predicate LiveOwned(s: State) {
    forall c, n :: IsLive(s.configs, c) && n in s.configs[c].nodes ==> n in s.assignments && s.assignments[n] == c
  }

  ghost predicate LiveDisjoint(configs: Configs) {
    forall c, d :: IsLive(configs, c) && IsLive(configs, d) && c != d ==> configs[c].nodes !! configs[d].nodes
  }

  /** No other config, being deleted or not, has a node of a config that is being
      deleted while its status still says Ready. */
  ghost predicate DeletingApart(configs: Configs) {
    forall c, d :: IsReady(configs, c) && IsReady(configs, d) && c != d && configs[c].deleting ==>
      configs[c].nodes !! configs[d].nodes
  }

  /** The pass that releases nodes selects none that a live config owns. */
  ghost predicate Orderly(s: State, e: Event) {
    e.ReleaseNodes? ==> forall d :: IsLive(s.configs, d) ==> s.configs[d].nodes !! e.nodes
  }

  ghost predicate Safe(s: State) {
    LiveDisjoint(s.configs) && (!s.failed ==> LiveOwned(s))
  }

  lemma OwnedIsDisjoint(s: State)
    requires LiveOwned(s)
    ensures LiveDisjoint(s.configs)
  {
    forall c, d | IsLive(s.configs, c) && IsLive(s.configs, d) && c != d
      ensures s.configs[c].nodes !! s.configs[d].nodes
    {
      assert forall n :: n in s.configs[c].nodes ==> s.assignments[n] == c;
      assert forall n :: n in s.configs[d].nodes ==> s.assignments[n] == d;
    }
  }

  /** Ready configs are disjoint exactly when no deleting one is in the way. */
  lemma DisjointIff(configs: Configs, order: seq<ConfigId>)
    requires LiveDisjoint(configs) && Listing(configs, order)
    ensures Disjoint(configs, order) <==> DeletingApart(configs)
  {
    if Disjoint(configs, order) {
      forall c, d | IsReady(configs, c) && IsReady(configs, d) && c != d && configs[c].deleting
        ensures configs[c].nodes !! configs[d].nodes
      {
        assert c in order && d in order;
      }
    }
    if DeletingApart(configs) {
      forall c, d | c in order && d in order && c != d && IsReady(configs, c) && IsReady(configs, d)
        ensures configs[c].nodes !! configs[d].nodes
      {
        assert configs[c].deleting || configs[d].deleting || (IsLive(configs, c) && IsLive(configs, d));
      }
    }
  }

  lemma ReconcileKeepsOwned(s: State, c: ConfigId, nodes: set<NodeId>)
    requires LiveOwned(s) && Enabled(s, Reconcile(c, nodes, Succeeded))
    ensures LiveOwned(Step(s, Reconcile(c, nodes, Succeeded)))
  {
    var s' := Step(s, Reconcile(c, nodes, Succeeded));
    forall d, n | IsLive(s'.configs, d) && n in s'.configs[d].nodes
      ensures n in s'.assignments && s'.assignments[n] == d
    {
      if d != c {
        assert IsLive(s.configs, d) && n in s.configs[d].nodes;
        assert n !in nodes;
      }
    }
  }

  lemma StepKeepsSafe(s: State, e: Event)
    requires Safe(s) && Enabled(s, e) && Orderly(s, e)
    ensures Safe(Step(s, e))
  {
    match e
    case Reconcile(c, nodes, Succeeded) =>
      ReconcileKeepsOwned(s, c, nodes);
      OwnedIsDisjoint(Step(s, e));
    case Restart(order) => RebuildExact(s.configs, order);
    case _ =>
  }

  ghost predicate OrderlyRun(s: State, run: seq<Event>)
    decreases |run|
  {
    run == [] || (Enabled(s, run[0]) && Orderly(s, run[0]) && OrderlyRun(Step(s, run[0]), run[1..]))
  }

  function Play(s: State, run: seq<Event>): State
    decreases |run|
  {
    if run == [] then s else Play(Step(s, run[0]), run[1..])
  }

  lemma {:induction false} RunKeepsSafe(s: State, run: seq<Event>)
    requires Safe(s) && OrderlyRun(s, run)
    ensures Safe(Play(s, run))
    decreases |run|
  {
    if run != [] {
      StepKeepsSafe(s, run[0]);
      RunKeepsSafe(Step(s, run[0]), run[1..]);
    }
  }

  /** Ownership across restarts: in every run, with nodes released before their
      config is gone, every Ready config that is not being deleted owns the nodes
      of its persisted status, no two such configs share a node, and a restart
      rebuilds the assignments exactly when no config that is being deleted and
      still Ready shares a node with another Ready one. */
  lemma OwnershipHolds(run: seq<Event>, order: seq<ConfigId>)
    requires OrderlyRun(INITIAL, run)
    requires Listing(Play(INITIAL, run).configs, order)
    ensures var s := Play(INITIAL, run);
            && (!s.failed ==> LiveOwned(s))
            && LiveDisjoint(s.configs)
            && (Rebuild(s.configs, order).Some? <==> DeletingApart(s.configs))
            && (Rebuild(s.configs, order).Some? ==> Exact(s.configs, order, Rebuild(s.configs, order).value))
  {
    RunKeepsSafe(INITIAL, run);
    var s := Play(INITIAL, run);
    DisjointIff(s.configs, order);
    RebuildExact(s.configs, order);
  }

  // ---------------------------------------------------- what a config is granted

  /** A Ready config that is not being deleted is never rejected for the nodes it
      already has. */
  lemma OwnNodesNeverConflict(run: seq<Event>, c: ConfigId)
    requires OrderlyRun(INITIAL, run)
    ensures var s := Play(INITIAL, run);
            !s.failed && IsLive(s.configs, c) ==> !Conflicts(s.assignments, c, s.configs[c].nodes)
  {
    RunKeepsSafe(INITIAL, run);
  }

  /** Once a config is not found, its nodes stand in no other config's way. */
  lemma VanishedIsFree(s: State, c: ConfigId, d: ConfigId, nodes: set<NodeId>)
    ensures Conflicts(Step(s, NotFound(c)).assignments, d, nodes)
            <==> exists n :: n in nodes && n in s.assignments && s.assignments[n] !in {c, d}
  {
    var m := Step(s, NotFound(c)).assignments;
    assert forall n :: n in m <==> n in s.assignments && s.assignments[n] != c;
  }

  /** Released nodes stand in no config's way, all others as before. */
  lemma ReleasedAreFree(s: State, c: ConfigId, released: set<NodeId>, d: ConfigId, nodes: set<NodeId>)
    ensures Conflicts(Step(s, ReleaseNodes(c, released)).assignments, d, nodes)
            <==> exists n :: n in nodes && n !in released && n in s.assignments && s.assignments[n] != d
  {
    var m := Step(s, ReleaseNodes(c, released)).assignments;
    assert forall n :: n in m <==> n in s.assignments && n !in released;
  }

  /** The event decides whether the config is Ready. */
  predicate Decides(e: Event, c: ConfigId) {
    match e
    case Create(d) => d == c
    case Remove(d) => d == c
    case Reconcile(d, _, Succeeded) => d == c
    case Reconcile(d, _, Rejected(written)) => d == c && written
    case _ => false
  }

  lemma {:induction false} PlayLast(s: State, run: seq<Event>)
    requires run != [] && OrderlyRun(s, run)
    ensures var k := |run| - 1;
            && OrderlyRun(s, run[..k]) && Play(s, run) == Step(Play(s, run[..k]), run[k])
            && Enabled(Play(s, run[..k]), run[k])
    decreases |run|
  {
    var k := |run| - 1;
    if k > 0 {
      PlayLast(Step(s, run[0]), run[1..]);
      assert run[1..][..k - 1] == run[..k][1..];
    }
  }

  lemma {:induction false} NeverDecided(run: seq<Event>, c: ConfigId)
    requires OrderlyRun(INITIAL, run) && forall j :: 0 <= j < |run| ==> !Decides(run[j], c)
    ensures c !in Play(INITIAL, run).configs
    decreases |run|
  {
    if run != [] {
      PlayLast(INITIAL, run);
      NeverDecided(run[..|run| - 1], c);
    }
  }

  /** In every run the last event that decides on a config does: it is Ready exactly
      when that was a reconcile that succeeded, with the nodes of that reconcile. */
  lemma {:induction false} ReadyIffGranted(run: seq<Event>, c: ConfigId, i: nat)
    requires OrderlyRun(INITIAL, run)
    requires i < |run| && Decides(run[i], c) && forall j :: i < j < |run| ==> !Decides(run[j], c)
    ensures var configs := Play(INITIAL, run).configs;
            && (c in configs <==> !run[i].Remove?)
            && (IsReady(configs, c) <==> run[i].Reconcile? && run[i].outcome == Succeeded)
            && (IsReady(configs, c) ==> configs[c].nodes == run[i].nodes)
    decreases |run|
  {
    var k := |run| - 1;
    PlayLast(INITIAL, run);
    if i < k {
      ReadyIffGranted(run[..k], c, i);
    }
  }

  // -------------------------------------------------- restarts during finalization

  /** The step does not assign a node that a config being deleted still has in
      its persisted status. */
  ghost predicate TakesNone(s: State, e: Event) {
    e.Reconcile? && e.outcome.Succeeded? ==>
      forall d :: IsReady(s.configs, d) && s.configs[d].deleting ==> s.configs[d].nodes !! e.nodes
  }

  ghost predicate TakesNoneRun(s: State, run: seq<Event>)
    decreases |run|
  {
    run == [] || (TakesNone(s, run[0]) && TakesNoneRun(Step(s, run[0]), run[1..]))
  }

  /** Deleting configs stay apart over a step exactly when it takes none of their nodes. */
  lemma StaysApartIff(s: State, e: Event)
    requires Safe(s) && DeletingApart(s.configs) && Enabled(s, e)
    ensures DeletingApart(Step(s, e).configs) <==> TakesNone(s, e)
  {
    var s' := Step(s, e);
    match e
    case Reconcile(c, nodes, Succeeded) =>
      if !TakesNone(s, e) {
        var d :| IsReady(s.configs, d) && s.configs[d].deleting && !(s.configs[d].nodes !! nodes);
        assert IsReady(s'.configs, d) && IsReady(s'.configs, c) && c != d;
      }
    case Delete(c) =>
      forall x, d | IsReady(s'.configs, x) && IsReady(s'.configs, d) && x != d && s'.configs[x].deleting
        ensures s'.configs[x].nodes !! s'.configs[d].nodes
      {
        assert s.configs[x].deleting || s.configs[d].deleting || (IsLive(s.configs, x) && IsLive(s.configs, d));
      }
    case _ =>
  }

  lemma {:induction false} RunStaysApart(s: State, run: seq<Event>, k: nat)
    requires Safe(s) && DeletingApart(s.configs) && OrderlyRun(s, run) && TakesNoneRun(s, run) && k <= |run|
    ensures DeletingApart(Play(s, run[..k]).configs)
    decreases k
  {
    if k > 0 {
      StepKeepsSafe(s, run[0]);
      StaysApartIff(s, run[0]);
      RunStaysApart(Step(s, run[0]), run[1..], k - 1);
      assert run[..k][1..] == run[1..][..k - 1];
    }
  }

  /** A run that takes a node of a deleting config passes through an overlap. */
  lemma {:induction false} RunOverlaps(s: State, run: seq<Event>) returns (k: nat)
    requires Safe(s) && DeletingApart(s.configs) && OrderlyRun(s, run) && !TakesNoneRun(s, run)
    ensures k <= |run| && !DeletingApart(Play(s, run[..k]).configs)
    decreases |run|
  {
    StaysApartIff(s, run[0]);
    if !TakesNone(s, run[0]) {
      k := 1;
      assert run[..1][1..] == [] && Play(s, run[..1]) == Play(Step(s, run[0]), []);
    } else {
      StepKeepsSafe(s, run[0]);
      k := RunOverlaps(Step(s, run[0]), run[1..]);
      assert run[..k + 1][1..] == run[1..][..k];
      k := k + 1;
    }
  }

  lemma {:induction false} OrderlyPrefix(s: State, run: seq<Event>, k: nat)
    requires OrderlyRun(s, run) && k <= |run|
    ensures OrderlyRun(s, run[..k])
    decreases k
  {
    if k > 0 {
      OrderlyPrefix(Step(s, run[0]), run[1..], k - 1);
      assert run[..k][1..] == run[1..][..k - 1];
    }
  }

  lemma {:induction false} ListingExists(configs: Configs) returns (order: seq<ConfigId>)
    ensures Listing(configs, order)
    decreases |configs|
  {
    if configs == map[] {
      order := [];
    } else {
      var c :| c in configs;
      var rest := ListingExists(configs - {c});
      order := rest + [c];
    }
  }

  /** A start at any point of the run would rebuild the assignments. */
  ghost predicate RestartsSucceed(run: seq<Event>) {
    forall k, order :: 0 <= k <= |run| && Listing(Play(INITIAL, run[..k]).configs, order) ==>
      Rebuild(Play(INITIAL, run[..k]).configs, order).Some?
  }

  /** Over a whole run, a restart at any point succeeds if and only if no reconcile
      assigned a node of a config being deleted. */
  lemma RestartsSucceedIff(run: seq<Event>)
    requires OrderlyRun(INITIAL, run)
    ensures RestartsSucceed(run) <==> TakesNoneRun(INITIAL, run)
  {
    if TakesNoneRun(INITIAL, run) {
      forall k, order | 0 <= k <= |run| && Listing(Play(INITIAL, run[..k]).configs, order)
        ensures Rebuild(Play(INITIAL, run[..k]).configs, order).Some?
      {
        OrderlyPrefix(INITIAL, run, k);
        RunStaysApart(INITIAL, run, k);
        OwnershipHolds(run[..k], order);
      }
    } else {
      var k := RunOverlaps(INITIAL, run);
      var order := ListingExists(Play(INITIAL, run[..k]).configs);
      OrderlyPrefix(INITIAL, run, k);
      OwnershipHolds(run[..k], order);
    }
  }

  /** Every Ready config, being deleted or not, owns its nodes. */
  ghost predicate AllOwned(s: State) {
    forall c, n :: IsReady(s.configs, c) && n in s.configs[c].nodes ==> n in s.assignments && s.assignments[n] == c
  }

  ghost predicate Apart(configs: Configs, nodes: set<NodeId>) {
    forall c :: IsReady(configs, c) ==> configs[c].nodes !! nodes
  }

  /** A config is removed right after its nodes are released, and releases no node
      of another Ready config. */
  ghost predicate AtOnce(s: State, run: seq<Event>)
    decreases |run|
  {
    run == [] ||
    (&& (run[0].ReleaseNodes? ==>
           && Apart(s.configs - {run[0].config}, run[0].nodes)
           && (|run| > 1 ==> run[1] == Remove(run[0].config)))
     && AtOnce(Step(s, run[0]), run[1..]))
  }

  lemma AllOwnedApart(s: State, c: ConfigId, d: ConfigId)
    requires AllOwned(s) && c != d && IsReady(s.configs, c) && IsReady(s.configs, d)
    ensures s.configs[c].nodes !! s.configs[d].nodes
  {
    assert forall n :: n in s.configs[c].nodes ==> s.assignments[n] == c;
    assert forall n :: n in s.configs[d].nodes ==> s.assignments[n] == d;
  }

  lemma ExactOwns(configs: Configs, order: seq<ConfigId>, m: Assignments, failed: bool)
    requires Listing(configs, order) && Exact(configs, order, m)
    ensures AllOwned(State(configs, m, failed))
  {
  }

  lemma AllOwnedRebuilds(s: State, order: seq<ConfigId>)
    requires AllOwned(s) && Listing(s.configs, order)
    ensures Rebuild(s.configs, order).Some? && AllOwned(Step(s, Restart(order)))
  {
    forall c, d | c in order && d in order && c != d && IsReady(s.configs, c) && IsReady(s.configs, d)
      ensures s.configs[c].nodes !! s.configs[d].nodes
    {
      AllOwnedApart(s, c, d);
    }
    assert Disjoint(s.configs, order);
    RebuildExact(s.configs, order);
    ExactOwns(s.configs, order, Rebuild(s.configs, order).value, false);
  }

  lemma StepKeepsAllOwned(s: State, e: Event)
    requires AllOwned(s) && !s.failed && Enabled(s, e) && !e.ReleaseNodes?
    ensures TakesNone(s, e) && AllOwned(Step(s, e)) && !Step(s, e).failed
  {
    var s' := Step(s, e);
    match e
    case Reconcile(c, nodes, Succeeded) =>
      forall d, n | d != c && IsReady(s.configs, d) && n in s.configs[d].nodes ensures n !in nodes {
        assert s.assignments[n] == d;
      }
    case Restart(order) => AllOwnedRebuilds(s, order);
    case _ =>
  }

  /** Removal right after the release keeps every Ready config's nodes. */
  lemma ReleaseAndRemove(s: State, c: ConfigId, nodes: set<NodeId>)
    requires AllOwned(s) && Apart(s.configs - {c}, nodes)
    ensures AllOwned(Step(Step(s, ReleaseNodes(c, nodes)), Remove(c)))
  {
    forall d, n | d != c && IsReady(s.configs, d) && n in s.configs[d].nodes ensures n !in nodes {
      assert IsReady(s.configs - {c}, d);
    }
  }

  ghost predicate EndsReleasing(run: seq<Event>) {
    run != [] && run[|run| - 1].ReleaseNodes?
  }

  lemma {:induction false} AtOnceKeepsAllOwned(s: State, run: seq<Event>)
    requires AllOwned(s) && !s.failed && OrderlyRun(s, run) && AtOnce(s, run)
    ensures TakesNoneRun(s, run)
    ensures EndsReleasing(run) || (AllOwned(Play(s, run)) && !Play(s, run).failed)
    decreases |run|
  {
    if run != [] {
      var s' := Step(s, run[0]);
      if !run[0].ReleaseNodes? {
        StepKeepsAllOwned(s, run[0]);
        AtOnceKeepsAllOwned(s', run[1..]);
      } else if |run| > 1 {
        ReleaseAndRemove(s, run[0].config, run[0].nodes);
        AtOnceKeepsAllOwned(Step(s', run[1]), run[1..][1..]);
      }
    }
  }

  /** When every config is removed right after its nodes are released, no restart
      of the run fails, and outside that gap every Ready config owns its nodes. */
  lemma RemovedAtOnce(run: seq<Event>)
    requires OrderlyRun(INITIAL, run) && AtOnce(INITIAL, run)
    ensures RestartsSucceed(run)
    ensures EndsReleasing(run) || AllOwned(Play(INITIAL, run))
  {
    AtOnceKeepsAllOwned(INITIAL, run);
    RestartsSucceedIff(run);
  }

  /** The pass that deletes the KMM module releases the nodes while the config,
      still Ready, stays until a later reconcile. Ownership survives that pass
      exactly when no Ready config has a selected node. */
  lemma EarlyReleaseKeepsOwnershipIff(s: State, c: ConfigId, nodes: set<NodeId>)
    requires AllOwned(s)
    ensures AllOwned(Step(s, ReleaseNodes(c, nodes))) <==> Apart(s.configs, nodes)
  {
    var s' := Step(s, ReleaseNodes(c, nodes));
    if !Apart(s.configs, nodes) {
      var d :| IsReady(s.configs, d) && !(s.configs[d].nodes !! nodes);
      var n :| n in s.configs[d].nodes && n in nodes;
      assert n !in s'.assignments;
    }
  }

  lemma OrderlyCons(s: State, e: Event, rest: seq<Event>)
    requires Enabled(s, e) && Orderly(s, e) && OrderlyRun(Step(s, e), rest)
    ensures OrderlyRun(s, [e] + rest) && Play(s, [e] + rest) == Play(Step(s, e), rest)
  {
    assert ([e] + rest)[1..] == rest;
  }

  /** A restart fails while a deleting config and another one share a node. */
  lemma SharedBreaksRestart(s: State, c: ConfigId, d: ConfigId, n: NodeId)
    requires c != d && s.configs.Keys == {c, d} && IsReady(s.configs, c) && IsReady(s.configs, d)
    requires n in s.configs[c].nodes && n in s.configs[d].nodes
    ensures OrderlyRun(s, [Restart([c, d])]) && Play(s, [Restart([c, d])]).failed
  {
    RebuildExact(s.configs, [c, d]);
    assert OrderlyRun(Step(s, Restart([c, d])), []);
    OrderlyCons(s, Restart([c, d]), []);
    assert [Restart([c, d])] + [] == [Restart([c, d])];
  }

  /** Another config takes the released node before the restart. */
  lemma TakenBreaksRestart(s: State, c: ConfigId, d: ConfigId, n: NodeId) returns (run: seq<Event>)
    requires c != d && s == State(map[c := ConfigStatus(true, {n}, true)], map[], false)
    ensures OrderlyRun(s, run) && Play(s, run).failed
  {
    var s1 := Step(s, Create(d));
    var s2 := Step(s1, Reconcile(d, {n}, Succeeded));
    SharedBreaksRestart(s2, c, d, n);
    OrderlyCons(s1, Reconcile(d, {n}, Succeeded), [Restart([c, d])]);
    run := [Reconcile(d, {n}, Succeeded)] + [Restart([c, d])];
    OrderlyCons(s, Create(d), run);
    run := [Create(d)] + run;
  }

  /** What the two steps can lead to: another config takes a released node, both
      are Ready, and the next start cannot rebuild the assignments. */
  lemma EarlyReleaseCanBreakRestart(c: ConfigId, d: ConfigId, n: NodeId) returns (run: seq<Event>)
    requires c != d
    ensures OrderlyRun(INITIAL, run) && Play(INITIAL, run).failed
  {
    var s1 := Step(INITIAL, Create(c));
    var s2 := Step(s1, Reconcile(c, {n}, Succeeded));
    var s3 := Step(s2, Delete(c));
    var s4 := Step(s3, ReleaseNodes(c, {n}));
    assert s4.assignments == map[];
    assert s4.configs == map[c := ConfigStatus(true, {n}, true)];
    run := TakenBreaksRestart(s4, c, d, n);
    OrderlyCons(s3, ReleaseNodes(c, {n}), run);
    run := [ReleaseNodes(c, {n})] + run;
    OrderlyCons(s2, Delete(c), run);
    run := [Delete(c)] + run;
    OrderlyCons(s1, Reconcile(c, {n}, Succeeded), run);
    run := [Reconcile(c, {n}, Succeeded)] + run;
    OrderlyCons(INITIAL, Create(c), run);
    run := [Create(c)] + run;
  }

  // ---------------------------------------------------------- the reconciler

  function Names(nodes: seq<NodeId>): set<NodeId> {
    set n | n in nodes
  }

  lemma NamesNext(nodes: seq<NodeId>, i: nat)
    requires i < |nodes|
    ensures Names(nodes[..i + 1]) == Names(nodes[..i]) + {nodes[i]}
  {
    assert nodes[..i + 1] == nodes[..i] + [nodes[i]];
  }

  lemma AssignOneMore(m: Assignments, c: ConfigId, nodes: set<NodeId>, n: NodeId)
    ensures Assign(m, c, nodes)[n := c] == Assign(m, c, nodes + {n})
  {
  }

  class Reconciler {
    var configs: Configs
    var nodeAssignments: Assignments

    /** true: some node is already assigned to another config. */
    method ValidateNodeAssignments(c: ConfigId, nodes: seq<NodeId>) returns (conflict: bool)
      ensures conflict == Conflicts(nodeAssignments, c, Names(nodes))
    {
      for i := 0 to |nodes|
        invariant forall j :: 0 <= j < i ==> !(nodes[j] in nodeAssignments && nodeAssignments[nodes[j]] != c)
      {
        if nodes[i] in nodeAssignments && nodeAssignments[nodes[i]] != c {
          assert nodes[i] in Names(nodes);
          return true;
        }
      }
      return false;
    }

    method AddAssignments(c: ConfigId, nodes: seq<NodeId>)
      modifies this`nodeAssignments
      ensures nodeAssignments == Assign(old(nodeAssignments), c, Names(nodes))
    {
      for i := 0 to |nodes|
        invariant nodeAssignments == Assign(old(nodeAssignments), c, Names(nodes[..i]))
      {
        NamesNext(nodes, i);
        AssignOneMore(old(nodeAssignments), c, Names(nodes[..i]), nodes[i]);
        nodeAssignments := nodeAssignments[nodes[i] := c];
      }
      assert nodes[..|nodes|] == nodes;
    }

    /** Finalizer: delete by node name when the nodes are known, else by config. */
    method RemoveAssignments(c: ConfigId, nodes: Option<seq<NodeId>>)
      modifies this`nodeAssignments
      ensures nodeAssignments == if nodes.Some?
                                 then Release(old(nodeAssignments), Names(nodes.value))
                                 else Forget(old(nodeAssignments), c)
    {
      if nodes.Some? {
        ReleaseNodes(nodes.value);
      } else {
        ForgetConfig(c);
      }
    }

    method ReleaseNodes(nodes: seq<NodeId>)
      modifies this`nodeAssignments
      ensures nodeAssignments == Release(old(nodeAssignments), Names(nodes))
    {
      for i := 0 to |nodes|
        invariant nodeAssignments == Release(old(nodeAssignments), Names(nodes[..i]))
      {
        NamesNext(nodes, i);
        nodeAssignments := nodeAssignments - {nodes[i]};
      }
      assert nodes[..|nodes|] == nodes;
    }

    method ForgetConfig(c: ConfigId)
      modifies this`nodeAssignments
      ensures nodeAssignments == Forget(old(nodeAssignments), c)
    {
      var todo := nodeAssignments.Keys;
      while todo != {}
        invariant todo <= nodeAssignments.Keys <= old(nodeAssignments).Keys
        invariant forall k :: k in nodeAssignments ==> nodeAssignments[k] == old(nodeAssignments)[k]
        invariant forall k :: k in nodeAssignments && k !in todo ==> old(nodeAssignments)[k] != c
        invariant forall k :: k in old(nodeAssignments) && old(nodeAssignments)[k] != c ==> k in nodeAssignments
        decreases |todo|
      {
        var k :| k in todo;
        if nodeAssignments[k] == c {
          nodeAssignments := nodeAssignments - {k};
        }
        todo := todo - {k};
      }
    }

    /** The first reconcile after a start. lists holds each config's status keys
        in some order. */
    method BuildNodeAssignments(order: seq<ConfigId>, lists: map<ConfigId, seq<NodeId>>) returns (ok: bool)
      requires nodeAssignments == map[]
      requires forall c :: c in order ==> c in configs && c in lists && Names(lists[c]) == configs[c].nodes
      modifies this`nodeAssignments
      ensures ok == Rebuild(configs, order).Some?
      ensures ok ==> nodeAssignments == Rebuild(configs, order).value
    {
      for i := 0 to |order|
        invariant Rebuild(configs, order[..i]) == Some(nodeAssignments)
      {
        assert order[..i + 1][..i] == order[..i];
        var c := order[i];
        if configs[c].ready {
          var conflict := ValidateNodeAssignments(c, lists[c]);
          if conflict {
            RebuildStaysNone(configs, order, i + 1);
            return false;
          }
          AddAssignments(c, lists[c]);
        }
      }
      assert order[..|order|] == order;
      return true;
    }

    /** A reconcile of a config that is not being deleted: validate, then the
        status, then the assignments. */
    method ReconcileConfig(c: ConfigId, nodes: seq<NodeId>, specValid: bool, conditionWritten: bool, handled: bool)
      returns (outcome: Reconciled)
      requires c in configs && !configs[c].deleting
      modifies this
      ensures outcome.Rejected? <==> Conflicts(old(nodeAssignments), c, Names(nodes)) || !specValid
      ensures outcome.Succeeded? ==> handled
      ensures State(configs, nodeAssignments, false)
              == Step(State(old(configs), old(nodeAssignments), false), Reconcile(c, Names(nodes), outcome))
    {
      var conflict := ValidateNodeAssignments(c, nodes);
      if conflict || !specValid {
        if conditionWritten {
          configs := configs[c := configs[c].(ready := false)];
        }
        return Rejected(conditionWritten);
      }
      if !handled {
        return Stopped;
      }
      configs := configs[c := ConfigStatus(true, Names(nodes), false)];
      AddAssignments(c, nodes);
      return Succeeded;
    }

    /** A reconcile of a config that is being deleted, once everything before its
        KMM module is cleaned up: the module goes first, and the nodes with it;
        when the module is gone, the finalizer goes, if its patch succeeds. */
    method FinalizeConfig(c: ConfigId, nodes: seq<NodeId>, moduleFound: bool, moduleDeleted: bool, patched: bool)
      requires c in configs && configs[c].deleting
      modifies this
      ensures State(configs, nodeAssignments, false)
              == if moduleFound && moduleDeleted
                 then Step(State(old(configs), old(nodeAssignments), false), Event.ReleaseNodes(c, Names(nodes)))
                 else if !moduleFound && patched
                 then Step(State(old(configs), old(nodeAssignments), false), Remove(c))
                 else State(old(configs), old(nodeAssignments), false)
    {
      if !moduleFound {
        if patched {
          configs := configs - {c};
        }
        return;
      }
      if moduleDeleted {
        RemoveAssignments(c, Some(nodes));
      }
    }
  }

  lemma {:induction false} RebuildStaysNone(configs: Configs, order: seq<ConfigId>, i: nat)
    requires i <= |order| && Rebuild(configs, order[..i]).None?
    ensures Rebuild(configs, order).None?
    decreases |order| - i
  {
    if i == |order| {
      assert order[..i] == order;
    } else {
      assert order[..i + 1][..i] == order[..i];
      RebuildStaysNone(configs, order, i + 1);
    }
  }
}

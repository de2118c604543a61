/** The remediation manager as the operator runs it: the status CR's nested map
    is edited in place, the tracker is replaced, pruned and appended to, and
    workflows are deleted and created in a loop over nodes. Every method is
    proved to take the steps of RemediationMachine. */
module RemediationManager {
  import opened Base
  import opened Attempts
  import opened RemediationMachine

  ghost predicate Leads(s: State, run: seq<Event>, s': State) {
    Legal(s, run) && Play(s, run) == s'
  }

  function Visits(visits: seq<NodeVisit>): seq<Event> {
    if visits == [] then [] else Visits(visits[..|visits| - 1]) + [Visit(visits[|visits| - 1])]
  }

  lemma VisitsExtend(front: seq<Event>, visits: seq<NodeVisit>, i: nat)
    requires i < |visits|
    ensures front + Visits(visits[..i + 1]) == front + Visits(visits[..i]) + [Visit(visits[i])]
  {
    assert visits[..i + 1][..i] == visits[..i];
  }

  lemma LeadsOne(s: State, e: Event, s': State)
    requires Enabled(s, e) && Step(s, e) == s'
    ensures Leads(s, [e], s')
  {
    assert [e][1..] == [];
  }

  /** How a pass begins. */
  function Opening(now: Instant, reloaded: bool, tracker: Tracker): Event {
    Begin(now, if reloaded then Some(tracker) else None)
  }

  lemma Opens(s: State, now: Instant, reloaded: bool, cr: StatusCR, tracker: Tracker)
    requires s.phase.Idle? && s.clock <= now && cr == Clean(s.cr, now - RETENTION)
    requires if reloaded then SyncedFrom(cr, tracker) else tracker == s.tracker
    ensures Leads(s, [Opening(now, reloaded, tracker)],
                  State(cr, tracker, s.workflows, s.history, if reloaded then InPass({}) else Idle,
                        now - RETENTION, now))
  {
    var e := Opening(now, reloaded, tracker);
    assert Enabled(s, e);
    LeadsOne(s, e, Step(s, e));
  }

  /** Different nodes, visited one after the other from now on; generated name
      ends hold no dash. */
  ghost predicate InOrder(now: Instant, visits: seq<NodeVisit>) {
    && (forall i, j :: 0 <= i < j < |visits| ==>
          visits[i].node != visits[j].node && visits[i].at <= visits[j].pruneAt)
    && (forall i :: 0 <= i < |visits| ==>
          now <= visits[i].pruneAt <= visits[i].at && '-' !in visits[i].suffix)
  }

  /** The visits from i on are to other nodes and lie ahead. */
  ghost predicate NotYet(visits: seq<NodeVisit>, i: nat, visited: set<NodeId>, clock: Instant) {
    forall j :: i <= j < |visits| ==> visits[j].node !in visited && clock <= visits[j].pruneAt
  }

  lemma NextVisit(now: Instant, visits: seq<NodeVisit>, i: nat, visited: set<NodeId>, before: Instant, clock: Instant)
    requires InOrder(now, visits) && i < |visits| && NotYet(visits, i, visited, before)
    requires clock == before || clock == visits[i].at
    ensures NotYet(visits, i + 1, visited + {visits[i].node}, clock)
  {
  }

  /** The tracker after a created workflow: untouched when the window does not parse. */
  function Noted(tracker: Tracker, v: NodeVisit): Tracker
    requires v.mapping.Some?
  {
    var c, window := v.mapping.value.condition, WindowOf(v.mapping.value);
    if window.None? then tracker
    else tracker[Key(v.node, c) := DropOld(Lookup(tracker, v.node, c), v.pruneAt - window.value) + [v.at]]
  }

  /** The run of a pass that came as far as the first count visits. */
  ghost predicate IsPass(run: seq<Event>, opening: Event, visits: seq<NodeVisit>, count: nat)
    requires opening.Begin? && count <= |visits|
  {
    var seen := [opening] + Visits(visits[..count]);
    if opening.synced.None? then run == seen && count == 0
    else if run == seen then count > 0 && !Records(visits[count - 1])
    else run == seen + [End] && count == |visits|
  }

  /** The CR during a cleanup: the nodes still to do are untouched, every other
      node has only its recent attempts left, or is gone when it has none. */
  ghost predicate PartlyClean(before: StatusCR, todo: set<NodeId>, after: StatusCR, cutoff: int) {
    && todo <= before.Keys
    && (forall n :: n in todo ==> n in after && after[n] == before[n])
    && (forall n :: n in after && n !in todo ==>
                      n in before && after[n] == CleanNode(before[n], cutoff) != map[])
    && (forall n :: n in before && n !in todo && CleanNode(before[n], cutoff) != map[] ==> n in after)
  }

  lemma CleanOneNode(before: StatusCR, todo: set<NodeId>, after: StatusCR, cutoff: int, n: NodeId)
    requires PartlyClean(before, todo, after, cutoff) && n in todo
    ensures var conditions := CleanNode(before[n], cutoff);
            PartlyClean(before, todo - {n}, if conditions == map[] then after - {n} else after[n := conditions], cutoff)
  {
  }

  lemma AllNodesClean(before: StatusCR, after: StatusCR, cutoff: int)
    requires PartlyClean(before, {}, after, cutoff)
    ensures after == Clean(before, cutoff)
  {
  }

  class RemediationMgr {
    var status: StatusCR
    var recoveryTracker: Tracker
    var workflows: seq<Workflow>
    ghost var history: map<Pair, seq<Instant>>
    ghost var cutoff: int
    ghost var clock: Instant

    ghost function Snapshot(phase: Phase): State
      reads this
    {
      State(status, recoveryTracker, workflows, history, phase, cutoff, clock)
    }

    constructor ()
      ensures Snapshot(Idle) == INITIAL
    {
      status, recoveryTracker, workflows := map[], map[], [];
      history, cutoff, clock := map[], -(RETENTION as int), 0;
    }

    static method FilterAttempts(attempts: seq<Attempt>, cutoffTime: int) returns (filtered: seq<Attempt>)
      ensures filtered == Keep(attempts, cutoffTime)
    {
      filtered := [];
      for i := 0 to |attempts|
        invariant filtered == Keep(attempts[..i], cutoffTime)
      {
        assert attempts[..i + 1][..i] == attempts[..i];
        if Recent(attempts[i].start * SECOND, cutoffTime) {
          filtered := filtered + [attempts[i]];
        }
      }
      assert attempts[..|attempts|] == attempts;
    }

    /** One node's conditions, updated while they are iterated over. */
    static method DropOlderOnNode(before: Conditions, cutoffTime: int) returns (after: Conditions)
      ensures after == CleanNode(before, cutoffTime)
    {
      after := before;
      var todo := before.Keys;
      while todo != {}
        invariant todo <= before.Keys
        invariant forall c :: c in todo ==> c in after && after[c] == before[c]
        invariant forall c :: c in after && c !in todo ==>
                                c in before && after[c] == Keep(before[c], cutoffTime) != []
        invariant forall c :: c in before && c !in todo && Keep(before[c], cutoffTime) != [] ==> c in after
        decreases |todo|
      {
        var c :| c in todo;
        var filtered := FilterAttempts(before[c], cutoffTime);
        if |filtered| > 0 {
          after := after[c := filtered];
        } else {
          after := after - {c};
        }
        todo := todo - {c};
      }
    }

    /** The status CR keeps exactly the attempts of the last 72 hours. */
    method DropOlderRecoveryAttemptsFromStatusCR(now: Instant)
      modifies this`status
      ensures status == Clean(old(status), now - RETENTION)
    {
      var before := status;
      var cutoffTime := now - RETENTION;
      var todo := before.Keys;
      while todo != {}
        invariant PartlyClean(before, todo, status, cutoffTime)
        decreases |todo|
      {
        var n :| n in todo;
        var conditions := DropOlderOnNode(before[n], cutoffTime);
        CleanOneNode(before, todo, status, cutoffTime, n);
        if conditions == map[] {
          status := status - {n};
        } else {
          status := status[n := conditions];
        }
        todo := todo - {n};
      }
      AllNodesClean(before, status, cutoffTime);
    }

    static method ParseTimes(attempts: seq<Attempt>) returns (times: seq<Instant>)
      ensures times == Times(attempts)
    {
      times := [];
      for i := 0 to |attempts|
        invariant times == Times(attempts[..i])
      {
        assert attempts[..i + 1][..i] == attempts[..i];
        times := times + [attempts[i].start * SECOND];
      }
      assert attempts[..|attempts|] == attempts;
    }

    /** Store the lists of one node, in any order of its conditions. */
    static method StoreNode(tracker: Tracker, n: NodeId, conditions: Conditions) returns (stored: Tracker)
      ensures forall c :: c in conditions ==> Key(n, c) in stored
      ensures forall k :: k in tracker ==> k in stored
      ensures forall k :: k in stored ==>
                (k in tracker && stored[k] == tracker[k]) ||
                (exists c :: c in conditions && Key(n, c) == k && stored[k] == Times(conditions[c]))
    {
      stored := tracker;
      var todo := conditions.Keys;
      while todo != {}
        invariant todo <= conditions.Keys
        invariant forall c :: c in conditions && c !in todo ==> Key(n, c) in stored
        invariant forall k :: k in tracker ==> k in stored
        invariant forall k :: k in stored ==>
                    (k in tracker && stored[k] == tracker[k]) ||
                    (exists c :: c in conditions && Key(n, c) == k && stored[k] == Times(conditions[c]))
        decreases |todo|
      {
        var c :| c in todo;
        var times := ParseTimes(conditions[c]);
        stored := stored[Key(n, c) := times];
        todo := todo - {c};
      }
    }

    /** Replace the tracker by what the status CR holds. */
    method SyncInternalMapFromStatusCR()
      modifies this`recoveryTracker
      ensures SyncedFrom(status, recoveryTracker)
    {
      recoveryTracker := map[];
      var todo := status.Keys;
      while todo != {}
        invariant todo <= status.Keys
        invariant forall m, c :: Has(status, m, c) && m !in todo ==> Key(m, c) in recoveryTracker
        invariant forall k :: k in recoveryTracker ==>
                    exists m, c :: Has(status, m, c) && Key(m, c) == k && recoveryTracker[k] == Times(status[m][c])
        decreases |todo|
      {
        var n :| n in todo;
        var before := recoveryTracker;
        recoveryTracker := StoreNode(before, n, status[n]);
        todo := todo - {n};
        forall k | k in recoveryTracker
          ensures exists m, c :: Has(status, m, c) && Key(m, c) == k && recoveryTracker[k] == Times(status[m][c])
        {
          if !(k in before && recoveryTracker[k] == before[k]) {
            var c :| c in status[n] && Key(n, c) == k && recoveryTracker[k] == Times(status[n][c]);
            assert Has(status, n, c);
          }
        }
      }
    }

    /** Drop the tracker's attempts up to the first one after the cutoff. */
    method DropOlderRecoveryAttemptsInternal(n: NodeId, c: Condition, cutoffTime: int)
      modifies this`recoveryTracker
      ensures recoveryTracker
              == old(recoveryTracker)[Key(n, c) := DropOld(Lookup(old(recoveryTracker), n, c), cutoffTime)]
    {
      var attempts := Lookup(recoveryTracker, n, c);
      var startIndex := |attempts|;
      var i := 0;
      while i < |attempts|
        invariant i <= |attempts| && startIndex == |attempts|
        invariant DropOld(attempts, cutoffTime) == DropOld(attempts[i..], cutoffTime)
      {
        assert attempts[i..][1..] == attempts[i + 1..];
        if Recent(attempts[i], cutoffTime) {
          startIndex := i;
          break;
        }
        i := i + 1;
      }
      recoveryTracker := recoveryTracker[Key(n, c) := attempts[startIndex..]];
    }

    method RegisterRecoveryAttemptInternal(n: NodeId, c: Condition, at: Instant)
      modifies this`recoveryTracker
      ensures recoveryTracker == old(recoveryTracker)[Key(n, c) := Lookup(old(recoveryTracker), n, c) + [at]]
    {
      var attempts := Lookup(recoveryTracker, n, c);
      recoveryTracker := recoveryTracker[Key(n, c) := attempts + [at]];
    }

    method RegisterRecoveryAttemptToStatusCR(n: NodeId, c: Condition, a: Attempt)
      modifies this`status
      ensures status == Register(old(status), n, c, a)
    {
      var conditions := map[];
      if n in status {
        conditions := status[n];
      }
      var attempts := [];
      if c in conditions {
        attempts := conditions[c];
      }
      status := status[n := conditions[c := attempts + [a]]];
    }

    /** The loop over the workflow list: delete finished ones, stop at a running one. */
    method HandleExistingWorkflowsOnNode(v: NodeVisit) returns (create: bool)
      modifies this`workflows
      ensures Outcome(workflows, create) == Existing(old(workflows), v)
    {
      var list := workflows;
      var kept: seq<Workflow> := [];
      for i := 0 to |list|
        invariant workflows == old(workflows) == list
        invariant Existing(list, v)
                  == Outcome(kept + Existing(list[i..], v).kept, Existing(list[i..], v).create)
      {
        var w := list[i];
        assert list[i..][1..] == list[i + 1..];
        ghost var rest := Existing(list[i + 1..], v).kept;
        if !HasPrefix(w.name, NamePrefix(v.node)) {
          assert kept + ([w] + rest) == kept + [w] + rest;
          kept := kept + [w];
        } else if w.phase == Succeeded {
          if w.name !in v.deletable {
            workflows := kept + list[i..];
            return false;
          }
        } else if w.phase == Running {
          if w.suspended && v.abortLabel && w.name in v.deletable {
            workflows := kept + list[i + 1..];
            return v.abortLabelRemoved;
          }
          workflows := kept + list[i..];
          return false;
        } else {
          assert kept + ([w] + rest) == kept + [w] + rest;
          kept := kept + [w];
        }
      }
      assert kept + [] == kept;
      workflows := kept;
      return true;
    }

    /** Prune by the window, note the attempt in the tracker, then in the CR. */
    method PruneAndRegister(v: NodeVisit, name: string) returns (recorded: bool)
      requires v.mapping.Some?
      modifies this`recoveryTracker, this`status
      ensures recorded <==> Records(v)
      ensures recoveryTracker == Noted(old(recoveryTracker), v)
      ensures status == if recorded
                        then Register(old(status), v.node, v.mapping.value.condition, Attempt(name, Seconds(v.at)))
                        else old(status)
    {
      var m := v.mapping.value;
      var window := WindowOf(m);
      if window.None? {
        return false;
      }
      DropOlderRecoveryAttemptsInternal(v.node, m.condition, v.pruneAt - window.value);
      RegisterRecoveryAttemptInternal(v.node, m.condition, v.at);
      if v.written {
        RegisterRecoveryAttemptToStatusCR(v.node, m.condition, Attempt(name, Seconds(v.at)));
      }
      return v.written;
    }

    /** Create the workflow, prune, and register the attempt. */
    method CreateAndRegister(ghost phase: Phase, v: NodeVisit) returns (stop: bool)
      requires v.mapping.Some?
      modifies this
      ensures Snapshot(if stop then Idle else phase) == CreateStep(old(Snapshot(phase)), v)
      ensures stop <==> !Records(v)
      ensures clock == v.at
    {
      var m := v.mapping.value;
      var name := WorkflowName(v.node, v.template, v.suffix);
      workflows := workflows + [Workflow(name, v.node, Pending, false)];
      history := history[Pair(v.node, m.condition) := HistoryOf(Snapshot(phase), v.node, m.condition) + [v.at]];
      clock := v.at;
      var recorded := PruneAndRegister(v, name);
      return !recorded;
    }

    /** The body of the node loop: one Visit step of the run so far. stop: the
        pass returns early, because a created workflow could not be recorded. */
    method VisitNode(ghost s0: State, ghost run: seq<Event>, ghost visited: set<NodeId>, v: NodeVisit)
      returns (stop: bool)
      requires Leads(s0, run, Snapshot(InPass(visited)))
      requires Enabled(Snapshot(InPass(visited)), Visit(v))
      modifies this
      ensures Leads(s0, run + [Visit(v)], Snapshot(if stop then Idle else InPass(visited + {v.node})))
      ensures stop ==> !Records(v)
      ensures clock == old(clock) || clock == v.at
    {
      ghost var s := Snapshot(InPass(visited));
      stop := false;
      if v.mapping.Some? && v.listed {
        var m := v.mapping.value;
        var create := HandleExistingWorkflowsOnNode(v);
        if create && !v.tainted && !v.upgrading &&
           |Lookup(recoveryTracker, v.node, m.condition)| < EffectiveMax(m) && v.templateFound && v.created
        {
          stop := CreateAndRegister(InPass(visited + {v.node}), v);
        }
      }
      assert Snapshot(if stop then Idle else InPass(visited + {v.node})) == VisitStep(s, v);
      LegalAppend(s0, run, Visit(v));
    }

    /** Clean the CR and reload the tracker. reloaded: reading the CR back succeeded. */
    method BeginPass(now: Instant, reloaded: bool)
      requires clock <= now
      modifies this
      ensures Leads(old(Snapshot(Idle)), [Opening(now, reloaded, recoveryTracker)],
                    Snapshot(if reloaded then InPass({}) else Idle))
      ensures clock == now
    {
      ghost var s0 := Snapshot(Idle);
      DropOlderRecoveryAttemptsFromStatusCR(now);
      if reloaded {
        SyncInternalMapFromStatusCR();
      }
      cutoff, clock := now - RETENTION, now;
      Opens(s0, now, reloaded, status, recoveryTracker);
    }

    /** A whole pass over distinct nodes. It ends without a trace when the cleaned
        CR cannot be written, after the cleanup when the reload fails, right after
        a workflow it created could not be recorded, or else after the last node. */
    method HandleRemediation(now: Instant, cleaned: bool, reloaded: bool, visits: seq<NodeVisit>)
      returns (count: nat, ghost run: seq<Event>)
      requires clock <= now && InOrder(now, visits)
      modifies this
      ensures count <= |visits|
      ensures Leads(old(Snapshot(Idle)), run, Snapshot(Idle))
      ensures !cleaned ==> run == []
      ensures cleaned ==> exists t :: IsPass(run, Opening(now, reloaded, t), visits, count)
    {
      ghost var s0 := Snapshot(Idle);
      run := [];
      if !cleaned {
        return 0, run;
      }
      BeginPass(now, reloaded);
      ghost var opening := Opening(now, reloaded, recoveryTracker);
      run := [opening];
      assert run == [opening] + Visits(visits[..0]);
      if !reloaded {
        return 0, run;
      }
      ghost var visited: set<NodeId> := {};
      for i := 0 to |visits|
        invariant NotYet(visits, i, visited, clock)
        invariant Leads(s0, run, Snapshot(InPass(visited)))
        invariant run == [opening] + Visits(visits[..i])
      {
        ghost var before := clock;
        var stop := VisitNode(s0, run, visited, visits[i]);
        NextVisit(now, visits, i, visited, before, clock);
        VisitsExtend([opening], visits, i);
        run := run + [Visit(visits[i])];
        visited := visited + {visits[i].node};
        if stop {
          return i + 1, run;
        }
      }
      LegalAppend(s0, run, End);
      run := run + [End];
      return |visits|, run;
    }
  }
}

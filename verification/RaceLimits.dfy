/** What a lost failure costs: exactly which policies stay within their limit when
    workers may write between the reads of a look. */
module RaceLimits {
  import opened Base
  import opened NodeUpgrade
  import opened UpgradeMachine
  import opened UpgradeSafety
  import opened UpgradeLimits
  import opened UpgradeRaces

  /** States of fine runs that meet assumption W and whose uncordon calls succeed;
      looks may lose failures. */
  ghost predicate Reached(cfg: Config, f: Fine) {
    exists run :: FineCalm(cfg, FINE_INITIAL, run, true, false) && FinePlay(cfg, FINE_INITIAL, run) == f
  }

  lemma {:induction false} FineAppend(cfg: Config, f: Fine, run: seq<FineEvent>, e: FineEvent)
    requires FineCalm(cfg, f, run, true, false)
    requires var l := FinePlay(cfg, f, run); FineEnabled(cfg, l, e) && FineUndisturbed(l, e) && FineSmooth(e)
    ensures FineCalm(cfg, f, run + [e], true, false)
    ensures FinePlay(cfg, f, run + [e]) == FineStep(cfg, FinePlay(cfg, f, run), e)
    decreases |run|
  {
    if run == [] {
      assert run + [e] == [e] && [e][1..] == [];
    } else {
      FineAppend(cfg, FineStep(cfg, f, run[0]), run[1..], e);
      assert (run + [e])[1..] == run[1..] + [e];
    }
  }

  lemma FineNext(cfg: Config, f: Fine, e: FineEvent)
    requires Reached(cfg, f) && FineEnabled(cfg, f, e) && FineUndisturbed(f, e) && FineSmooth(e)
    ensures Reached(cfg, FineStep(cfg, f, e))
  {
    var run :| FineCalm(cfg, FINE_INITIAL, run, true, false) && FinePlay(cfg, FINE_INITIAL, run) == f;
    FineAppend(cfg, FINE_INITIAL, run, e);
  }

  lemma FineStart(cfg: Config)
    ensures Reached(cfg, FINE_INITIAL)
  {
    assert FineCalm(cfg, FINE_INITIAL, [], true, false) && FinePlay(cfg, FINE_INITIAL, []) == FINE_INITIAL;
  }

  // -------------------------------------------------- policies that start nothing

  lemma NoAdmission(cfg: Config, s: State, at: Instant)
    requires !CanAdmit(cfg)
    ensures !Enabled(cfg, s, Admit(at))
  {
    if Scanned(cfg, s) {
      QuotaExactAndMaximal(cfg.policy, Count(s.phase.seen, Progressing), Count(s.phase.seen, FailedNode),
                           Count(s.phase.seen, Candidate), |cfg.nodes|);
    }
  }

  lemma StaysWorkerless(cfg: Config, f: Fine, e: FineEvent)
    requires !CanAdmit(cfg) && f.s.workers == map[] && FineEnabled(cfg, f, e)
    ensures FineStep(cfg, f, e).s.workers == map[] && !LosesFailure(cfg, f, e)
  {
    if e.Plain? && e.e.Admit? {
      NoAdmission(cfg, f.s, e.e.at);
    }
  }

  lemma {:induction false} WorkerlessIsLossless(cfg: Config, f: Fine, run: seq<FineEvent>)
    requires !CanAdmit(cfg) && f.s.workers == map[] && FineCalm(cfg, f, run, true, false)
    ensures FineCalm(cfg, f, run, true, true)
    decreases |run|
  {
    if run != [] {
      StaysWorkerless(cfg, f, run[0]);
      WorkerlessIsLossless(cfg, FineStep(cfg, f, run[0]), run[1..]);
    }
  }

  // ------------------------------------------------------------- the scenario

  /** The status of a node that has failed, or that no pass has started. */
  predicate IsSet(st: UpgradeState, failed: bool) {
    if failed then st.CordonFailed? else st.Empty? || st.NotStarted?
  }

  /** What the passes below see: failed nodes first, one candidate, the rest not
      ready. */
  function Want(i: nat, failed: nat, cand: nat): Bucket {
    if i < failed then FailedNode else if i == cand then Candidate else NotReady
  }

  ghost predicate Sees(seen: seq<Seen>, failed: nat, cand: nat) {
    forall i :: 0 <= i < |seen| ==> seen[i].bucket == Want(i, failed, cand)
  }

  lemma {:induction false} SeesCounts(nodes: seq<NodeId>, seen: seq<Seen>, failed: nat, cand: nat, upTo: nat)
    requires upTo <= |seen| <= |nodes| && Sees(seen, failed, cand) && failed <= cand
    ensures CountOf(seen, Progressing, upTo) == 0
    ensures CountOf(seen, FailedNode, upTo) == Min(failed, upTo)
    ensures CountOf(seen, Candidate, upTo) == if cand < upTo then 1 else 0
    ensures CandidatesUpTo(nodes, seen, upTo) == if cand < upTo then [nodes[cand]] else []
  {
    if upTo > 0 {
      SeesCounts(nodes, seen, failed, cand, upTo - 1);
    }
  }

  lemma SeesQuota(cfg: Config, seen: seq<Seen>, failed: nat, cand: nat)
    requires |seen| == |cfg.nodes| && Sees(seen, failed, cand) && failed <= cand < |cfg.nodes|
    requires CanAdmit(cfg) && failed < Budget(cfg.policy, |cfg.nodes|)
    ensures PassQuota(cfg, seen) == 1 && Candidates(cfg.nodes, seen) == [cfg.nodes[cand]]
  {
    SeesCounts(cfg.nodes, seen, failed, cand, |seen|);
  }

  /** A pass in progress, with its look closed. */
  ghost predicate Passing(cfg: Config, f: Fine, failed: nat, cand: nat) {
    && Reached(cfg, f) && f.open.Closed? && f.s.phase.Scanning? && f.s.phase.admitted == 0
    && |f.s.phase.seen| <= |cfg.nodes| && Sees(f.s.phase.seen, failed, cand)
  }

  lemma SetVerdict(st: UpgradeState, start: Stamp, version: string, name: NodeId, now: Instant, i: nat,
                   failed: nat, cand: nat)
    requires IsSet(st, i < failed)
    ensures Classify(st, start, version, OldView(name, now, i != cand))
            == Verdict(if st.Empty? then NotStarted else st, Want(i, failed, cand))
  {
  }

  /** Plain looks at the next nodes, up to a given one. */
  lemma {:induction false} ScanTo(cfg: Config, f: Fine, failed: nat, cand: nat, upTo: nat) returns (f': Fine)
    requires ValidConfig(cfg) && Passing(cfg, f, failed, cand) && |f.s.phase.seen| <= upTo <= |cfg.nodes|
    requires forall i :: |f.s.phase.seen| <= i < upTo ==> IsSet(StatusOf(f.s.status, cfg.nodes[i]), i < failed)
    ensures Passing(cfg, f', failed, cand) && |f'.s.phase.seen| == upTo
    ensures f'.s.workers == f.s.workers && f'.s.spawned == f.s.spawned && f'.s.version == f.s.version
    ensures forall i :: |f.s.phase.seen| <= i < upTo ==> IsSet(StatusOf(f'.s.status, cfg.nodes[i]), i < failed)
    ensures forall i :: 0 <= i < |cfg.nodes| && !(|f.s.phase.seen| <= i < upTo) ==>
                          StatusOf(f'.s.status, cfg.nodes[i]) == StatusOf(f.s.status, cfg.nodes[i])
    decreases upTo - |f.s.phase.seen|
  {
    var k := |f.s.phase.seen|;
    if k == upTo {
      f' := f;
    } else {
      var v := OldView(cfg.nodes[k], f.s.clock, k != cand);
      SetVerdict(StatusOf(f.s.status, v.name), StartOf(f.s.start, v.name), f.s.version, v.name, v.now, k, failed, cand);
      FineNext(cfg, f, Plain(Look(v)));
      var f1 := FineStep(cfg, f, Plain(Look(v)));
      f' := ScanTo(cfg, f1, failed, cand, upTo);
    }
  }

  /** The first nodes have failed, no other was started. */
  ghost predicate Resting(cfg: Config, f: Fine, failed: nat) {
    && Reached(cfg, f) && f.open.Closed? && f.s.phase.Idle? && f.s.workers == map[] && failed <= |cfg.nodes|
    && forall i :: 0 <= i < |cfg.nodes| ==> IsSet(StatusOf(f.s.status, cfg.nodes[i]), i < failed)
  }

  /** As before, but the next node is Started and its worker waits for the cordon. */
  ghost predicate Halfway(cfg: Config, f: Fine, failed: nat, id: nat) {
    && Reached(cfg, f) && f.open.Closed? && f.s.phase.Idle? && failed < |cfg.nodes|
    && f.s.workers == map[id := Worker(cfg.nodes[failed], Cordon)]
    && StatusOf(f.s.status, cfg.nodes[failed]).Started?
    && forall i :: 0 <= i < |cfg.nodes| && i != failed ==> IsSet(StatusOf(f.s.status, cfg.nodes[i]), i < failed)
  }

  lemma BeginPassing(cfg: Config, f: Fine, failed: nat, cand: nat) returns (f': Fine)
    requires Reached(cfg, f) && f.open.Closed? && f.s.phase.Idle?
    ensures Passing(cfg, f', failed, cand) && f'.s == f.s.(phase := Scanning([], 0))
  {
    FineNext(cfg, f, Plain(BeginPass(f.s.version)));
    f' := FineStep(cfg, f, Plain(BeginPass(f.s.version)));
  }

  /** The one candidate is started. */
  lemma AdmitOne(cfg: Config, f: Fine, failed: nat, cand: nat) returns (f': Fine)
    requires Passing(cfg, f, failed, cand) && |f.s.phase.seen| == |cfg.nodes|
    requires failed <= cand < |cfg.nodes| && CanAdmit(cfg) && failed < Budget(cfg.policy, |cfg.nodes|)
    ensures Reached(cfg, f') && f'.open.Closed? && Scanned(cfg, f'.s)
    ensures f'.s.phase == f.s.phase.(admitted := 1) && PassQuota(cfg, f'.s.phase.seen) == 1
    ensures f'.s.workers == f.s.workers[f.s.spawned := Worker(cfg.nodes[cand], Begin)]
    ensures f'.s.status == SetStatus(f.s.status, cfg.nodes[cand], Started)
  {
    SeesQuota(cfg, f.s.phase.seen, failed, cand);
    FineNext(cfg, f, Plain(Admit(f.s.clock)));
    f' := FineStep(cfg, f, Plain(Admit(f.s.clock)));
  }

  lemma StartNext(cfg: Config, f: Fine, failed: nat) returns (f': Fine, id: nat)
    requires ValidConfig(cfg) && CanAdmit(cfg) && Resting(cfg, f, failed)
    requires failed < |cfg.nodes| && failed < Budget(cfg.policy, |cfg.nodes|)
    ensures Halfway(cfg, f', failed, id)
  {
    var f1 := BeginPassing(cfg, f, failed, failed);
    var f2 := ScanTo(cfg, f1, failed, failed, |cfg.nodes|);
    id := f2.s.spawned;
    var f3 := AdmitOne(cfg, f2, failed, failed);
    FineNext(cfg, f3, Plain(EndPass));
    var f4 := FineStep(cfg, f3, Plain(EndPass));
    FineNext(cfg, f4, Plain(Work(id, Reply(true, true, false))));
    f' := FineStep(cfg, f4, Plain(Work(id, Reply(true, true, false))));
    assert f'.s.workers == map[id := Worker(cfg.nodes[failed], Cordon)];
  }

  const FAILS := Reply(false, true, false)

  lemma FailNext(cfg: Config, f: Fine, failed: nat, id: nat) returns (f': Fine)
    requires ValidConfig(cfg) && Halfway(cfg, f, failed, id)
    ensures Resting(cfg, f', failed + 1)
  {
    FineNext(cfg, f, Plain(Work(id, FAILS)));
    f' := FineStep(cfg, f, Plain(Work(id, FAILS)));
    assert f'.s.workers == map[];
  }

  lemma {:induction false} FailFirst(cfg: Config, failed: nat) returns (f: Fine)
    requires ValidConfig(cfg) && CanAdmit(cfg)
    requires failed <= |cfg.nodes| && failed <= Budget(cfg.policy, |cfg.nodes|)
    ensures Resting(cfg, f, failed)
  {
    if failed == 0 {
      FineStart(cfg);
      f := FINE_INITIAL;
    } else {
      var f1 := FailFirst(cfg, failed - 1);
      var f2, id := StartNext(cfg, f1, failed - 1);
      f := FailNext(cfg, f2, failed - 1, id);
    }
  }

  /** The look at the started node goes past the test for failed nodes. */
  lemma OpenRace(cfg: Config, f: Fine, v: NodeView) returns (f': Fine)
    requires Reached(cfg, f) && f.open.Closed? && Enabled(cfg, f.s, Look(v))
    requires v == OldView(v.name, f.s.clock, true) && StatusOf(f.s.status, v.name).Started?
    ensures Reached(cfg, f') && f' == Fine(f.s, Looking(v, NmcRead))
  {
    FineNext(cfg, f, OpenLook(v));
    var f1 := FineStep(cfg, f, OpenLook(v));
    assert f1 == Fine(f.s, Looking(v, TimeoutRead));
    FineNext(cfg, f1, NextRead);
    var f2 := FineStep(cfg, f1, NextRead);
    assert f2 == Fine(f.s, Looking(v, FailedRead));
    FineNext(cfg, f2, NextRead);
    f' := FineStep(cfg, f2, NextRead);
  }

  /** The rest of the look, once the worker has marked the node as failed. */
  lemma CloseRace(cfg: Config, f: Fine, v: NodeView) returns (f': Fine)
    requires Reached(cfg, f) && f.open == Looking(v, NmcRead) && f.s.phase.Scanning?
    requires v == OldView(v.name, v.now, true) && StatusOf(f.s.status, v.name).CordonFailed?
    ensures Reached(cfg, f') && f' == Fine(Conclude(f.s, v, Verdict(CordonFailed, NotReady)), Closed)
  {
    FineNext(cfg, f, NextRead);
    var f1 := FineStep(cfg, f, NextRead);
    assert f1 == Fine(f.s, Looking(v, StartedRead));
    FineNext(cfg, f1, NextRead);
    var f2 := FineStep(cfg, f1, NextRead);
    assert f2 == Fine(f.s, Looking(v, RebootRead));
    assert ClassifyFree(CordonFailed, f.s.version, v) == Verdict(CordonFailed, NotReady);
    FineNext(cfg, f2, NextRead);
    f' := FineStep(cfg, f2, NextRead);
  }

  /** The worker's cordon fails inside the look at its node: the pass counts the
      node neither as failed nor as in progress. */
  lemma LoseFailure(cfg: Config, f: Fine, failed: nat, cand: nat, id: nat) returns (f': Fine)
    requires ValidConfig(cfg) && Passing(cfg, f, failed, cand)
    requires |f.s.phase.seen| == failed < cand < |cfg.nodes|
    requires f.s.workers == map[id := Worker(cfg.nodes[failed], Cordon)]
    requires StatusOf(f.s.status, cfg.nodes[failed]).Started?
    ensures Passing(cfg, f', failed, cand) && |f'.s.phase.seen| == failed + 1 && f'.s.workers == map[]
    ensures StatusOf(f'.s.status, cfg.nodes[failed]).CordonFailed?
    ensures forall n :: n != cfg.nodes[failed] ==> StatusOf(f'.s.status, n) == StatusOf(f.s.status, n)
  {
    var v := OldView(cfg.nodes[failed], f.s.clock, true);
    var f1 := OpenRace(cfg, f, v);
    FineNext(cfg, f1, Plain(Work(id, FAILS)));
    var f2 := FineStep(cfg, f1, Plain(Work(id, FAILS)));
    assert f2.s.workers == map[];
    f' := CloseRace(cfg, f2, v);
  }

  /** As many nodes as the limit allows have failed; the pass missed the last one. */
  lemma RacedPass(cfg: Config) returns (f: Fine)
    requires ValidConfig(cfg) && CanAdmit(cfg) && Budget(cfg.policy, |cfg.nodes|) < |cfg.nodes|
    ensures var b := Budget(cfg.policy, |cfg.nodes|);
            && Passing(cfg, f, b - 1, b) && |f.s.phase.seen| == b
            && (forall i :: 0 <= i < b ==> StatusOf(f.s.status, cfg.nodes[i]).CordonFailed?)
            && (forall i :: b <= i < |cfg.nodes| ==> IsSet(StatusOf(f.s.status, cfg.nodes[i]), false))
  {
    var b := Budget(cfg.policy, |cfg.nodes|);
    var f0 := FailFirst(cfg, b - 1);
    var f1, id := StartNext(cfg, f0, b - 1);
    var f2 := BeginPassing(cfg, f1, b - 1, b);
    var f3 := ScanTo(cfg, f2, b - 1, b, b - 1);
    f := LoseFailure(cfg, f3, b - 1, b, id);
  }

  /** The limit is reached and one more node is started. */
  lemma RaceOverruns(cfg: Config) returns (f: Fine)
    requires ValidConfig(cfg) && CanAdmit(cfg) && Budget(cfg.policy, |cfg.nodes|) < |cfg.nodes|
    ensures Reached(cfg, f)
    ensures forall i :: 0 <= i <= Budget(cfg.policy, |cfg.nodes|) ==> IsCounted(StatusOf(f.s.status, cfg.nodes[i]))
  {
    var b := Budget(cfg.policy, |cfg.nodes|);
    var f1 := RacedPass(cfg);
    var f2 := ScanTo(cfg, f1, b - 1, b, |cfg.nodes|);
    f := AdmitOne(cfg, f2, b - 1, b);
  }

  lemma PrefixSize(cfg: Config, k: nat)
    requires ValidConfig(cfg) && k <= |cfg.nodes|
    ensures |set n | n in cfg.nodes[..k]| == k
  {
    AllNodes(cfg.(nodes := cfg.nodes[..k]));
  }

  /** With workers writing inside looks, MaxUnavailableNodes bounds the active and
      failed nodes in all calm, smooth runs exactly when no node is ever started
      or the limit covers every node. */
  lemma FineBudgetHoldsIff(cfg: Config)
    requires ValidConfig(cfg)
    ensures (forall f :: Reached(cfg, f) ==> |Occupied(cfg, f.s, true)| <= Budget(cfg.policy, |cfg.nodes|))
            <==> !CanAdmit(cfg) || |cfg.nodes| <= Budget(cfg.policy, |cfg.nodes|)
  {
    var b := Budget(cfg.policy, |cfg.nodes|);
    if !CanAdmit(cfg) {
      forall f | Reached(cfg, f) ensures |Occupied(cfg, f.s, true)| <= b {
        var run :| FineCalm(cfg, FINE_INITIAL, run, true, false) && FinePlay(cfg, FINE_INITIAL, run) == f;
        WorkerlessIsLossless(cfg, FINE_INITIAL, run);
        FineCapacityHolds(cfg, run, true);
      }
    } else if |cfg.nodes| <= b {
      AllNodes(cfg);
      forall f | Reached(cfg, f) ensures |Occupied(cfg, f.s, true)| <= |cfg.nodes| {
        SubsetSize(Occupied(cfg, f.s, true), set n | n in cfg.nodes);
      }
    } else {
      var f := RaceOverruns(cfg);
      var k := b + 1;
      var first := set n | n in cfg.nodes[..k];
      PrefixSize(cfg, k);
      SubsetSize(first, Occupied(cfg, f.s, true));
    }
  }
}

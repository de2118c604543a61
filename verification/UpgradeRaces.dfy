/** A look at a node, split at its reads of the node's status: a worker may write
    between any two of them. Such a look is as good as an atomic one unless the
    worker writes a failed status between the test for failed nodes and the test
    for started ones; then the pass overlooks the node. */
module UpgradeRaces {
  import opened Base
  import opened NodeUpgrade
  import opened UpgradeMachine
  import opened UpgradeSafety
  import opened UpgradeLimits

  /** Which read of the status comes next in a look that has done its step 1: the
      timeout test, the tests of steps 3 and 4, and the two reads of step 5. */
  datatype Read = TimeoutRead | FailedRead | NmcRead | StartedRead | RebootRead

  datatype Open = Closed | Looking(view: NodeView, next: Read)

  /** The state of UpgradeMachine and the look in progress. */
  datatype Fine = Fine(s: State, open: Open)

  /** Plain: a step of UpgradeMachine; a Look among them is one that no write
      interrupts. While a look is open only workers take such steps. */
  datatype FineEvent = Plain(e: Event) | OpenLook(view: NodeView) | NextRead

  predicate FineEnabled(cfg: Config, f: Fine, e: FineEvent) {
    match e
    case Plain(p) => (f.open.Closed? || p.Work?) && Enabled(cfg, f.s, p)
    case OpenLook(v) => f.open.Closed? && Enabled(cfg, f.s, Look(v))
    case NextRead => f.open.Looking? && f.s.phase.Scanning?
  }

  /** The end of a look. */
  function Conclude(s: State, v: NodeView, r: Verdict): State
    requires s.phase.Scanning?
  {
    s.(status := SetStatus(s.status, v.name, r.state),
       start := if ClearsStart(r.bucket) then s.start[v.name := NoStamp] else s.start,
       clock := v.now,
       phase := s.phase.(seen := s.phase.seen + [Seen(r.bucket, v.now, v.persisted.Some?)]))
  }

  function Rewrite(s: State, node: NodeId, st: UpgradeState): State {
    s.(status := SetStatus(s.status, node, st))
  }

  function ReadStep(s: State, v: NodeView, next: Read): Fine
    requires s.phase.Scanning?
  {
    var cur := StatusOf(s.status, v.name);
    match next
    case TimeoutRead =>
      Fine(Rewrite(s, v.name, TimeoutStatus(cur, StartOf(s.start, v.name), v)), Looking(v, FailedRead))
    case FailedRead =>
      if IsFailed(cur) then Fine(Conclude(s, v, Verdict(cur, FailedNode)), Closed)
      else Fine(s, Looking(v, NmcRead))
    case NmcRead =>
      var a := NmcStatusMissing(cur, v);
      if a.yes then Fine(Conclude(s, v, Verdict(a.state, Progressing)), Closed)
      else Fine(Rewrite(s, v.name, a.state), Looking(v, StartedRead))
    case StartedRead =>
      if cur.Started? then Fine(Conclude(s, v, Verdict(cur, Progressing)), Closed)
      else Fine(s, Looking(v, RebootRead))
    case RebootRead =>
      if cur.RebootInProgress? then Fine(Conclude(s, v, Verdict(cur, Progressing)), Closed)
      else Fine(Conclude(s, v, ClassifyFree(cur, s.version, v)), Closed)
  }

  function FineStep(cfg: Config, f: Fine, e: FineEvent): Fine
    requires FineEnabled(cfg, f, e)
  {
    match e
    case Plain(p) => f.(s := Step(cfg, f.s, p))
    case OpenLook(v) =>
      Fine(Rewrite(f.s, v.name, InitStatus(StatusOf(f.s.status, v.name), v)), Looking(v, TimeoutRead))
    case NextRead => ReadStep(f.s, f.open.view, f.open.next)
  }

  /** Assumption W. */
  predicate FineUndisturbed(f: Fine, e: FineEvent) {
    match e
    case Plain(p) => Undisturbed(f.s, p)
    case OpenLook(v) => Undisturbed(f.s, Look(v))
    case NextRead => true
  }

  /** The look is past the test for failed nodes. */
  predicate PastFailed(next: Read) {
    next.NmcRead? || next.StartedRead? || next.RebootRead?
  }

  /** A worker marks the node under the look as failed once the look is past the
      test for failed nodes. */
  predicate LosesFailure(cfg: Config, f: Fine, e: FineEvent) {
    && e.Plain? && e.e.Work? && e.e.id in f.s.workers
    && f.open.Looking? && PastFailed(f.open.next) && f.s.workers[e.e.id].node == f.open.view.name
    && (var m := WorkerMove(f.s.workers[e.e.id].pc, cfg.reboot, e.e.reply);
        m.write.Some? && IsFailed(m.write.value))
  }

  predicate FineSmooth(e: FineEvent) {
    match e
    case Plain(p) => p.Look? ==> UncordonsSucceed(p.view)
    case OpenLook(v) => UncordonsSucceed(v)
    case NextRead => true
  }

  /** Runs that meet assumption W; smooth: and whose uncordon calls succeed;
      lossless: and in which no look loses a failure. */
  predicate FineCalm(cfg: Config, f: Fine, run: seq<FineEvent>, smooth: bool, lossless: bool)
    decreases |run|
  {
    run == [] ||
    (&& FineEnabled(cfg, f, run[0]) && FineUndisturbed(f, run[0])
     && (smooth ==> FineSmooth(run[0])) && (lossless ==> !LosesFailure(cfg, f, run[0]))
     && FineCalm(cfg, FineStep(cfg, f, run[0]), run[1..], smooth, lossless))
  }

  function FinePlay(cfg: Config, f: Fine, run: seq<FineEvent>): Fine
    decreases |run|
  {
    if run == [] || !FineEnabled(cfg, f, run[0]) then f else FinePlay(cfg, FineStep(cfg, f, run[0]), run[1..])
  }

  const FINE_INITIAL := Fine(INITIAL, Closed)

  // ------------------------------------------------------------- simulation

  /** The status the open look works with is the one the workers see: its node was
      owned when the look began. */
  predicate Raced(s: State, v: NodeView, cur: UpgradeState, next: Read) {
    && cur == StatusOf(s.status, v.name) && !cur.Empty? && !TimeExceeded(StartOf(s.start, v.name), v)
    && (PastFailed(next) ==> !IsFailed(cur)) && (next.RebootRead? ==> !cur.Started?)
  }

  /** No worker owns the node, and the look has come this far. */
  predicate Alone(s: State, v: NodeView, cur: UpgradeState, next: Read) {
    var was := StatusOf(s.status, v.name);
    var r := Refreshed(was, StartOf(s.start, v.name), v);
    var nmc := NmcStatusMissing(r, v);
    && !Owned(s, v.name)
    && (match next
        case TimeoutRead => cur == InitStatus(was, v)
        case FailedRead => cur == r
        case NmcRead => cur == r && !IsFailed(r)
        case StartedRead => cur == nmc.state && !IsFailed(r) && !nmc.yes
        case RebootRead => cur == nmc.state && !IsFailed(r) && !nmc.yes && !cur.Started?)
  }

  /** s is the state of the atomic run that a fine run stands for: an open look
      has not happened yet in it. */
  predicate Stands(cfg: Config, f: Fine, s: State) {
    match f.open
    case Closed => f.s == s
    case Looking(v, next) =>
      var cur := StatusOf(f.s.status, v.name);
      && Enabled(cfg, s, Look(v)) && f.s == Rewrite(s, v.name, cur)
      && (Raced(s, v, cur, next) || Alone(s, v, cur, next))
  }

  lemma CalmExclusive(cfg: Config, s: State, smooth: bool)
    requires ValidConfig(cfg) && CalmlyReachable(cfg, s, smooth)
    ensures Exclusive(cfg, s)
  {
    var run :| Calm(cfg, INITIAL, run) && (smooth ==> UncordonsGoWell(run)) && Leads(cfg, INITIAL, run, s);
    RunKeepsExclusion(cfg, INITIAL, run);
  }

  /** An image that is there, and passes for the target exactly when an empty one does. */
  function Filler(target: string): (r: string)
    ensures r != "" && (HasSuffix(r, target) <==> HasSuffix("", target))
  {
    if target == "x" then "y" else "x"
  }

  /** The view with which an atomic look does what a raced one did: it neither
      requeues the node nor meets a missing image. */
  function Muted(version: string, v: NodeView): NodeView {
    v.(requeueLabel := false,
       persisted := if v.persisted.Some? && v.persisted.value.image == ""
                    then Some(v.persisted.value.(image := Filler(TargetVersion(version, v))))
                    else v.persisted)
  }

  lemma MutedMatches(version: string, v: NodeView)
    ensures ImageMatches(version, Muted(version, v)) == ImageMatches(version, v)
    ensures IsNew(version, Muted(version, v)) == IsNew(version, v)
    ensures ReadyForUpgrade(Muted(version, v)) == ReadyForUpgrade(v)
  {
  }

  lemma SameUnfinished(version: string, v: NodeView, v': NodeView, st: UpgradeState)
    requires IsNew(version, v') == IsNew(version, v) && ReadyForUpgrade(v') == ReadyForUpgrade(v)
    requires v'.versionLabel == v.versionLabel && v'.versionUpdated == v.versionUpdated
    ensures ClassifyUnfinished(st, version, v') == ClassifyUnfinished(st, version, v)
  {
    assert NodeNew(st, version, v') == NodeNew(st, version, v);
    assert UpgradeInProgress(st, version, v') == UpgradeInProgress(st, version, v);
  }

  lemma MutedFinishes(version: string, v: NodeView, cur: UpgradeState)
    ensures ClassifyFree(cur, version, Muted(version, v)) == ClassifyFree(cur, version, v)
    ensures NmcStatusMissing(cur, Muted(version, v)) == Answer(cur, false)
  {
    var v' := Muted(version, v);
    MutedMatches(version, v);
    assert NodeReady(cur, version, v') == NodeReady(cur, version, v);
    SameUnfinished(version, v, v', NodeReady(cur, version, v).state);
  }

  /** What an atomic look gives on a node left alone after steps 1 and 2. */
  lemma QuietVerdict(s: State, v: NodeView, cur: UpgradeState)
    requires cur == StatusOf(s.status, v.name) && !cur.Empty? && !v.requeueLabel
    requires !TimeExceeded(StartOf(s.start, v.name), v)
    ensures Verdicted(s, v) == ClassifyCurrent(cur, s.version, v)
  {
  }

  /** The open look ends with verdict r, and an atomic look with view v' does too. */
  lemma Concluded(cfg: Config, f: Fine, s: State, v: NodeView, v': NodeView, r: Verdict, smooth: bool)
    requires ValidConfig(cfg) && CalmlyReachable(cfg, s, smooth)
    requires Enabled(cfg, s, Look(v)) && Undisturbed(s, Look(v'))
    requires f.s == Rewrite(s, v.name, StatusOf(f.s.status, v.name)) && !r.state.Empty?
    requires v'.name == v.name && v'.now == v.now && v'.persisted.Some? == v.persisted.Some?
    requires Verdicted(s, v') == r && (smooth ==> UncordonsSucceed(v'))
    ensures CalmlyReachable(cfg, Conclude(f.s, v, r), smooth)
  {
    SetTwice(s.status, v.name, StatusOf(f.s.status, v.name), r.state);
    assert Conclude(f.s, v, r) == LookStep(s, v');
    CalmNext(cfg, s, Look(v'), smooth);
  }

  lemma FinishNotEmpty(cur: UpgradeState, version: string, v: NodeView)
    requires !cur.Empty?
    ensures !ClassifyFree(cur, version, v).state.Empty?
  {
    var ready := NodeReady(cur, version, v).state;
    assert !ready.Empty?;
    assert !NodeNew(ready, version, v).state.Empty?;
    assert !UpgradeInProgress(ready, version, v).state.Empty?;
  }

  /** The view of the atomic look a raced one ends as: for the early reads the
      status alone decides; after them it is one without requeue and missing image. */
  function Replayed(version: string, v: NodeView, next: Read): NodeView {
    if next.RebootRead? then Muted(version, v) else v.(requeueLabel := false)
  }

  lemma SameTime(start: Stamp, v: NodeView, v': NodeView)
    requires v'.now == v.now && v'.persisted.Some? == v.persisted.Some?
    requires v.persisted.Some? ==>
               && v'.persisted.value.status == v.persisted.value.status
               && v'.persisted.value.start == v.persisted.value.start
    ensures TimeExceeded(start, v') == TimeExceeded(start, v)
  {
  }

  lemma ReplayedView(version: string, v: NodeView, next: Read, start: Stamp)
    ensures var v' := Replayed(version, v, next);
            && v'.name == v.name && v'.now == v.now && v'.persisted.Some? == v.persisted.Some?
            && !v'.requeueLabel && TimeExceeded(start, v') == TimeExceeded(start, v)
            && UncordonsSucceed(v') == UncordonsSucceed(v)
  {
    SameTime(start, v, Replayed(version, v, next));
  }

  lemma RacedVerdict(s: State, v: NodeView, cur: UpgradeState, next: Read)
    requires s.phase.Scanning? && Raced(s, v, cur, next) && ReadStep(s, v, next).open.Closed?
    ensures var r := Verdicted(s, Replayed(s.version, v, next));
            ReadStep(s, v, next).s == Conclude(s, v, r) && !r.state.Empty?
  {
    var v' := Replayed(s.version, v, next);
    ReplayedView(s.version, v, next, StartOf(s.start, v.name));
    MutedFinishes(s.version, v, cur);
    FinishNotEmpty(cur, s.version, v);
    QuietVerdict(s, v', cur);
    CurrentCases(cur, s.version, v');
  }

  /** A raced look that ends at this read ends as an atomic look would right now. */
  lemma RacedEnds(cfg: Config, f: Fine, s: State, smooth: bool)
    requires ValidConfig(cfg) && CalmlyReachable(cfg, s, smooth) && f.open.Looking? && Stands(cfg, f, s)
    requires Raced(s, f.open.view, StatusOf(f.s.status, f.open.view.name), f.open.next)
    requires smooth ==> UncordonsSucceed(f.open.view)
    requires ReadStep(f.s, f.open.view, f.open.next).open.Closed?
    ensures CalmlyReachable(cfg, ReadStep(f.s, f.open.view, f.open.next).s, smooth)
  {
    var v, cur := f.open.view, StatusOf(f.s.status, f.open.view.name);
    var v' := Replayed(s.version, v, f.open.next);
    assert f.s == s;
    ReplayedView(s.version, v, f.open.next, StartOf(s.start, v.name));
    RacedVerdict(s, v, cur, f.open.next);
    Concluded(cfg, f, s, v, v', Verdicted(s, v'), smooth);
  }

  lemma AloneEnds(cfg: Config, f: Fine, s: State, smooth: bool)
    requires ValidConfig(cfg) && CalmlyReachable(cfg, s, smooth) && f.open.Looking? && Stands(cfg, f, s)
    requires Alone(s, f.open.view, StatusOf(f.s.status, f.open.view.name), f.open.next)
    requires smooth ==> UncordonsSucceed(f.open.view)
    requires ReadStep(f.s, f.open.view, f.open.next).open.Closed?
    ensures CalmlyReachable(cfg, ReadStep(f.s, f.open.view, f.open.next).s, smooth)
  {
    var v, cur := f.open.view, StatusOf(f.s.status, f.open.view.name);
    var r := Refreshed(StatusOf(s.status, v.name), StartOf(s.start, v.name), v);
    CurrentCases(r, s.version, v);
    FinishNotEmpty(cur, s.version, v);
    assert ReadStep(f.s, v, f.open.next).s == Conclude(f.s, v, Verdicted(s, v));
    Concluded(cfg, f, s, v, v, Verdicted(s, v), smooth);
  }

  /** A missing image makes a read write only on a node that no worker owns. */
  lemma NmcWritesAlone(cfg: Config, s: State, v: NodeView)
    requires Exclusive(cfg, s) && NmcStatusMissing(StatusOf(s.status, v.name), v).state != StatusOf(s.status, v.name)
    ensures !Owned(s, v.name)
  {
  }

  lemma RacedGoesOn(cfg: Config, s: State, v: NodeView, next: Read)
    requires Exclusive(cfg, s) && Enabled(cfg, s, Look(v)) && Raced(s, v, StatusOf(s.status, v.name), next)
    requires ReadStep(s, v, next).open.Looking?
    ensures Stands(cfg, ReadStep(s, v, next), s)
  {
    var cur := StatusOf(s.status, v.name);
    if next.NmcRead? && NmcStatusMissing(cur, v).state != cur {
      NmcWritesAlone(cfg, s, v);
    }
  }

  lemma AloneGoesOn(cfg: Config, f: Fine, s: State)
    requires f.open.Looking? && Stands(cfg, f, s)
    requires Alone(s, f.open.view, StatusOf(f.s.status, f.open.view.name), f.open.next)
    requires ReadStep(f.s, f.open.view, f.open.next).open.Looking?
    ensures Stands(cfg, ReadStep(f.s, f.open.view, f.open.next), s)
  {
    var v, cur := f.open.view, StatusOf(f.s.status, f.open.view.name);
    var f' := ReadStep(f.s, v, f.open.next);
    var cur' := StatusOf(f'.s.status, v.name);
    SetTwice(s.status, v.name, cur, cur');
    assert f'.s == Rewrite(s, v.name, cur');
    assert Alone(s, v, cur', f'.open.next);
  }

  /** A read that does not end the look. */
  lemma ReadGoesOn(cfg: Config, f: Fine, s: State)
    requires Exclusive(cfg, s) && f.open.Looking? && Stands(cfg, f, s)
    requires ReadStep(f.s, f.open.view, f.open.next).open.Looking?
    ensures Stands(cfg, ReadStep(f.s, f.open.view, f.open.next), s)
  {
    var v, cur := f.open.view, StatusOf(f.s.status, f.open.view.name);
    if Raced(s, v, cur, f.open.next) {
      assert f.s == s;
      RacedGoesOn(cfg, s, v, f.open.next);
    } else {
      AloneGoesOn(cfg, f, s);
    }
  }

  /** The worker of the node under the look moves on. */
  lemma OwnWorkStands(cfg: Config, s: State, v: NodeView, next: Read, id: nat, r: Reply)
    requires Enabled(cfg, s, Look(v)) && id in s.workers && s.workers[id].node == v.name
    requires Raced(s, v, StatusOf(s.status, v.name), next)
    requires !LosesFailure(cfg, Fine(s, Looking(v, next)), Plain(Work(id, r)))
    ensures Stands(cfg, Fine(WorkStep(cfg, s, id, r), Looking(v, next)), WorkStep(cfg, s, id, r))
  {
  }

  /** A worker of another node moves on. */
  lemma OtherWorkStands(cfg: Config, f: Fine, s: State, id: nat, r: Reply)
    requires f.open.Looking? && Stands(cfg, f, s) && id in s.workers && s.workers[id].node != f.open.view.name
    ensures Stands(cfg, f.(s := WorkStep(cfg, f.s, id, r)), WorkStep(cfg, s, id, r))
  {
    var v, w := f.open.view, s.workers[id];
    var m := WorkerMove(w.pc, cfg.reboot, r);
    if m.write.Some? {
      SetCommutes(s.status, v.name, StatusOf(f.s.status, v.name), w.node, m.write.value);
    }
    OwnedStays(cfg, s, id, r, v.name);
  }

  lemma WorkStands(cfg: Config, f: Fine, s: State, id: nat, r: Reply)
    requires f.open.Looking? && Stands(cfg, f, s) && id in f.s.workers
    requires !LosesFailure(cfg, f, Plain(Work(id, r)))
    ensures Stands(cfg, f.(s := WorkStep(cfg, f.s, id, r)), WorkStep(cfg, s, id, r))
  {
    if s.workers[id].node == f.open.view.name {
      assert Owned(s, f.open.view.name);
      assert f.s == s;
      OwnWorkStands(cfg, s, f.open.view, f.open.next, id, r);
    } else {
      OtherWorkStands(cfg, f, s, id, r);
    }
  }

  /** A worker's step gives no node a new owner. */
  lemma OwnedStays(cfg: Config, s: State, id: nat, r: Reply, n: NodeId)
    requires id in s.workers
    ensures Owned(WorkStep(cfg, s, id, r), n) ==> Owned(s, n)
  {
    var s' := WorkStep(cfg, s, id, r);
    if Owned(s', n) {
      var k :| k in s'.workers && s'.workers[k].node == n;
      assert k in s.workers && s.workers[k].node == n;
    }
  }

  lemma OpenStands(cfg: Config, s: State, v: NodeView)
    requires ValidConfig(cfg) && Exclusive(cfg, s) && Enabled(cfg, s, Look(v)) && Undisturbed(s, Look(v))
    ensures Stands(cfg, FineStep(cfg, Fine(s, Closed), OpenLook(v)), s)
  {
    var was := StatusOf(s.status, v.name);
    if Owned(s, v.name) {
      assert IsUpgrading(was) && InitStatus(was, v) == was;
    }
  }

  /** One step of a fine run is none or one of the atomic run. */
  lemma StepStands(cfg: Config, f: Fine, s: State, e: FineEvent, smooth: bool) returns (s': State)
    requires ValidConfig(cfg) && CalmlyReachable(cfg, s, smooth) && Stands(cfg, f, s)
    requires FineEnabled(cfg, f, e) && FineUndisturbed(f, e) && !LosesFailure(cfg, f, e)
    requires smooth ==> FineSmooth(e) && (f.open.Looking? ==> UncordonsSucceed(f.open.view))
    ensures CalmlyReachable(cfg, s', smooth) && Stands(cfg, FineStep(cfg, f, e), s')
    ensures var f' := FineStep(cfg, f, e); smooth && f'.open.Looking? ==> UncordonsSucceed(f'.open.view)
  {
    CalmExclusive(cfg, s, smooth);
    s' := s;
    match e
    case Plain(p) =>
      CalmNext(cfg, s, p, smooth);
      s' := Step(cfg, s, p);
      if f.open.Looking? {
        WorkStands(cfg, f, s, p.id, p.reply);
      }
    case OpenLook(v) => OpenStands(cfg, s, v);
    case NextRead =>
      var next := ReadStep(f.s, f.open.view, f.open.next);
      if next.open.Looking? {
        ReadGoesOn(cfg, f, s);
      } else if Raced(s, f.open.view, StatusOf(f.s.status, f.open.view.name), f.open.next) {
        RacedEnds(cfg, f, s, smooth);
        s' := next.s;
      } else {
        AloneEnds(cfg, f, s, smooth);
        s' := next.s;
      }
  }

  lemma {:induction false} RunStands(cfg: Config, f: Fine, s: State, run: seq<FineEvent>, smooth: bool)
    returns (s': State)
    requires ValidConfig(cfg) && CalmlyReachable(cfg, s, smooth) && Stands(cfg, f, s)
    requires smooth && f.open.Looking? ==> UncordonsSucceed(f.open.view)
    requires FineCalm(cfg, f, run, smooth, true)
    ensures var f' := FinePlay(cfg, f, run);
            && CalmlyReachable(cfg, s', smooth) && Stands(cfg, f', s')
            && (smooth && f'.open.Looking? ==> UncordonsSucceed(f'.open.view))
    decreases |run|
  {
    s' := s;
    if run != [] {
      s' := StepStands(cfg, f, s, run[0], smooth);
      s' := RunStands(cfg, FineStep(cfg, f, run[0]), s', run[1..], smooth);
    }
  }

  /** Looks serialize: whatever a run does between the reads of its looks, if no
      look loses a failure then, between looks, its state is one that a run of
      atomic looks leads to, so all that holds in those runs holds in it. */
  lemma LooksSerialize(cfg: Config, run: seq<FineEvent>, smooth: bool)
    requires ValidConfig(cfg) && FineCalm(cfg, FINE_INITIAL, run, smooth, true)
    ensures var f := FinePlay(cfg, FINE_INITIAL, run);
            f.open.Closed? ==> CalmlyReachable(cfg, f.s, smooth)
  {
    CalmStart(cfg, smooth);
    var s := RunStands(cfg, FINE_INITIAL, INITIAL, run, smooth);
  }

  /** The partition survives writes inside looks: without lost failures, once a
      pass has looked at every node, its counters add up and each bucket fixes
      what its nodes' statuses can be. */
  lemma FinePassPartitions(cfg: Config, run: seq<FineEvent>)
    requires ValidConfig(cfg) && FineCalm(cfg, FINE_INITIAL, run, false, true)
    ensures var f := FinePlay(cfg, FINE_INITIAL, run);
            f.open.Closed? && Scanned(cfg, f.s) ==>
              var seen := f.s.phase.seen;
              && Count(seen, FailedNode) + Count(seen, Progressing) + Count(seen, Done)
                 + Count(seen, Installing) + Count(seen, NotReady) + Count(seen, Candidate) == |cfg.nodes|
              && forall i :: 0 <= i < |cfg.nodes| ==> Placed(f.s.phase, i, StatusOf(f.s.status, cfg.nodes[i]))
  {
    var f := FinePlay(cfg, FINE_INITIAL, run);
    if f.open.Closed? && Scanned(cfg, f.s) {
      LooksSerialize(cfg, run, false);
      var atomic :| Calm(cfg, INITIAL, atomic) && Leads(cfg, INITIAL, atomic, f.s);
      PassPartitions(cfg, atomic);
    }
  }

  /** A look that lost a failure puts the node into a bucket its status fits
      exactly when the node has the wanted image or is a new one. */
  lemma LostFailureFitsIff(st: UpgradeState, version: string, v: NodeView)
    requires IsFailed(st) && !st.UncordonFailed?
    ensures var r := ClassifyFree(st, version, v);
            BucketFits(r.bucket, r.state) <==> ImageMatches(version, v) || IsNew(version, v)
  {
    var ready := NodeReady(st, version, v).state;
    assert ImageMatches(version, v) || ready == st;
    assert IsNew(version, v) <==> NodeNew(ready, version, v).yes;
  }

  /** An open look holds no slot that its node did not have. */
  lemma OpenTakesNoSlot(cfg: Config, f: Fine, s: State, n: NodeId, withFailed: bool)
    requires Stands(cfg, f, s) && (withFailed && f.open.Looking? ==> UncordonsSucceed(f.open.view))
    ensures TakesSlot(StatusOf(f.s.status, n), withFailed) ==> TakesSlot(StatusOf(s.status, n), withFailed)
  {
    if f.open.Looking? {
      var v := f.open.view;
      var was := StatusOf(s.status, v.name);
      assert n != v.name ==> StatusOf(f.s.status, n) == StatusOf(s.status, n);
      assert TakesSlot(InitStatus(was, v), withFailed) ==> TakesSlot(was, withFailed);
    }
  }

  lemma OpenWithinLimit(cfg: Config, f: Fine, s: State, smooth: bool)
    requires ValidConfig(cfg) && CalmlyReachable(cfg, s, smooth) && Stands(cfg, f, s)
    requires smooth && f.open.Looking? ==> UncordonsSucceed(f.open.view)
    ensures |Occupied(cfg, f.s, smooth)| <= SlotLimit(cfg, smooth)
  {
    var run :| Calm(cfg, INITIAL, run) && (smooth ==> UncordonsGoWell(run)) && Leads(cfg, INITIAL, run, s);
    if smooth {
      GoodUncordonsFaultFree(cfg, INITIAL, run);
    }
    RunWithinLimit(cfg, run, smooth);
    forall n | n in Occupied(cfg, f.s, smooth) ensures n in Occupied(cfg, s, smooth) {
      OpenTakesNoSlot(cfg, f, s, n, smooth);
    }
    SubsetSize(Occupied(cfg, f.s, smooth), Occupied(cfg, s, smooth));
  }

  /** Capacity with workers writing inside looks: without lost failures the active
      nodes never exceed MaxParallelUpgrades, and in smooth runs the active and
      failed ones never exceed MaxUnavailableNodes, in the middle of a look too. */
  lemma FineCapacityHolds(cfg: Config, run: seq<FineEvent>, smooth: bool)
    requires ValidConfig(cfg) && FineCalm(cfg, FINE_INITIAL, run, smooth, true)
    ensures |Occupied(cfg, FinePlay(cfg, FINE_INITIAL, run).s, smooth)| <= SlotLimit(cfg, smooth)
  {
    CalmStart(cfg, smooth);
    var s := RunStands(cfg, FINE_INITIAL, INITIAL, run, smooth);
    OpenWithinLimit(cfg, FinePlay(cfg, FINE_INITIAL, run), s, smooth);
  }
}

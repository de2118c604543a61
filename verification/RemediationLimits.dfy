/** Where the guarantees of auto-remediation end: which window the gate counts,
    what ambiguous tracker keys, dropped fractions of a second and unparsable
    windows do to the rate limit. */
module RemediationLimits {
  import opened Base
  import opened Attempts
  import opened RemediationMachine
  import opened RemediationSafety

  // ------------------------------------------------------------- reaching states

  predicate Limited(e: Event, max: int) {
    e.Visit? && e.visit.mapping.Some? ==> EffectiveMax(e.visit.mapping.value) <= max
  }

  /** States of runs that meet every assumption of the rate limit: conditions
      from cs, every created workflow recorded, no policy above max. */
  ghost predicate Reachable(s: State, cs: set<Condition>, max: int) {
    exists run ::
      && Legal(INITIAL, run) && AllSound(run, cs) && Play(INITIAL, run) == s
      && forall i :: 0 <= i < |run| ==> Limited(run[i], max)
  }

  lemma {:induction false} SoundAppend(run: seq<Event>, e: Event, cs: set<Condition>)
    requires AllSound(run, cs) && Sound(e, cs)
    ensures AllSound(run + [e], cs)
  {
    if run == [] {
      assert run + [e] == [e] && [e][1..] == [];
    } else {
      SoundAppend(run[1..], e, cs);
      assert (run + [e])[1..] == run[1..] + [e];
    }
  }

  lemma ReachNext(s: State, e: Event, cs: set<Condition>, max: int)
    requires Reachable(s, cs, max) && Enabled(s, e) && Sound(e, cs) && Limited(e, max)
    ensures Reachable(Step(s, e), cs, max)
  {
    var run :| && Legal(INITIAL, run) && AllSound(run, cs) && Play(INITIAL, run) == s
               && forall i :: 0 <= i < |run| ==> Limited(run[i], max);
    LegalAppend(INITIAL, run, e);
    SoundAppend(run, e, cs);
    assert forall i :: 0 <= i < |run + [e]| ==> Limited((run + [e])[i], max);
  }

  lemma ReachStart(cs: set<Condition>, max: int)
    ensures Reachable(INITIAL, cs, max)
  {
    assert Legal(INITIAL, []) && AllSound([], cs) && Play(INITIAL, []) == INITIAL;
  }

  lemma ReachedConsistent(s: State, cs: set<Condition>, max: int, n: NodeId, c: Condition)
    requires Reachable(s, cs, max) && Unambiguous(cs) && c in cs
    ensures Consistent(s, cs, n, c)
  {
    var run :| && Legal(INITIAL, run) && AllSound(run, cs) && Play(INITIAL, run) == s
               && forall i :: 0 <= i < |run| ==> Limited(run[i], max);
    InitiallyConsistent(cs, n, c);
    RunKeepsConsistency(INITIAL, cs, run, n, c);
  }

  /** Every CR can be loaded into some tracker. */
  lemma SyncExists(cr: StatusCR) returns (tracker: Tracker)
    ensures SyncedFrom(cr, tracker)
  {
    var keys := set n, c | n in cr && c in cr[n] :: Key(n, c);
    tracker := map k | k in keys :: var n, c :| Has(cr, n, c) && Key(n, c) == k; Times(cr[n][c]);
    forall n, c | Has(cr, n, c) ensures Key(n, c) in tracker {
      assert Key(n, c) in keys;
    }
  }

  ghost predicate AllPending(ws: seq<Workflow>) {
    forall w :: w in ws ==> w.phase.Pending?
  }

  lemma {:induction false} PendingIgnored(ws: seq<Workflow>, v: NodeVisit)
    requires AllPending(ws)
    ensures Existing(ws, v) == Outcome(ws, true)
  {
    if ws != [] {
      PendingIgnored(ws[1..], v);
      assert [ws[0]] + ws[1..] == ws;
    }
  }

  /** A visit at time t that finds nothing in its way but the gate. */
  function OpenVisit(n: NodeId, m: Mapping, t: Instant): NodeVisit {
    NodeVisit(n, Some(m), true, {}, false, false, false, false, true, true, "t", "w", t, t, true)
  }

  lemma OpenVisitCreates(s: State, n: NodeId, m: Mapping, t: Instant)
    requires AllPending(s.workflows) && !Violated(s.tracker, n, m)
    ensures Creates(s, OpenVisit(n, m, t))
    ensures WindowOf(m).Some? ==> Records(OpenVisit(n, m, t))
  {
    PendingIgnored(s.workflows, OpenVisit(n, m, t));
  }

  /** The CR is the given one with the attempt of such a visit registered. */
  ghost predicate Registered(cr': StatusCR, cr: StatusCR, n: NodeId, m: Mapping, t: Instant) {
    cr' == Register(cr, n, m.condition, AttemptOf(OpenVisit(n, m, t)))
  }

  /** What such a visit does when the gate is open. */
  lemma VisitTaken(s: State, n: NodeId, m: Mapping, t: Instant)
    requires s.phase.InPass? && AllPending(s.workflows) && !Violated(s.tracker, n, m) && WindowOf(m).Some?
    ensures var s' := VisitStep(s, OpenVisit(n, m, t));
            && s'.phase == InPass(s.phase.visited + {n}) && s'.clock == t
            && s'.history == s.history[Pair(n, m.condition) := HistoryOf(s, n, m.condition) + [t]]
            && Registered(s'.cr, s.cr, n, m, t)
            && AllPending(s'.workflows)
    ensures var s' := VisitStep(s, OpenVisit(n, m, t));
            Lookup(s'.tracker, n, m.condition)
            == DropOld(Lookup(s.tracker, n, m.condition), t - WindowOf(m).value) + [t]
  {
    OpenVisitCreates(s, n, m, t);
    PendingIgnored(s.workflows, OpenVisit(n, m, t));
  }

  lemma BeginTaken(s: State, t: Instant, tracker: Tracker)
    requires s.phase.Idle? && s.clock <= t && SyncedFrom(Clean(s.cr, t - RETENTION), tracker)
    ensures Enabled(s, Begin(t, Some(tracker)))
    ensures Step(s, Begin(t, Some(tracker)))
            == s.(cr := Clean(s.cr, t - RETENTION), cutoff := t - RETENTION, clock := t,
                  tracker := tracker, phase := InPass({}))
  {
  }

  lemma ReachBegin(s: State, t: Instant, tracker: Tracker, cs: set<Condition>, max: int) returns (s': State)
    requires Reachable(s, cs, max) && s.phase.Idle? && s.clock <= t
    requires SyncedFrom(Clean(s.cr, t - RETENTION), tracker)
    ensures Reachable(s', cs, max) && s'.phase == InPass({}) && s'.clock == t && s'.cutoff == t - RETENTION
    ensures s'.history == s.history && s'.workflows == s.workflows
    ensures s'.tracker == tracker && s'.cr == Clean(s.cr, t - RETENTION)
  {
    BeginTaken(s, t, tracker);
    ReachNext(s, Begin(t, Some(tracker)), cs, max);
    s' := s.(cr := Clean(s.cr, t - RETENTION), cutoff := t - RETENTION, clock := t,
             tracker := tracker, phase := InPass({}));
  }

  lemma ReachVisit(s: State, n: NodeId, m: Mapping, t: Instant, cs: set<Condition>, max: int) returns (s': State)
    requires Reachable(s, cs, max) && s.phase.InPass? && n !in s.phase.visited && s.clock <= t
    requires AllPending(s.workflows) && !Violated(s.tracker, n, m) && WindowOf(m).Some?
    requires m.condition in cs && EffectiveMax(m) <= max
    ensures Reachable(s', cs, max)
    ensures s'.phase == InPass(s.phase.visited + {n}) && s'.clock == t && AllPending(s'.workflows)
    ensures HistoryOf(s', n, m.condition) == HistoryOf(s, n, m.condition) + [t]
    ensures forall n', c :: n' != n ==> HistoryOf(s', n', c) == HistoryOf(s, n', c)
    ensures Registered(s'.cr, s.cr, n, m, t)
    ensures Lookup(s'.tracker, n, m.condition)
            == DropOld(Lookup(s.tracker, n, m.condition), t - WindowOf(m).value) + [t]
  {
    OpenVisitCreates(s, n, m, t);
    VisitTaken(s, n, m, t);
    ReachNext(s, Visit(OpenVisit(n, m, t)), cs, max);
    s' := Step(s, Visit(OpenVisit(n, m, t)));
  }

  lemma ReachEnd(s: State, cs: set<Condition>, max: int)
    requires Reachable(s, cs, max) && s.phase.InPass?
    ensures Reachable(s.(phase := Idle), cs, max)
  {
    ReachNext(s, End, cs, max);
  }

  /** A pass at t whose reload leaves the gate open creates one workflow. */
  lemma ReachPass(s: State, n: NodeId, m: Mapping, t: Instant, tracker: Tracker, cs: set<Condition>, max: int)
    returns (s': State)
    requires Reachable(s, cs, max) && s.phase.Idle? && s.clock <= t && AllPending(s.workflows)
    requires SyncedFrom(Clean(s.cr, t - RETENTION), tracker) && !Violated(tracker, n, m)
    requires WindowOf(m).Some? && m.condition in cs && EffectiveMax(m) <= max
    ensures Reachable(s', cs, max) && s'.phase.Idle? && s'.clock == t && AllPending(s'.workflows)
    ensures HistoryOf(s', n, m.condition) == HistoryOf(s, n, m.condition) + [t]
    ensures Registered(s'.cr, Clean(s.cr, t - RETENTION), n, m, t)
  {
    var s1 := ReachBegin(s, t, tracker, cs, max);
    var s2 := ReachVisit(s1, n, m, t, cs, max);
    ReachEnd(s2, cs, max);
    s' := s2.(phase := Idle);
  }

  lemma SingleKept(l: seq<Attempt>, cutoff: int)
    requires |l| == 1 && Recent(l[0].start * SECOND, cutoff)
    ensures Keep(l, cutoff) == l && Times(l) == [l[0].start * SECOND]
  {
    assert l[..0] == [] && Keep(l, cutoff) == Keep(l[..0], cutoff) + [l[0]];
    assert Times(l) == Times(l[..0]) + [l[0].start * SECOND];
  }

  // --------------------------------------------------- which window the gate counts

  const NODE := NodeId("a")

  /** k attempts, all at instant 0. */
  ghost predicate Zeros(h: seq<Instant>, k: nat) {
    |h| == k && forall i :: 0 <= i < k ==> h[i] == 0
  }

  lemma {:induction false} ZeroStamps(h: seq<Instant>, cutoff: int)
    requires Zeros(h, |h|)
    ensures |KeepStamps(ToSeconds(h), cutoff)| == if cutoff < 0 then |h| else 0
  {
    if h != [] {
      ZeroStamps(h[..|h| - 1], cutoff);
      assert ToSeconds(h)[..|h| - 1] == ToSeconds(h[..|h| - 1]);
    }
  }

  /** Idle at instant 0, with k attempts for NODE and the condition, all at 0. */
  ghost predicate AllAtZero(s: State, c: Condition, k: nat, max: int) {
    && Reachable(s, {c}, max) && s.phase.Idle? && s.clock == 0 && AllPending(s.workflows)
    && Zeros(HistoryOf(s, NODE, c), k)
  }

  /** A pass begun at t counts the k attempts at 0 exactly when t is below 72 hours. */
  lemma BeginAt(s: State, m: Mapping, k: nat, t: Instant) returns (s': State)
    requires AllAtZero(s, m.condition, k, EffectiveMax(m))
    ensures Reachable(s', {m.condition}, EffectiveMax(m)) && AllPending(s'.workflows)
    ensures s'.phase == InPass({}) && s'.clock == t && s'.cutoff == t - RETENTION && s'.history == s.history
    ensures Violated(s'.tracker, NODE, m) <==> (if t < RETENTION then k else 0) >= EffectiveMax(m)
  {
    var cs := {m.condition};
    var tracker := SyncExists(Clean(s.cr, t - RETENTION));
    s' := ReachBegin(s, t, tracker, cs, EffectiveMax(m));
    ReachedConsistent(s', cs, EffectiveMax(m), NODE, m.condition);
    GateCountsRetained(s', cs, NODE, m);
    ZeroStamps(HistoryOf(s', NODE, m.condition), s'.cutoff);
  }

  lemma {:induction false} AttemptsAtZero(m: Mapping, k: nat) returns (s: State)
    requires WindowOf(m).Some? && k <= EffectiveMax(m)
    ensures AllAtZero(s, m.condition, k, EffectiveMax(m))
  {
    var cs, max := {m.condition}, EffectiveMax(m);
    if k == 0 {
      s := INITIAL;
      ReachStart(cs, max);
    } else {
      var s0 := AttemptsAtZero(m, k - 1);
      var s1 := BeginAt(s0, m, k - 1, 0);
      var s2 := ReachVisit(s1, NODE, m, 0, cs, max);
      ReachEnd(s2, cs, max);
      s := s2.(phase := Idle);
    }
  }

  /** The gate of a node not visited yet closes exactly when the attempts of the
      window of length w before the pass reach the limit. */
  ghost predicate GateAsDocumented(s: State, n: NodeId, m: Mapping, w: int) {
    s.phase.InPass? && n !in s.phase.visited ==>
      (Violated(s.tracker, n, m)
       <==> |KeepStamps(ToSeconds(HistoryOf(s, n, m.condition)), s.cutoff + RETENTION - w)| >= EffectiveMax(m))
  }

  /** A pass at t, with as many attempts at 0 as the limit: when only one of the
      two windows reaches back to 0, the gates differ. */
  lemma GatesDiffer(s: State, m: Mapping, w: int, t: Instant)
    requires s.phase == InPass({}) && s.cutoff == t - RETENTION && EffectiveMax(m) > 0
    requires Zeros(HistoryOf(s, NODE, m.condition), EffectiveMax(m))
    requires Violated(s.tracker, NODE, m) <==> t < RETENTION
    requires t < RETENTION <==> t >= w
    ensures !GateAsDocumented(s, NODE, m, w)
  {
    ZeroStamps(HistoryOf(s, NODE, m.condition), s.cutoff + RETENTION - w);
  }

  /** A pass whose gate differs from the documented one, for any other window. */
  lemma WrongWindow(m: Mapping, w: int) returns (s: State)
    requires WindowOf(m) == Some(w) && EffectiveMax(m) > 0 && w != RETENTION
    ensures Reachable(s, {m.condition}, EffectiveMax(m)) && !GateAsDocumented(s, NODE, m, w)
  {
    var k := EffectiveMax(m);
    var s0 := AttemptsAtZero(m, k);
    var t: nat := if w > RETENTION then RETENTION else if w < 0 then 0 else w;
    s := BeginAt(s0, m, k, t);
    assert HistoryOf(s, NODE, m.condition) == HistoryOf(s0, NODE, m.condition);
    GatesDiffer(s, m, w, t);
  }

  lemma RightWindow(s: State, cs: set<Condition>, n: NodeId, m: Mapping, w: int)
    requires Consistent(s, cs, n, m.condition) && (w == RETENTION || EffectiveMax(m) <= 0)
    ensures GateAsDocumented(s, n, m, w)
  {
    if s.phase.InPass? && n !in s.phase.visited {
      GateCountsRetained(s, cs, n, m);
    }
  }

  /** windowSize is documented as the window in which attempts are counted. In
      all runs the gate counts that window if and only if it is 72 hours, or the
      limit is so low that the gate is always closed. */
  lemma WindowCountsIff(m: Mapping, w: int)
    requires WindowOf(m) == Some(w)
    ensures (forall s, cs, max, n :: Reachable(s, cs, max) && Unambiguous(cs) && m.condition in cs ==>
               GateAsDocumented(s, n, m, w))
            <==> w == RETENTION || EffectiveMax(m) <= 0
  {
    if w == RETENTION || EffectiveMax(m) <= 0 {
      forall s, cs, max, n | Reachable(s, cs, max) && Unambiguous(cs) && m.condition in cs
        ensures GateAsDocumented(s, n, m, w)
      {
        ReachedConsistent(s, cs, max, n, m.condition);
        RightWindow(s, cs, n, m, w);
      }
    } else {
      var s := WrongWindow(m, w);
      assert Unambiguous({m.condition});
    }
  }

  // ------------------------------------------------------------- ambiguous keys

  /** In all runs over the conditions the tracker agrees with the CR if and only
      if no condition ends in a dash and another one. */
  lemma CacheAgreesIff(cs: set<Condition>)
    ensures (forall s, max, n, c :: Reachable(s, cs, max) && c in cs ==> Cached(s, n, c)) <==> Unambiguous(cs)
  {
    if Unambiguous(cs) {
      forall s, max, n, c | Reachable(s, cs, max) && c in cs ensures Cached(s, n, c) {
        ReachedConsistent(s, cs, max, n, c);
      }
    } else {
      var c1, c2 :| c1 in cs && c2 in cs && EndsIn(c1, c2);
      var s := SetupCollision(cs, c1, c2);
      ShadowCollides(NODE, c1, c2);
      assert !Cached(s, Shadow(NODE, c1, c2), c2);
    }
  }

  function TwoRuns(c: Condition): Mapping {
    Mapping(c, 2, Unset)
  }

  /** A first pass has created a workflow for NODE and c1, not yet one for the
      node whose key with c2 is the same. */
  lemma SetupCollision(cs: set<Condition>, c1: Condition, c2: Condition) returns (s: State)
    requires c1 in cs && c2 in cs && EndsIn(c1, c2)
    ensures Reachable(s, cs, 2) && s.phase == InPass({NODE}) && s.clock == 0 && AllPending(s.workflows)
    ensures Lookup(s.tracker, NODE, c1) == [0] && HistoryOf(s, NODE, c1) == [0]
    ensures Registered(s.cr, map[], NODE, TwoRuns(c1), 0)
    ensures ListOf(s.cr, Shadow(NODE, c1, c2), c2) == []
  {
    ReachStart(cs, 2);
    assert Clean(map[], -(RETENTION as int)) == map[];
    assert SyncedFrom(map[], map[]);
    var s1 := ReachBegin(INITIAL, 0, map[], cs, 2);
    s := ReachVisit(s1, NODE, TwoRuns(c1), 0, cs, 2);
    ShadowCollides(NODE, c1, c2);
  }

  /** Every list in the CR has the key of NODE and c1, and the other pair with
      that key has one attempt, at 0: a reload may give that one attempt. */
  ghost predicate ShadowedCR(cr: StatusCR, c1: Condition, c2: Condition) {
    && EndsIn(c1, c2)
    && (forall n, c :: Has(cr, n, c) ==> Key(n, c) == Key(NODE, c1))
    && (var l := ListOf(cr, Shadow(NODE, c1, c2), c2); |l| == 1 && l[0].start == 0)
  }

  ghost predicate Shadowed(s: State, cs: set<Condition>, c1: Condition, c2: Condition, k: nat) {
    && ShadowedCR(s.cr, c1, c2) && c1 in cs && c2 in cs && Reachable(s, cs, 2)
    && s.phase.Idle? && s.clock == 0 && AllPending(s.workflows) && Zeros(HistoryOf(s, NODE, c1), k)
  }

  lemma RegisterBoth(c1: Condition, c2: Condition, a: Attempt, b: Attempt)
    requires EndsIn(c1, c2) && b.start == 0
    ensures ShadowedCR(Register(Register(map[], NODE, c1, a), Shadow(NODE, c1, c2), c2, b), c1, c2)
  {
    var n2, first := Shadow(NODE, c1, c2), Register(map[], NODE, c1, a);
    ShadowCollides(NODE, c1, c2);
    RegisterLookup(map[], NODE, c1, a, n2, c2);
    RegisterLookup(first, n2, c2, b, n2, c2);
    forall n, c | Has(Register(first, n2, c2, b), n, c) ensures Key(n, c) == Key(NODE, c1) {
      assert Has(first, n, c) || (n == n2 && c == c2);
    }
  }

  lemma ShadowPass(cs: set<Condition>, c1: Condition, c2: Condition) returns (s: State)
    requires c1 in cs && c2 in cs && EndsIn(c1, c2)
    ensures Shadowed(s, cs, c1, c2, 1)
  {
    var s1 := SetupCollision(cs, c1, c2);
    var n2, m := Shadow(NODE, c1, c2), TwoRuns(c2);
    ShadowCollides(NODE, c1, c2);
    assert Lookup(s1.tracker, n2, c2) == [0];
    var s2 := ReachVisit(s1, n2, m, 0, cs, 2);
    RegisterBoth(c1, c2, AttemptOf(OpenVisit(NODE, TwoRuns(c1), 0)), AttemptOf(OpenVisit(n2, m, 0)));
    ReachEnd(s2, cs, 2);
    s := s2.(phase := Idle);
  }

  lemma CleanShadowed(cr: StatusCR, c1: Condition, c2: Condition, cutoff: int)
    requires ShadowedCR(cr, c1, c2) && cutoff < 0
    ensures ShadowedCR(Clean(cr, cutoff), c1, c2)
  {
    var n2 := Shadow(NODE, c1, c2);
    CleanKeepsRecent(cr, cutoff, n2, c2);
    SingleKept(ListOf(cr, n2, c2), cutoff);
    CleanOnlyRemoves(cr, cutoff);
  }

  /** When all lists share a key, a reload may keep any one of them. */
  lemma SyncKeepsOne(cr: StatusCR, key: string, n: NodeId, c: Condition)
    requires Has(cr, n, c) && Key(n, c) == key && forall m, d :: Has(cr, m, d) ==> Key(m, d) == key
    ensures SyncedFrom(cr, map[key := Times(cr[n][c])])
  {
    assert HeldUnder(cr, key, Times(cr[n][c]));
  }

  /** The reload of a shadowed CR that keeps the other pair's one attempt. */
  lemma ShadowSync(cr: StatusCR, c1: Condition, c2: Condition) returns (tracker: Tracker)
    requires ShadowedCR(cr, c1, c2)
    ensures SyncedFrom(cr, tracker) && !Violated(tracker, NODE, TwoRuns(c1))
  {
    var n2 := Shadow(NODE, c1, c2);
    ShadowCollides(NODE, c1, c2);
    SyncKeepsOne(cr, Key(NODE, c1), n2, c2);
    tracker := map[Key(NODE, c1) := Times(cr[n2][c2])];
    assert |Lookup(tracker, NODE, c1)| == 1;
  }

  /** Registering for NODE and c1 leaves the CR shadowed. */
  lemma RegisterShadowed(cr: StatusCR, c1: Condition, c2: Condition, t: Instant, cr': StatusCR)
    requires ShadowedCR(cr, c1, c2) && Registered(cr', cr, NODE, TwoRuns(c1), t)
    ensures ShadowedCR(cr', c1, c2)
  {
    var a := AttemptOf(OpenVisit(NODE, TwoRuns(c1), t));
    ShadowCollides(NODE, c1, c2);
    RegisterLookup(cr, NODE, c1, a, Shadow(NODE, c1, c2), c2);
    forall n, c | Has(Register(cr, NODE, c1, a), n, c) ensures Key(n, c) == Key(NODE, c1) {
      assert Has(cr, n, c) || (n == NODE && c == c1);
    }
  }

  lemma ZerosExtend(h: seq<Instant>, k: nat)
    requires Zeros(h, k)
    ensures Zeros(h + [0], k + 1)
  {
  }

  lemma ShadowRound(s: State, cs: set<Condition>, c1: Condition, c2: Condition, k: nat) returns (s': State)
    requires Shadowed(s, cs, c1, c2, k)
    ensures Shadowed(s', cs, c1, c2, k + 1)
  {
    var t := s.clock;
    CleanShadowed(s.cr, c1, c2, t - RETENTION);
    var tracker := ShadowSync(Clean(s.cr, t - RETENTION), c1, c2);
    s' := ReachPass(s, NODE, TwoRuns(c1), t, tracker, cs, 2);
    RegisterShadowed(Clean(s.cr, t - RETENTION), c1, c2, t, s'.cr);
    ZerosExtend(HistoryOf(s, NODE, c1), k);
  }

  /** Three workflows at one instant, under a limit of two. */
  lemma CollisionOverruns(cs: set<Condition>, c1: Condition, c2: Condition) returns (s: State)
    requires c1 in cs && c2 in cs && EndsIn(c1, c2)
    ensures Reachable(s, cs, 2) && !Spaced(ToSeconds(HistoryOf(s, NODE, c1)), 2, RETENTION_SECONDS)
  {
    s := ShadowPass(cs, c1, c2);
    s := ShadowRound(s, cs, c1, c2, 1);
    s := ShadowRound(s, cs, c1, c2, 2);
    var h := HistoryOf(s, NODE, c1);
    SecondsAt(h, 0);
    SecondsAt(h, 2);
  }

  /** In all runs over the conditions, attempts max apart are 72 hours apart by
      their stamps if and only if no condition ends in a dash and another one. */
  lemma RateLimitedIff(cs: set<Condition>)
    ensures (forall s, n, c, max: nat :: Reachable(s, cs, max) && c in cs ==>
               Spaced(ToSeconds(HistoryOf(s, n, c)), max, RETENTION_SECONDS))
            <==> Unambiguous(cs)
  {
    if Unambiguous(cs) {
      forall s, n, c, max: nat | Reachable(s, cs, max) && c in cs
        ensures Spaced(ToSeconds(HistoryOf(s, n, c)), max, RETENTION_SECONDS)
      {
        var run :| && Legal(INITIAL, run) && AllSound(run, cs) && Play(INITIAL, run) == s
                   && forall i :: 0 <= i < |run| ==> Limited(run[i], max);
        InitiallyConsistent(cs, n, c);
        RunKeepsSpacing(INITIAL, cs, run, n, c, max);
      }
    } else {
      var c1, c2 :| c1 in cs && c2 in cs && EndsIn(c1, c2);
      var s := CollisionOverruns(cs, c1, c2);
    }
  }

  // ----------------------------------------------- unparsable windows, fractions

  const FAULT := Condition("Fault")

  /** One run per window, but the window does not parse. */
  const BROKEN := Mapping(FAULT, 1, Unparsable)

  ghost predicate Legally(s: State) {
    exists run :: Legal(INITIAL, run) && Play(INITIAL, run) == s
  }

  lemma LegalNext(s: State, e: Event)
    requires Legally(s) && Enabled(s, e)
    ensures Legally(Step(s, e))
  {
    var run :| Legal(INITIAL, run) && Play(INITIAL, run) == s;
    LegalAppend(INITIAL, run, e);
  }

  /** With a window that does not parse, a limit of one run per window limits
      nothing: any number of workflows can be created at one instant. */
  lemma {:induction false} BrokenWindowUnlimited(k: nat) returns (s: State)
    ensures Legally(s) && Zeros(HistoryOf(s, NODE, FAULT), k)
    ensures s.phase.Idle? && s.clock == 0 && s.cr == map[] && AllPending(s.workflows)
  {
    if k == 0 {
      s := INITIAL;
      assert Legal(INITIAL, []) && Play(INITIAL, []) == s;
    } else {
      var s0 := BrokenWindowUnlimited(k - 1);
      assert Clean(map[], -(RETENTION as int)) == map[];
      assert SyncedFrom(map[], map[]);
      LegalNext(s0, Begin(0, Some(map[])));
      var s1 := Step(s0, Begin(0, Some(map[])));
      var v := OpenVisit(NODE, BROKEN, 0);
      OpenVisitCreates(s1, NODE, BROKEN, 0);
      PendingIgnored(s1.workflows, v);
      LegalNext(s1, Visit(v));
      s := Step(s1, Visit(v));
      assert HistoryOf(s, NODE, FAULT) == HistoryOf(s0, NODE, FAULT) + [0];
    }
  }

  const ONCE := Mapping(FAULT, 1, Unset)

  /** A pass at t that retains no attempt creates a workflow. */
  lemma RunOnce(s: State, t: Instant) returns (s': State)
    requires Reachable(s, {FAULT}, 1) && s.phase.Idle? && s.clock <= t && AllPending(s.workflows)
    requires Clean(s.cr, t - RETENTION) == map[]
    ensures Reachable(s', {FAULT}, 1) && s'.phase.Idle? && s'.clock == t && AllPending(s'.workflows)
    ensures HistoryOf(s', NODE, FAULT) == HistoryOf(s, NODE, FAULT) + [t]
    ensures Registered(s'.cr, map[], NODE, ONCE, t)
  {
    assert SyncedFrom(map[], map[]);
    s' := ReachPass(s, NODE, ONCE, t, map[], {FAULT}, 1);
  }

  lemma ForgottenAtZero(a: Attempt)
    requires a.start == 0
    ensures Clean(Register(map[], NODE, FAULT, a), 0) == map[]
  {
    var cr := Register(map[], NODE, FAULT, a);
    RegisterLookup(map[], NODE, FAULT, a, NODE, FAULT);
    assert [] + [a] == [a];
    assert cr == map[NODE := map[FAULT := [a]]];
    assert [a][..0] == [] && Keep([a], 0) == [];
    assert CleanNode(cr[NODE], 0) == map[];
  }

  /** Recorded times drop the fraction of a second, so an attempt can be forgotten
      just before it is 72 hours old: a run that keeps every assumption of the
      rate limit starts two workflows less than 72 hours apart under a limit of one. */
  lemma TwoWithin72Hours() returns (s: State)
    ensures Reachable(s, {FAULT}, 1)
    ensures var h := HistoryOf(s, NODE, FAULT); |h| == 2 && h[0] <= h[1] < h[0] + RETENTION
  {
    var t := 900_000_000;
    ReachStart({FAULT}, 1);
    assert Clean(map[], t - RETENTION) == map[];
    s := RunOnce(INITIAL, t);
    ForgottenAtZero(AttemptOf(OpenVisit(NODE, ONCE, t)));
    s := RunOnce(s, RETENTION);
  }
}

/** What every run of auto-remediation keeps: the CR agrees with the attempts
    ever made, the tracker agrees with the CR, and workflows of one node and
    condition are rate limited. Each statement is about one pair of a node and a
    condition, for runs whose conditions make tracker keys unambiguous. */
module RemediationSafety {
  import opened Base
  import opened Attempts
  import opened RemediationMachine

  const RETENTION_SECONDS: nat := 72 * 3600

  // -------------------------------------------------------------- agreement

  /** The CR holds the stamps of the attempts after the last cutoff, in order. */
  ghost predicate Agrees(s: State, n: NodeId, c: Condition) {
    Stamps(ListOf(s.cr, n, c)) == KeepStamps(ToSeconds(HistoryOf(s, n, c)), s.cutoff)
  }

  ghost predicate HistoryOk(s: State, n: NodeId, c: Condition) {
    var h := HistoryOf(s, n, c);
    s.cutoff <= s.clock - RETENTION && Sorted(h) && (h != [] ==> h[|h| - 1] <= s.clock)
  }

  ghost predicate IsSuffix(a: seq<nat>, b: seq<nat>) {
    |a| <= |b| && a == b[|b| - |a|..]
  }

  /** During a pass the tracker list of a node not visited yet is the CR's list,
      and the tracker list is always, to the second, a suffix of the CR's. */
  ghost predicate Cached(s: State, n: NodeId, c: Condition) {
    s.phase.InPass? ==>
      && (n !in s.phase.visited ==> Lookup(s.tracker, n, c) == Times(ListOf(s.cr, n, c)))
      && IsSuffix(ToSeconds(Lookup(s.tracker, n, c)), Stamps(ListOf(s.cr, n, c)))
  }

  ghost predicate Consistent(s: State, cs: set<Condition>, n: NodeId, c: Condition) {
    Covers(cs, s.cr) && Agrees(s, n, c) && HistoryOk(s, n, c) && Cached(s, n, c)
  }

  /** The assumptions on a visit: keys are unambiguous, and a created workflow
      gets recorded. */
  predicate Sound(e: Event, cs: set<Condition>) {
    e.Visit? && e.visit.mapping.Some? ==> e.visit.mapping.value.condition in cs && Records(e.visit)
  }

  lemma CleanStaysCovered(cs: set<Condition>, cr: StatusCR, cutoff: int)
    requires Covers(cs, cr)
    ensures Covers(cs, Clean(cr, cutoff))
  {
    CleanOnlyRemoves(cr, cutoff);
  }

  /** What cleaning the CR and reloading the tracker changes. */
  ghost predicate Refreshed(s: State, s': State) {
    && s.cutoff <= s'.cutoff <= s'.clock - RETENTION && s.clock <= s'.clock
    && s'.history == s.history
    && s'.cr == Clean(s.cr, s'.cutoff)
    && (s'.phase.InPass? ==> SyncedFrom(s'.cr, s'.tracker))
  }

  lemma RefreshedIsConsistent(s: State, s': State, cs: set<Condition>, n: NodeId, c: Condition)
    requires Refreshed(s, s') && Consistent(s, cs, n, c) && Unambiguous(cs) && c in cs
    ensures Consistent(s', cs, n, c)
  {
    CleanStaysCovered(cs, s.cr, s'.cutoff);
    CleanKeepsRecent(s.cr, s'.cutoff, n, c);
    KeepIsKeepStamps(ListOf(s.cr, n, c), s'.cutoff);
    KeepStampsTwice(ToSeconds(HistoryOf(s, n, c)), s.cutoff, s'.cutoff);
    if s'.phase.InPass? {
      SyncExact(s'.cr, s'.tracker, cs, n, c);
      SecondsOfTimes(ListOf(s'.cr, n, c));
    }
  }

  lemma BeginRefreshes(s: State, e: Event)
    requires e.Begin? && s.cutoff <= s.clock - RETENTION && Enabled(s, e)
    ensures Refreshed(s, Step(s, e))
  {
  }

  lemma BeginKeepsConsistency(s: State, cs: set<Condition>, e: Event, n: NodeId, c: Condition)
    requires e.Begin? && Consistent(s, cs, n, c) && Unambiguous(cs) && c in cs && Enabled(s, e)
    ensures Consistent(Step(s, e), cs, n, c)
  {
    BeginRefreshes(s, e);
    RefreshedIsConsistent(s, Step(s, e), cs, n, c);
  }

  /** A registered attempt is recent, so it is kept. */
  lemma NewStampKept(h: seq<Instant>, at: Instant, cutoff: int)
    requires cutoff <= at - RETENTION
    ensures KeepStamps(ToSeconds(h + [at]), cutoff) == KeepStamps(ToSeconds(h), cutoff) + [Seconds(at)]
  {
    SecondsBounds(at);
    SecondsAppend(h, at);
    assert (ToSeconds(h) + [Seconds(at)])[..|h|] == ToSeconds(h);
  }

  /** Registering an attempt appends it to the pair's own list, creating missing
      entries, and changes no other list. */
  lemma RegisterLookup(cr: StatusCR, node: NodeId, condition: Condition, a: Attempt, n: NodeId, c: Condition)
    ensures ListOf(Register(cr, node, condition, a), n, c)
            == if n == node && c == condition then ListOf(cr, n, c) + [a] else ListOf(cr, n, c)
  {
  }

  lemma RegisterStaysCovered(cs: set<Condition>, cr: StatusCR, node: NodeId, condition: Condition, a: Attempt)
    requires Covers(cs, cr) && condition in cs
    ensures Covers(cs, Register(cr, node, condition, a))
  {
    forall m, d | Has(Register(cr, node, condition, a), m, d) ensures d in cs {
      assert Has(cr, m, d) || d == condition;
    }
  }

  /** Pruning the tracker list and appending the attempt keeps it a suffix. */
  lemma PruneKeepsSuffix(l: seq<Instant>, stamps: seq<nat>, cutoff: int, at: Instant)
    requires IsSuffix(ToSeconds(l), stamps)
    ensures IsSuffix(ToSeconds(DropOld(l, cutoff) + [at]), stamps + [Seconds(at)])
  {
    var pruned := DropOld(l, cutoff);
    DropOldIsSuffix(l, cutoff);
    SecondsOfSuffix(l, |l| - |pruned|);
    SecondsAppend(pruned, at);
    SuffixOfSuffix(ToSeconds(pruned), ToSeconds(l), stamps);
    SuffixExtends(ToSeconds(pruned), stamps, Seconds(at));
  }

  lemma SuffixOfSuffix(a: seq<nat>, b: seq<nat>, c: seq<nat>)
    requires IsSuffix(a, b) && IsSuffix(b, c)
    ensures IsSuffix(a, c)
  {
  }

  lemma SuffixExtends(a: seq<nat>, b: seq<nat>, x: nat)
    requires IsSuffix(a, b)
    ensures IsSuffix(a + [x], b + [x])
  {
  }

  /** The created workflow's attempt, as the CR stores it. */
  function AttemptOf(v: NodeVisit): Attempt {
    Attempt(WorkflowName(v.node, v.template, v.suffix), Seconds(v.at))
  }

  lemma SortedExtends(h: seq<Instant>, at: Instant)
    requires Sorted(h) && (h != [] ==> h[|h| - 1] <= at)
    ensures Sorted(h + [at])
  {
    forall i | 0 <= i < |h| ensures h[i] <= at {
      assert i < |h| - 1 ==> h[i] <= h[|h| - 1];
    }
  }

  /** What creating a workflow changes for its own pair. */
  lemma CreateEffect(s: State, cs: set<Condition>, v: NodeVisit)
    requires s.phase.InPass? && Creates(s, v)
    requires Covers(cs, s.cr) && v.mapping.value.condition in cs
    ensures var s', n, c := VisitStep(s, v), v.node, v.mapping.value.condition;
            && HistoryOf(s', n, c) == HistoryOf(s, n, c) + [v.at]
            && s'.cutoff == s.cutoff && s'.clock == v.at
            && Covers(cs, s'.cr)
            && (if Records(v)
                then ListOf(s'.cr, n, c) == ListOf(s.cr, n, c) + [AttemptOf(v)]
                else s'.cr == s.cr)
  {
    var c := v.mapping.value.condition;
    RegisterLookup(s.cr, v.node, c, AttemptOf(v), v.node, c);
    RegisterStaysCovered(cs, s.cr, v.node, c, AttemptOf(v));
  }

  lemma TrackerEffect(s: State, v: NodeVisit)
    requires s.phase.InPass? && Creates(s, v) && Records(v)
    ensures var s', n, c := VisitStep(s, v), v.node, v.mapping.value.condition;
            && s'.phase == InPass(s.phase.visited + {n})
            && Lookup(s'.tracker, n, c)
               == DropOld(Lookup(s.tracker, n, c), v.pruneAt - WindowOf(v.mapping.value).value) + [v.at]
  {
  }

  lemma RecordedAgrees(s: State, s': State, n: NodeId, c: Condition, a: Attempt, at: Instant)
    requires Agrees(s, n, c) && s'.cutoff == s.cutoff <= at - RETENTION && a.start == Seconds(at)
    requires ListOf(s'.cr, n, c) == ListOf(s.cr, n, c) + [a]
    requires HistoryOf(s', n, c) == HistoryOf(s, n, c) + [at]
    ensures Agrees(s', n, c)
  {
    StampsAppend(ListOf(s.cr, n, c), a);
    NewStampKept(HistoryOf(s, n, c), at, s.cutoff);
  }

  lemma RecordedIsCached(s: State, s': State, n: NodeId, c: Condition, a: Attempt, at: Instant, cutoff: int)
    requires s.phase.InPass? && Cached(s, n, c) && a.start == Seconds(at)
    requires s'.phase == InPass(s.phase.visited + {n})
    requires ListOf(s'.cr, n, c) == ListOf(s.cr, n, c) + [a]
    requires Lookup(s'.tracker, n, c) == DropOld(Lookup(s.tracker, n, c), cutoff) + [at]
    ensures Cached(s', n, c)
  {
    StampsAppend(ListOf(s.cr, n, c), a);
    PruneKeepsSuffix(Lookup(s.tracker, n, c), Stamps(ListOf(s.cr, n, c)), cutoff, at);
  }

  lemma RecordedHistoryOk(s: State, s': State, n: NodeId, c: Condition, at: Instant)
    requires HistoryOk(s, n, c) && s'.cutoff == s.cutoff && s.clock <= at == s'.clock
    requires HistoryOf(s', n, c) == HistoryOf(s, n, c) + [at]
    ensures HistoryOk(s', n, c)
  {
    SortedExtends(HistoryOf(s, n, c), at);
  }

  lemma CreateKeepsOwnPair(s: State, cs: set<Condition>, v: NodeVisit)
    requires v.mapping.Some? && Consistent(s, cs, v.node, v.mapping.value.condition)
    requires Enabled(s, Visit(v)) && Sound(Visit(v), cs) && Creates(s, v)
    ensures Consistent(VisitStep(s, v), cs, v.node, v.mapping.value.condition)
  {
    var s', n, c := VisitStep(s, v), v.node, v.mapping.value.condition;
    CreateEffect(s, cs, v);
    RecordedHistoryOk(s, s', n, c, v.at);
    RecordedAgrees(s, s', n, c, AttemptOf(v), v.at);
    TrackerEffect(s, v);
    RecordedIsCached(s, s', n, c, AttemptOf(v), v.at, v.pruneAt - WindowOf(v.mapping.value).value);
  }

  lemma OtherKey(cs: set<Condition>, n: NodeId, c: Condition, n': NodeId, c': Condition)
    requires Unambiguous(cs) && c in cs && c' in cs && (n != n' || c != c')
    ensures Key(n, c) != Key(n', c')
  {
    if Key(n, c) == Key(n', c') {
      KeyInjective(n, c, n', c');
    }
  }

  /** The step leaves everything recorded for the pair alone. */
  ghost predicate SparesPair(s: State, s': State, n: NodeId, c: Condition) {
    && s.phase.InPass? && s'.phase.InPass? && s.phase.visited <= s'.phase.visited
    && s'.cutoff == s.cutoff && s.clock <= s'.clock
    && HistoryOf(s', n, c) == HistoryOf(s, n, c)
    && ListOf(s'.cr, n, c) == ListOf(s.cr, n, c)
    && Lookup(s'.tracker, n, c) == Lookup(s.tracker, n, c)
  }

  lemma SparedIsConsistent(s: State, s': State, cs: set<Condition>, n: NodeId, c: Condition)
    requires SparesPair(s, s', n, c) && Consistent(s, cs, n, c) && Covers(cs, s'.cr)
    ensures Consistent(s', cs, n, c)
  {
  }

  lemma CreateSparesOtherPair(s: State, cs: set<Condition>, v: NodeVisit, n: NodeId, c: Condition)
    requires v.mapping.Some? && (n != v.node || c != v.mapping.value.condition)
    requires Unambiguous(cs) && c in cs
    requires Enabled(s, Visit(v)) && Sound(Visit(v), cs) && Creates(s, v)
    ensures SparesPair(s, VisitStep(s, v), n, c)
  {
    RegisterLookup(s.cr, v.node, v.mapping.value.condition, AttemptOf(v), n, c);
    OtherKey(cs, n, c, v.node, v.mapping.value.condition);
    assert Pair(n, c) != Pair(v.node, v.mapping.value.condition);
  }

  lemma CreateKeepsOtherPair(s: State, cs: set<Condition>, v: NodeVisit, n: NodeId, c: Condition)
    requires v.mapping.Some? && (n != v.node || c != v.mapping.value.condition)
    requires Consistent(s, cs, n, c) && Unambiguous(cs) && c in cs
    requires Enabled(s, Visit(v)) && Sound(Visit(v), cs) && Creates(s, v)
    ensures Consistent(VisitStep(s, v), cs, n, c)
  {
    CreateSparesOtherPair(s, cs, v, n, c);
    CreateEffect(s, cs, v);
    SparedIsConsistent(s, VisitStep(s, v), cs, n, c);
  }

  lemma CreateKeepsConsistency(s: State, cs: set<Condition>, v: NodeVisit, n: NodeId, c: Condition)
    requires Consistent(s, cs, n, c) && Unambiguous(cs) && c in cs
    requires Enabled(s, Visit(v)) && Sound(Visit(v), cs) && Creates(s, v)
    ensures Consistent(VisitStep(s, v), cs, n, c)
  {
    if n == v.node && c == v.mapping.value.condition {
      CreateKeepsOwnPair(s, cs, v);
    } else {
      CreateKeepsOtherPair(s, cs, v, n, c);
    }
  }

  lemma OtherVisitSparesPair(s: State, v: NodeVisit, n: NodeId, c: Condition)
    requires Enabled(s, Visit(v)) && !Creates(s, v)
    ensures SparesPair(s, VisitStep(s, v), n, c) && VisitStep(s, v).cr == s.cr
  {
  }

  lemma VisitKeepsConsistency(s: State, cs: set<Condition>, e: Event, n: NodeId, c: Condition)
    requires e.Visit? && Consistent(s, cs, n, c) && Unambiguous(cs) && c in cs && Enabled(s, e) && Sound(e, cs)
    ensures Consistent(Step(s, e), cs, n, c)
  {
    if Creates(s, e.visit) {
      CreateKeepsConsistency(s, cs, e.visit, n, c);
    } else {
      OtherVisitSparesPair(s, e.visit, n, c);
      SparedIsConsistent(s, VisitStep(s, e.visit), cs, n, c);
    }
  }

  /** The step keeps every record, or ends the pass and keeps them. */
  ghost predicate KeepsRecords(s: State, s': State) {
    && s'.cr == s.cr && s'.tracker == s.tracker && s'.history == s.history
    && s'.cutoff == s.cutoff && s'.clock == s.clock
    && (s'.phase == s.phase || s'.phase.Idle?)
  }

  lemma QuietKeepsRecords(s: State, e: Event)
    requires (e.End? || e.Argo?) && Enabled(s, e)
    ensures KeepsRecords(s, Step(s, e))
  {
  }

  lemma RecordsStayConsistent(s: State, s': State, cs: set<Condition>, n: NodeId, c: Condition)
    requires KeepsRecords(s, s') && Consistent(s, cs, n, c)
    ensures Consistent(s', cs, n, c)
  {
    assert HistoryOf(s', n, c) == HistoryOf(s, n, c);
  }

  /** Ending a pass and Argo's moves touch neither the CR nor the tracker. */
  lemma QuietKeepsConsistency(s: State, cs: set<Condition>, e: Event, n: NodeId, c: Condition)
    requires (e.End? || e.Argo?) && Consistent(s, cs, n, c) && Enabled(s, e)
    ensures Consistent(Step(s, e), cs, n, c)
  {
    QuietKeepsRecords(s, e);
    RecordsStayConsistent(s, Step(s, e), cs, n, c);
  }

  lemma StepKeepsConsistency(s: State, cs: set<Condition>, e: Event, n: NodeId, c: Condition)
    requires Consistent(s, cs, n, c) && Unambiguous(cs) && c in cs && Enabled(s, e) && Sound(e, cs)
    ensures Consistent(Step(s, e), cs, n, c)
  {
    match e
    case Begin(_, _) => BeginKeepsConsistency(s, cs, e, n, c);
    case Visit(_) => VisitKeepsConsistency(s, cs, e, n, c);
    case _ => QuietKeepsConsistency(s, cs, e, n, c);
  }

  predicate AllSound(run: seq<Event>, cs: set<Condition>) {
    run == [] || (Sound(run[0], cs) && AllSound(run[1..], cs))
  }

  lemma InitiallyConsistent(cs: set<Condition>, n: NodeId, c: Condition)
    ensures Consistent(INITIAL, cs, n, c)
  {
    assert HistoryOf(INITIAL, n, c) == [] && ListOf(INITIAL.cr, n, c) == [];
  }

  lemma {:induction false} RunKeepsConsistency(s: State, cs: set<Condition>, run: seq<Event>, n: NodeId, c: Condition)
    requires Consistent(s, cs, n, c) && Unambiguous(cs) && c in cs && Legal(s, run) && AllSound(run, cs)
    ensures Consistent(Play(s, run), cs, n, c)
    decreases |run|
  {
    if run != [] {
      StepKeepsConsistency(s, cs, run[0], n, c);
      RunKeepsConsistency(Step(s, run[0]), cs, run[1..], n, c);
    }
  }

  /** Cache agreement over whole runs: the CR retains exactly the attempts after
      the last cutoff, and within a pass the tracker list is a suffix of the
      CR's, equal to it until the node is visited. */
  lemma CacheAgrees(run: seq<Event>, cs: set<Condition>, n: NodeId, c: Condition)
    requires Legal(INITIAL, run) && AllSound(run, cs) && Unambiguous(cs) && c in cs
    ensures var s := Play(INITIAL, run); Agrees(s, n, c) && Cached(s, n, c)
  {
    InitiallyConsistent(cs, n, c);
    RunKeepsConsistency(INITIAL, cs, run, n, c);
  }

  lemma RetainedCount(s: State, cs: set<Condition>, n: NodeId, c: Condition)
    requires Consistent(s, cs, n, c) && s.phase.InPass? && n !in s.phase.visited
    ensures |Lookup(s.tracker, n, c)| == |KeepStamps(ToSeconds(HistoryOf(s, n, c)), s.cutoff)|
  {
    var l := ListOf(s.cr, n, c);
    assert Lookup(s.tracker, n, c) == Times(l);
    assert |Times(l)| == |l| == |Stamps(l)|;
  }

  /** The gate looks at the 72 hours before the pass, whatever windowSize says. */
  lemma GateCountsRetained(s: State, cs: set<Condition>, n: NodeId, m: Mapping)
    requires Consistent(s, cs, n, m.condition) && s.phase.InPass? && n !in s.phase.visited
    ensures Violated(s.tracker, n, m)
            <==> |KeepStamps(ToSeconds(HistoryOf(s, n, m.condition)), s.cutoff)|
                 >= (if m.maxRuns == 0 then 3 else m.maxRuns)
  {
    RetainedCount(s, cs, n, m.condition);
  }

  /** A workflow that is created stays visible to the limiter exactly when its
      window parses and the CR write succeeds. */
  lemma AttemptCountsIffRecorded(s: State, cs: set<Condition>, v: NodeVisit)
    requires v.mapping.Some? && v.mapping.value.condition in cs
    requires Consistent(s, cs, v.node, v.mapping.value.condition) && Enabled(s, Visit(v)) && Creates(s, v)
    ensures Agrees(VisitStep(s, v), v.node, v.mapping.value.condition) <==> Records(v)
  {
    var s', n, c := VisitStep(s, v), v.node, v.mapping.value.condition;
    if Records(v) {
      CreateKeepsOwnPair(s, cs, v);
    } else {
      CreateEffect(s, cs, v);
      NewStampKept(HistoryOf(s, n, c), v.at, s.cutoff);
      assert |KeepStamps(ToSeconds(HistoryOf(s', n, c)), s'.cutoff)| == |Stamps(ListOf(s'.cr, n, c))| + 1;
    }
  }

  // ------------------------------------------------------------- rate limit

  /** An attempt comes at least width after every attempt max or more before it. */
  ghost predicate Spaced(l: seq<nat>, max: nat, width: nat) {
    forall i, j :: 0 <= i && i + max <= j < |l| ==> l[j] - l[i] >= width
  }

  /** No policy ever in force for the pair allows more than max runs. */
  predicate LimitedTo(e: Event, n: NodeId, c: Condition, max: nat) {
    e.Visit? && e.visit.node == n && e.visit.mapping.Some? && e.visit.mapping.value.condition == c ==>
      EffectiveMax(e.visit.mapping.value) <= max
  }

  lemma SecondsSorted(h: seq<Instant>)
    requires Sorted(h)
    ensures Sorted(ToSeconds(h))
  {
    forall i, j | 0 <= i < j < |h| ensures ToSeconds(h)[i] <= ToSeconds(h)[j] {
      SecondsAt(h, i);
      SecondsAt(h, j);
      SecondsMonotone(h[i], h[j]);
    }
  }

  lemma FarApart(stamp: nat, at: Instant)
    requires stamp * SECOND <= at - RETENTION
    ensures Seconds(at) - stamp >= RETENTION_SECONDS
  {
    SecondsBounds(at);
  }

  lemma SpacedExtends(l: seq<nat>, x: nat, max: nat, width: nat)
    requires Sorted(l) && Spaced(l, max, width)
    requires 0 < max <= |l| ==> x - l[|l| - max] >= width
    requires 0 < max
    ensures Spaced(l + [x], max, width)
  {
    var l' := l + [x];
    forall i, j | 0 <= i && i + max <= j < |l'| ensures l'[j] - l'[i] >= width {
      if j == |l| {
        assert i == |l| - max || l[i] <= l[|l| - max];
      }
    }
  }

  /** With fewer than max recent attempts, the one max back is 72 hours old. */
  lemma MaxBackIsFar(stamps: seq<nat>, cutoff: int, at: Instant, max: nat)
    requires Sorted(stamps) && |KeepStamps(stamps, cutoff)| < max <= |stamps| && cutoff <= at - RETENTION
    ensures Seconds(at) - stamps[|stamps| - max] >= RETENTION_SECONDS
  {
    FewRecent(stamps, cutoff, max);
    FarApart(stamps[|stamps| - max], at);
  }

  /** Fewer than max recent attempts leave room for one more. */
  lemma RoomForOneMore(h: seq<Instant>, cutoff: int, at: Instant, max: nat)
    requires Sorted(h) && |KeepStamps(ToSeconds(h), cutoff)| < max && cutoff <= at - RETENTION
    requires Spaced(ToSeconds(h), max, RETENTION_SECONDS)
    ensures Spaced(ToSeconds(h + [at]), max, RETENTION_SECONDS)
  {
    SecondsSorted(h);
    SecondsAppend(h, at);
    var stamps := ToSeconds(h);
    if max <= |stamps| {
      MaxBackIsFar(stamps, cutoff, at, max);
    }
    SpacedExtends(stamps, Seconds(at), max, RETENTION_SECONDS);
  }

  predicate StartsPair(s: State, e: Event, n: NodeId, c: Condition) {
    e.Visit? && Creates(s, e.visit) && e.visit.node == n && e.visit.mapping.value.condition == c
  }

  /** Only a created workflow changes a pair's history. */
  lemma HistoryStays(s: State, e: Event, n: NodeId, c: Condition)
    requires Enabled(s, e) && !StartsPair(s, e, n, c)
    ensures HistoryOf(Step(s, e), n, c) == HistoryOf(s, n, c)
  {
    if e.Visit? && Creates(s, e.visit) {
      assert Pair(n, c) != Pair(e.visit.node, e.visit.mapping.value.condition);
    }
  }

  lemma StepKeepsSpacing(s: State, cs: set<Condition>, e: Event, n: NodeId, c: Condition, max: nat)
    requires Consistent(s, cs, n, c) && Unambiguous(cs) && c in cs && Enabled(s, e) && LimitedTo(e, n, c, max)
    requires Spaced(ToSeconds(HistoryOf(s, n, c)), max, RETENTION_SECONDS)
    ensures Spaced(ToSeconds(HistoryOf(Step(s, e), n, c)), max, RETENTION_SECONDS)
  {
    if StartsPair(s, e, n, c) {
      GateCountsRetained(s, cs, n, e.visit.mapping.value);
      RoomForOneMore(HistoryOf(s, n, c), s.cutoff, e.visit.at, max);
      CreateEffect(s, cs, e.visit);
    } else {
      HistoryStays(s, e, n, c);
    }
  }

  lemma {:induction false} RunKeepsSpacing(s: State, cs: set<Condition>, run: seq<Event>,
                                           n: NodeId, c: Condition, max: nat)
    requires Consistent(s, cs, n, c) && Unambiguous(cs) && c in cs && Legal(s, run) && AllSound(run, cs)
    requires forall i :: 0 <= i < |run| ==> LimitedTo(run[i], n, c, max)
    requires Spaced(ToSeconds(HistoryOf(s, n, c)), max, RETENTION_SECONDS)
    ensures Spaced(ToSeconds(HistoryOf(Play(s, run), n, c)), max, RETENTION_SECONDS)
    decreases |run|
  {
    if run != [] {
      StepKeepsConsistency(s, cs, run[0], n, c);
      StepKeepsSpacing(s, cs, run[0], n, c, max);
      RunKeepsSpacing(Step(s, run[0]), cs, run[1..], n, c, max);
    }
  }

  /** How many entries of l lie in the span of the given width that ends at hi: (hi - width, hi]. */
  function InSpan(l: seq<nat>, width: nat, hi: int): nat {
    if l == [] then 0
    else InSpan(l[..|l| - 1], width, hi) + if hi - width < l[|l| - 1] <= hi then 1 else 0
  }

  lemma {:induction false} InSpanSkips(l: seq<nat>, width: nat, hi: int, k: nat)
    requires k <= |l| && forall i :: 0 <= i < k ==> !(hi - width < l[i] <= hi)
    ensures InSpan(l, width, hi) <= |l| - k
  {
    if k < |l| {
      InSpanSkips(l[..|l| - 1], width, hi, k);
    } else if l != [] {
      InSpanSkips(l[..|l| - 1], width, hi, k - 1);
    }
  }

  /** Entries max apart that are at least width apart: at most max in any span of that width. */
  lemma {:induction false} SpacedSpan(l: seq<nat>, max: nat, width: nat, hi: int)
    requires Sorted(l) && Spaced(l, max, width)
    ensures InSpan(l, width, hi) <= max
  {
    if l != [] {
      var last := |l| - 1;
      if hi - width < l[last] <= hi {
        var k := if max <= last then last - max + 1 else 0;
        assert max <= last ==> l[last] - l[last - max] >= width;
        InSpanSkips(l, width, hi, k);
      } else {
        SpacedSpan(l[..last], max, width, hi);
      }
    }
  }

  lemma SpacedAt(l: seq<nat>, max: nat, width: nat, i: nat, j: nat)
    requires Spaced(l, max, width) && i + max <= j < |l|
    ensures l[j] - l[i] >= width
  {
  }

  lemma StampsApart(h: seq<Instant>, max: nat, i: nat, j: nat)
    requires Spaced(ToSeconds(h), max, RETENTION_SECONDS) && i + max <= j < |h|
    ensures Seconds(h[j]) - Seconds(h[i]) >= RETENTION_SECONDS
  {
    SpacedAt(ToSeconds(h), max, RETENTION_SECONDS, i, j);
    SecondsAt(h, i);
    SecondsAt(h, j);
  }

  /** Start times 72 hours apart to the second are less than one second short of
      72 hours apart. */
  lemma InstantsSpaced(h: seq<Instant>, max: nat)
    requires Spaced(ToSeconds(h), max, RETENTION_SECONDS)
    ensures Spaced(h, max, RETENTION - SECOND)
  {
    forall i, j | 0 <= i && i + max <= j < |h| ensures h[j] - h[i] >= RETENTION - SECOND {
      StampsApart(h, max, i, j);
      SecondsBounds(h[i]);
      SecondsBounds(h[j]);
    }
  }

  /** The rate limit over whole runs: of the start times the operator records
      for a node and condition, at most max fall into any 72 hours; of the true
      start instants, at most max fall into any 72 hours less one second. */
  lemma RateLimited(run: seq<Event>, cs: set<Condition>, n: NodeId, c: Condition, max: nat, t: int)
    requires Legal(INITIAL, run) && AllSound(run, cs) && Unambiguous(cs) && c in cs
    requires forall i :: 0 <= i < |run| ==> LimitedTo(run[i], n, c, max)
    ensures var h := HistoryOf(Play(INITIAL, run), n, c);
            && InSpan(ToSeconds(h), RETENTION_SECONDS, t) <= max
            && InSpan(h, RETENTION - SECOND, t) <= max
  {
    InitiallyConsistent(cs, n, c);
    RunKeepsConsistency(INITIAL, cs, run, n, c);
    RunKeepsSpacing(INITIAL, cs, run, n, c, max);
    var h := HistoryOf(Play(INITIAL, run), n, c);
    SecondsSorted(h);
    SpacedSpan(ToSeconds(h), max, RETENTION_SECONDS, t);
    InstantsSpaced(h, max);
    SpacedSpan(h, max, RETENTION - SECOND, t);
  }

  /** Every policy in force for the pair asks for this many runs. */
  predicate AsksFor(e: Event, n: NodeId, c: Condition, maxRuns: int) {
    e.Visit? && e.visit.node == n && e.visit.mapping.Some? && e.visit.mapping.value.condition == c ==>
      e.visit.mapping.value.maxRuns == maxRuns
  }

  /** The rate limit on the policy itself: at most maxRuns recorded start times in
      any 72 hours, three when the policy does not say, none when it is negative. */
  lemma PolicyLimits(run: seq<Event>, cs: set<Condition>, n: NodeId, c: Condition, maxRuns: int, t: int)
    requires Legal(INITIAL, run) && AllSound(run, cs) && Unambiguous(cs) && c in cs
    requires forall i :: 0 <= i < |run| ==> AsksFor(run[i], n, c, maxRuns)
    ensures var count := InSpan(ToSeconds(HistoryOf(Play(INITIAL, run), n, c)), 259_200, t);
            count == 0 || count <= if maxRuns == 0 then 3 else maxRuns
  {
    var max := if maxRuns == 0 then 3 else if maxRuns < 0 then 0 else maxRuns;
    assert forall i :: 0 <= i < |run| ==> AsksFor(run[i], n, c, maxRuns) ==> LimitedTo(run[i], n, c, max);
    RateLimited(run, cs, n, c, max, t);
  }

  /** Instants whose stamps are 72 hours apart are themselves 72 hours apart
      exactly when the stamps are further apart still, or the later instant is
      not less far into its second. */
  predicate FullyApart(t: Instant, u: Instant) {
    Seconds(u) - Seconds(t) > RETENTION_SECONDS || u % SECOND >= t % SECOND
  }

  lemma ApartIff(t: Instant, u: Instant)
    requires Seconds(u) - Seconds(t) >= RETENTION_SECONDS
    ensures u - t >= RETENTION <==> FullyApart(t, u)
  {
    assert t == Seconds(t) * SECOND + t % SECOND;
    assert u == Seconds(u) * SECOND + u % SECOND;
  }

  lemma PairApartIff(h: seq<Instant>, max: nat, i: nat, j: nat)
    requires Spaced(ToSeconds(h), max, RETENTION_SECONDS) && i + max <= j < |h|
    ensures h[j] - h[i] >= RETENTION <==> FullyApart(h[i], h[j])
  {
    var t, u := h[i], h[j];
    StampsApart(h, max, i, j);
    ApartIff(t, u);
  }

  ghost predicate AllFullyApart(h: seq<Instant>, max: nat) {
    forall i, j :: 0 <= i && i + max <= j < |h| ==> FullyApart(h[i], h[j])
  }

  lemma FullySpacedIff(h: seq<Instant>, max: nat)
    requires Spaced(ToSeconds(h), max, RETENTION_SECONDS)
    ensures Spaced(h, max, RETENTION) <==> AllFullyApart(h, max)
  {
    if Spaced(h, max, RETENTION) {
      forall i, j | 0 <= i && i + max <= j < |h| ensures FullyApart(h[i], h[j]) {
        PairApartIff(h, max, i, j);
      }
    }
    if AllFullyApart(h, max) {
      forall i, j | 0 <= i && i + max <= j < |h| ensures h[j] - h[i] >= RETENTION {
        PairApartIff(h, max, i, j);
      }
    }
  }

  lemma {:induction false} InSpanCounts(l: seq<nat>, width: nat, hi: int, i: nat, j: nat)
    requires i <= j < |l| && forall k :: i <= k <= j ==> hi - width < l[k] <= hi
    ensures InSpan(l, width, hi) >= j - i + 1
  {
    var front := l[..|l| - 1];
    if j < |front| {
      InSpanCounts(front, width, hi, i, j);
    } else if i < j {
      InSpanCounts(front, width, hi, i, j - 1);
    }
  }

  /** Spacing is exactly what bounds every span. */
  lemma SpansBoundedIff(l: seq<nat>, max: nat, width: nat)
    requires Sorted(l) && width > 0
    ensures (forall t :: InSpan(l, width, t) <= max) <==> Spaced(l, max, width)
  {
    if Spaced(l, max, width) {
      forall t ensures InSpan(l, width, t) <= max {
        SpacedSpan(l, max, width, t);
      }
    } else {
      var i, j :| 0 <= i && i + max <= j < |l| && l[j] - l[i] < width;
      assert forall k :: i <= k <= j ==> l[i] <= l[k] <= l[j];
      InSpanCounts(l, width, l[j], i, j);
    }
  }

  /** The 72-hour limit on true start instants, exactly: in every run no 72 hours
      hold more than max of them if and only if every two that are max apart in
      the list are FullyApart. */
  lemma FullRateLimitIff(run: seq<Event>, cs: set<Condition>, n: NodeId, c: Condition, max: nat)
    requires Legal(INITIAL, run) && AllSound(run, cs) && Unambiguous(cs) && c in cs
    requires forall i :: 0 <= i < |run| ==> LimitedTo(run[i], n, c, max)
    ensures var h := HistoryOf(Play(INITIAL, run), n, c);
            (forall t :: InSpan(h, RETENTION, t) <= max) <==> AllFullyApart(h, max)
  {
    InitiallyConsistent(cs, n, c);
    RunKeepsConsistency(INITIAL, cs, run, n, c);
    RunKeepsSpacing(INITIAL, cs, run, n, c, max);
    var h := HistoryOf(Play(INITIAL, run), n, c);
    FullySpacedIff(h, max);
    SpansBoundedIff(h, max, RETENTION);
  }
}

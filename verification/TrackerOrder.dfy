/** Every attempt list stays sorted, through registering, reloading and pruning;
    so in every run the tracker's prune, which stops at the first recent attempt,
    is the filter it stands for. */
module TrackerOrder {
  import opened Base
  import opened Attempts
  import opened RemediationMachine
  import opened RemediationSafety

  ghost predicate SortedUpTo(l: seq<nat>, bound: nat) {
    Sorted(l) && forall i :: 0 <= i < |l| ==> l[i] <= bound
  }

  /** During a pass the tracker list of the pair is sorted and not in the future. */
  ghost predicate Ordered(s: State, n: NodeId, c: Condition) {
    s.phase.InPass? ==> SortedUpTo(Lookup(s.tracker, n, c), s.clock)
  }

  lemma {:induction false} KeepStampsSorted(l: seq<nat>, cutoff: int, bound: nat)
    requires SortedUpTo(l, bound)
    ensures SortedUpTo(KeepStamps(l, cutoff), if l == [] then bound else l[|l| - 1])
  {
    if l != [] {
      var front := l[..|l| - 1];
      KeepStampsSorted(front, cutoff, bound);
      assert front != [] ==> front[|front| - 1] <= l[|l| - 1];
    }
  }

  lemma SortedBelowLast(h: seq<Instant>, i: nat)
    requires Sorted(h) && i < |h|
    ensures h[i] <= h[|h| - 1]
  {
  }

  lemma StampBelow(h: seq<Instant>, i: nat, clock: Instant)
    requires i < |h| && h[i] <= clock
    ensures ToSeconds(h)[i] <= Seconds(clock)
  {
    SecondsAt(h, i);
    SecondsMonotone(h[i], clock);
  }

  lemma HistoryStamps(h: seq<Instant>, clock: Instant)
    requires Sorted(h) && (h != [] ==> h[|h| - 1] <= clock)
    ensures SortedUpTo(ToSeconds(h), Seconds(clock))
  {
    SecondsSorted(h);
    forall i | 0 <= i < |ToSeconds(h)| ensures ToSeconds(h)[i] <= Seconds(clock) {
      SortedBelowLast(h, i);
      StampBelow(h, i, clock);
    }
  }

  lemma TimesSorted(l: seq<Attempt>, clock: Instant)
    requires SortedUpTo(Stamps(l), Seconds(clock))
    ensures SortedUpTo(Times(l), clock)
  {
    SecondsBounds(clock);
    forall i | 0 <= i < |l| ensures Times(l)[i] == Stamps(l)[i] * SECOND {
      StampAt(l, i);
    }
  }

  /** The CR's lists are sorted, and so is a tracker list just loaded from them. */
  lemma RetainedSorted(s: State, cs: set<Condition>, n: NodeId, c: Condition)
    requires Consistent(s, cs, n, c)
    ensures SortedUpTo(Stamps(ListOf(s.cr, n, c)), Seconds(s.clock))
    ensures s.phase.InPass? && n !in s.phase.visited ==> Ordered(s, n, c)
  {
    var h := HistoryOf(s, n, c);
    HistoryStamps(h, s.clock);
    KeepStampsSorted(ToSeconds(h), s.cutoff, Seconds(s.clock));
    TimesSorted(ListOf(s.cr, n, c), s.clock);
  }

  lemma PruneKeepsOrder(l: seq<Instant>, clock: Instant, cutoff: int, at: Instant)
    requires SortedUpTo(l, clock) && clock <= at
    ensures SortedUpTo(DropOld(l, cutoff) + [at], at)
  {
    DropOldIsSuffix(l, cutoff);
  }

  lemma VisitKeepsOrder(s: State, cs: set<Condition>, v: NodeVisit, n: NodeId, c: Condition)
    requires Ordered(s, n, c) && Unambiguous(cs) && c in cs && Enabled(s, Visit(v)) && Sound(Visit(v), cs)
    ensures Ordered(VisitStep(s, v), n, c)
  {
    if Creates(s, v) {
      var m := v.mapping.value;
      if n == v.node && c == m.condition {
        TrackerEffect(s, v);
        PruneKeepsOrder(Lookup(s.tracker, n, c), s.clock, v.pruneAt - WindowOf(m).value, v.at);
      } else {
        OtherKey(cs, n, c, v.node, m.condition);
      }
    }
  }

  lemma StepKeepsOrder(s: State, cs: set<Condition>, e: Event, n: NodeId, c: Condition)
    requires Consistent(s, cs, n, c) && Ordered(s, n, c) && Unambiguous(cs) && c in cs && Enabled(s, e) && Sound(e, cs)
    ensures Ordered(Step(s, e), n, c)
  {
    match e
    case Begin(now, synced) =>
      StepKeepsConsistency(s, cs, e, n, c);
      RetainedSorted(Step(s, e), cs, n, c);
    case Visit(v) => VisitKeepsOrder(s, cs, v, n, c);
    case _ =>
  }

  lemma {:induction false} RunKeepsOrder(s: State, cs: set<Condition>, run: seq<Event>, n: NodeId, c: Condition)
    requires Consistent(s, cs, n, c) && Ordered(s, n, c) && Unambiguous(cs) && c in cs
    requires Legal(s, run) && AllSound(run, cs)
    ensures Ordered(Play(s, run), n, c)
    decreases |run|
  {
    if run != [] {
      StepKeepsConsistency(s, cs, run[0], n, c);
      StepKeepsOrder(s, cs, run[0], n, c);
      RunKeepsOrder(Step(s, run[0]), cs, run[1..], n, c);
    }
  }

  /** In every run the CR's list and, during a pass, the tracker's list are
      sorted, and pruning the tracker at any cutoff is filtering it. */
  lemma PruneIsFilterInRuns(run: seq<Event>, cs: set<Condition>, n: NodeId, c: Condition, cutoff: int)
    requires Legal(INITIAL, run) && AllSound(run, cs) && Unambiguous(cs) && c in cs
    ensures var s := Play(INITIAL, run);
            && Sorted(Stamps(ListOf(s.cr, n, c)))
            && (s.phase.InPass? ==>
                  && Sorted(Lookup(s.tracker, n, c))
                  && DropOld(Lookup(s.tracker, n, c), cutoff) == KeepTimes(Lookup(s.tracker, n, c), cutoff))
  {
    InitiallyConsistent(cs, n, c);
    RunKeepsConsistency(INITIAL, cs, run, n, c);
    RunKeepsOrder(INITIAL, cs, run, n, c);
    var s := Play(INITIAL, run);
    RetainedSorted(s, cs, n, c);
    if s.phase.InPass? {
      DropOldIsFilter(Lookup(s.tracker, n, c), cutoff);
    }
  }

  /** A recorded workflow leaves in the tracker exactly the attempts of the policy's
      window, five hours when it names none, and itself. */
  lemma WindowPruned(run: seq<Event>, cs: set<Condition>, v: NodeVisit)
    requires Legal(INITIAL, run) && AllSound(run, cs) && Unambiguous(cs)
    requires Enabled(Play(INITIAL, run), Visit(v)) && Creates(Play(INITIAL, run), v) && Records(v)
    requires v.mapping.value.condition in cs
    ensures var s, n, m := Play(INITIAL, run), v.node, v.mapping.value;
            var window := if m.window == Unset then 18_000_000_000_000 else m.window.ns;
            Lookup(VisitStep(s, v).tracker, n, m.condition)
            == KeepTimes(Lookup(s.tracker, n, m.condition), v.pruneAt - window) + [v.at]
  {
    var s, m := Play(INITIAL, run), v.mapping.value;
    PruneIsFilterInRuns(run, cs, v.node, m.condition, v.pruneAt - WindowOf(m).value);
    TrackerEffect(s, v);
  }
}

/** Lists of recovery attempts: what the remediation status CR retains, what the
    in-memory tracker holds, and the two ways in which old attempts are dropped. */
module Attempts {
  import opened Base

  /** One entry of the status CR; the start time has whole seconds. */
  datatype Attempt = Attempt(workflow: string, start: nat)

  /** A node condition type, such as the ones node-problem detection sets. */
  datatype Condition = Condition(text: string)

  type Conditions = map<Condition, seq<Attempt>>
  type StatusCR = map<NodeId, Conditions>
  type Tracker = map<string, seq<Instant>>

  /** Attempts are kept in the CR for 72 hours. */
  const RETENTION: nat := 72 * HOUR

  predicate Recent(t: int, cutoff: int) {
    t > cutoff
  }

  // ------------------------------------------------------------- filtering

  function Keep(l: seq<Attempt>, cutoff: int): seq<Attempt> {
    if l == [] then [] else
    var last := l[|l| - 1];
    Keep(l[..|l| - 1], cutoff) + if Recent(last.start * SECOND, cutoff) then [last] else []
  }

  function Stamps(l: seq<Attempt>): (r: seq<nat>)
    ensures |r| == |l|
  {
    if l == [] then [] else Stamps(l[..|l| - 1]) + [l[|l| - 1].start]
  }

  function ToSeconds(l: seq<Instant>): (r: seq<nat>)
    ensures |r| == |l|
  {
    if l == [] then [] else ToSeconds(l[..|l| - 1]) + [Seconds(l[|l| - 1])]
  }

  /** Parsing a stamp gives the instant at which that second begins. */
  function Times(l: seq<Attempt>): (r: seq<Instant>)
    ensures |r| == |l|
  {
    if l == [] then [] else Times(l[..|l| - 1]) + [l[|l| - 1].start * SECOND]
  }

  lemma StampsAppend(l: seq<Attempt>, a: Attempt)
    ensures Stamps(l + [a]) == Stamps(l) + [a.start]
  {
    assert (l + [a])[..|l|] == l;
  }

  lemma SecondsAppend(l: seq<Instant>, t: Instant)
    ensures ToSeconds(l + [t]) == ToSeconds(l) + [Seconds(t)]
  {
    assert (l + [t])[..|l|] == l;
  }

  lemma {:induction false} StampAt(l: seq<Attempt>, i: nat)
    requires i < |l|
    ensures Stamps(l)[i] == l[i].start && Times(l)[i] == l[i].start * SECOND
  {
    if i < |l| - 1 {
      StampAt(l[..|l| - 1], i);
    }
  }

  lemma {:induction false} SecondsAt(l: seq<Instant>, i: nat)
    requires i < |l|
    ensures ToSeconds(l)[i] == Seconds(l[i])
  {
    if i < |l| - 1 {
      SecondsAt(l[..|l| - 1], i);
    }
  }

  lemma {:induction false} SecondsOfTimes(l: seq<Attempt>)
    ensures ToSeconds(Times(l)) == Stamps(l)
  {
    if l != [] {
      SecondsOfTimes(l[..|l| - 1]);
      assert Times(l)[..|l| - 1] == Times(l[..|l| - 1]);
    }
  }

  lemma {:induction false} SecondsOfSuffix(l: seq<Instant>, k: nat)
    requires k <= |l|
    ensures ToSeconds(l[k..]) == ToSeconds(l)[k..]
  {
    forall i | 0 <= i < |l| - k ensures ToSeconds(l[k..])[i] == ToSeconds(l)[k + i] {
      SecondsAt(l[k..], i);
      SecondsAt(l, k + i);
    }
  }

  /** Stamps after the cutoff, in order. */
  function KeepStamps(l: seq<nat>, cutoff: int): seq<nat> {
    if l == [] then [] else
    KeepStamps(l[..|l| - 1], cutoff) + if Recent(l[|l| - 1] * SECOND, cutoff) then [l[|l| - 1]] else []
  }

  lemma {:induction false} KeepIsKeepStamps(l: seq<Attempt>, cutoff: int)
    ensures Stamps(Keep(l, cutoff)) == KeepStamps(Stamps(l), cutoff)
  {
    if l != [] {
      var front, last := l[..|l| - 1], l[|l| - 1];
      KeepIsKeepStamps(front, cutoff);
      assert Stamps(l)[..|l| - 1] == Stamps(front);
      StampsAppend(Keep(front, cutoff), last);
      assert Keep(front, cutoff) + [] == Keep(front, cutoff);
    }
  }

  lemma {:induction false} KeepTwice(l: seq<Attempt>, c1: int, c2: int)
    requires c1 <= c2
    ensures Keep(Keep(l, c1), c2) == Keep(l, c2)
  {
    if l != [] {
      var front, last := l[..|l| - 1], l[|l| - 1];
      KeepTwice(front, c1, c2);
      if Recent(last.start * SECOND, c1) {
        assert (Keep(front, c1) + [last])[..|Keep(front, c1)|] == Keep(front, c1);
      } else {
        assert Keep(front, c1) + [] == Keep(front, c1);
      }
    }
  }

  lemma {:induction false} KeepStampsTwice(l: seq<nat>, c1: int, c2: int)
    requires c1 <= c2
    ensures KeepStamps(KeepStamps(l, c1), c2) == KeepStamps(l, c2)
  {
    if l != [] {
      var front, last := l[..|l| - 1], l[|l| - 1];
      KeepStampsTwice(front, c1, c2);
      if Recent(last * SECOND, c1) {
        assert (KeepStamps(front, c1) + [last])[..|KeepStamps(front, c1)|] == KeepStamps(front, c1);
      } else {
        assert KeepStamps(front, c1) + [] == KeepStamps(front, c1);
      }
    }
  }

  ghost predicate Sorted(l: seq<nat>) {
    forall i, j :: 0 <= i < j < |l| ==> l[i] <= l[j]
  }

  /** In a sorted list with fewer than k recent stamps, the k-th from the end is old. */
  lemma {:induction false} FewRecent(l: seq<nat>, cutoff: int, k: nat)
    requires Sorted(l) && |KeepStamps(l, cutoff)| < k <= |l|
    ensures !Recent(l[|l| - k] * SECOND, cutoff)
  {
    var front, last := l[..|l| - 1], l[|l| - 1];
    if Recent(last * SECOND, cutoff) {
      FewRecent(front, cutoff, k - 1);
    } else {
      assert l[|l| - k] <= last;
    }
  }

  // ----------------------------------------------------- the nested CR map

  predicate Has(cr: StatusCR, node: NodeId, condition: Condition) {
    node in cr && condition in cr[node]
  }

  function ListOf(cr: StatusCR, node: NodeId, condition: Condition): seq<Attempt> {
    if Has(cr, node, condition) then cr[node][condition] else []
  }

  function CleanNode(conditions: Conditions, cutoff: int): Conditions {
    map c | c in conditions && Keep(conditions[c], cutoff) != [] :: Keep(conditions[c], cutoff)
  }

  function Clean(cr: StatusCR, cutoff: int): StatusCR {
    map n | n in cr && CleanNode(cr[n], cutoff) != map[] :: CleanNode(cr[n], cutoff)
  }

  /** Cleanup keeps, for every node and condition, exactly the recent attempts in order. */
  lemma CleanKeepsRecent(cr: StatusCR, cutoff: int, node: NodeId, condition: Condition)
    ensures ListOf(Clean(cr, cutoff), node, condition) == Keep(ListOf(cr, node, condition), cutoff)
  {
    if Has(cr, node, condition) && Keep(cr[node][condition], cutoff) != [] {
      assert condition in CleanNode(cr[node], cutoff);
    }
  }

  /** i is the position of an attempt that began after the cutoff. */
  predicate IsAfter(l: seq<Attempt>, i: int, cutoff: int) {
    0 <= i < |l| && l[i].start * 1_000_000_000 > cutoff
  }

  /** Filtering keeps exactly the attempts after the cutoff, whole and in order. */
  lemma {:induction false} KeepExact(l: seq<Attempt>, cutoff: int) returns (at: seq<nat>)
    ensures PickedAt(l, at, Keep(l, cutoff))
    ensures forall i :: i in at <==> IsAfter(l, i, cutoff)
  {
    at := [];
    if l != [] {
      var k := |l| - 1;
      at := KeepExact(l[..k], cutoff);
      PickLast(l, k, at, Keep(l[..k], cutoff));
      at := if Recent(l[k].start * SECOND, cutoff) then at + [k] else at;
      assert forall i :: IsAfter(l, i, cutoff) <==> IsAfter(l[..k], i, cutoff) || (i == k && IsAfter(l, k, cutoff));
    }
  }

  /** Cleanup keeps, for every node and condition, exactly the attempts that began
      after the cutoff, whole and in order. */
  lemma CleanExact(cr: StatusCR, cutoff: int, node: NodeId, condition: Condition) returns (at: seq<nat>)
    ensures var before := ListOf(cr, node, condition);
            && PickedAt(before, at, ListOf(Clean(cr, cutoff), node, condition))
            && forall i :: i in at <==> IsAfter(before, i, cutoff)
  {
    CleanKeepsRecent(cr, cutoff, node, condition);
    at := KeepExact(ListOf(cr, node, condition), cutoff);
  }

  lemma CleanOnlyRemoves(cr: StatusCR, cutoff: int)
    ensures forall n, c :: Has(Clean(cr, cutoff), n, c) ==> Has(cr, n, c)
  {
  }

  /** Cleanup leaves no node without conditions and no condition without attempts. */
  lemma CleanLeavesNoEmpties(cr: StatusCR, cutoff: int)
    ensures forall n :: n in Clean(cr, cutoff) ==> Clean(cr, cutoff)[n] != map[]
    ensures forall n, c :: Has(Clean(cr, cutoff), n, c) ==> ListOf(Clean(cr, cutoff), n, c) != []
  {
  }

  lemma CleanNodeTwice(conditions: Conditions, c1: int, c2: int)
    requires c1 <= c2
    ensures CleanNode(CleanNode(conditions, c1), c2) == CleanNode(conditions, c2)
    ensures CleanNode(conditions, c2).Keys <= CleanNode(conditions, c1).Keys
  {
    forall c | c in conditions ensures Keep(Keep(conditions[c], c1), c2) == Keep(conditions[c], c2) {
      KeepTwice(conditions[c], c1, c2);
    }
  }

  /** Cleaning at one cutoff and then at a later one is cleaning at the later one. */
  lemma CleanTwice(cr: StatusCR, c1: int, c2: int)
    requires c1 <= c2
    ensures Clean(Clean(cr, c1), c2) == Clean(cr, c2)
  {
    forall n | n in cr
      ensures CleanNode(CleanNode(cr[n], c1), c2) == CleanNode(cr[n], c2)
      ensures CleanNode(cr[n], c2).Keys <= CleanNode(cr[n], c1).Keys
    {
      CleanNodeTwice(cr[n], c1, c2);
    }
    forall n | n in Clean(cr, c2) ensures n in Clean(cr, c1) {
      assert CleanNode(cr[n], c2).Keys != {};
    }
  }

  // -------------------------------------------------------------- the tracker

  /** The tracker prune: drop everything before the first recent attempt. */
  function DropOld(l: seq<Instant>, cutoff: int): seq<Instant> {
    if l == [] then []
    else if Recent(l[0], cutoff) then l
    else DropOld(l[1..], cutoff)
  }

  lemma {:induction false} DropOldIsSuffix(l: seq<Instant>, cutoff: int)
    ensures var r := DropOld(l, cutoff); |r| <= |l| && r == l[|l| - |r|..]
  {
    if l != [] && !Recent(l[0], cutoff) {
      DropOldIsSuffix(l[1..], cutoff);
    }
  }

  function KeepTimes(l: seq<Instant>, cutoff: int): seq<Instant> {
    if l == [] then []
    else (if Recent(l[0], cutoff) then [l[0]] else []) + KeepTimes(l[1..], cutoff)
  }

  lemma {:induction false} AllRecent(l: seq<Instant>, cutoff: int)
    requires forall i :: 0 <= i < |l| ==> Recent(l[i], cutoff)
    ensures KeepTimes(l, cutoff) == l
  {
    if l != [] {
      AllRecent(l[1..], cutoff);
    }
  }

  /** On a sorted list, dropping up to the first recent attempt is filtering. */
  lemma {:induction false} DropOldIsFilter(l: seq<Instant>, cutoff: int)
    requires Sorted(l)
    ensures DropOld(l, cutoff) == KeepTimes(l, cutoff)
  {
    if l != [] {
      if Recent(l[0], cutoff) {
        AllRecent(l, cutoff);
      } else {
        DropOldIsFilter(l[1..], cutoff);
      }
    }
  }

  /** On any list, it loses no recent attempt. */
  lemma {:induction false} DropOldLosesNothing(l: seq<Instant>, cutoff: int)
    ensures KeepTimes(DropOld(l, cutoff), cutoff) == KeepTimes(l, cutoff)
  {
    if l != [] && !Recent(l[0], cutoff) {
      DropOldLosesNothing(l[1..], cutoff);
    }
  }

  /** Tracker keys join node and condition with a dash. */
  function Key(node: NodeId, condition: Condition): string {
    node.text + "-" + condition.text
  }

  /** One condition ends in a dash and another one. */
  predicate EndsIn(c1: Condition, c2: Condition) {
    HasSuffix(c1.text, "-" + c2.text)
  }

  lemma LongerKey(n1: NodeId, c1: Condition, n2: NodeId, c2: Condition)
    requires Key(n1, c1) == Key(n2, c2) && |c2.text| < |c1.text|
    ensures EndsIn(c1, c2)
  {
    var k := Key(n1, c1);
    var m := |c2.text| + 1;
    assert k[|k| - m..] == "-" + c2.text;
    assert k[|k| - |c1.text|..] == c1.text;
    assert c1.text[|c1.text| - m..] == k[|k| - m..];
  }

  /** Conditions neither of which ends in a dash and the other make keys unambiguous. */
  lemma KeyInjective(n1: NodeId, c1: Condition, n2: NodeId, c2: Condition)
    requires Key(n1, c1) == Key(n2, c2) && !EndsIn(c1, c2) && !EndsIn(c2, c1)
    ensures n1 == n2 && c1 == c2
  {
    var k := Key(n1, c1);
    if |c1.text| < |c2.text| {
      LongerKey(n2, c2, n1, c1);
    } else if |c2.text| < |c1.text| {
      LongerKey(n1, c1, n2, c2);
    } else {
      var l := |n1.text|;
      assert k[..l] == n1.text && k[..l] == n2.text;
      assert k[l + 1..] == c1.text && k[l + 1..] == c2.text;
    }
  }

  /** The node whose key with c2 is the key of n with a condition that ends in c2. */
  function Shadow(n: NodeId, c1: Condition, c2: Condition): NodeId
    requires EndsIn(c1, c2)
  {
    NodeId(n.text + "-" + c1.text[..|c1.text| - |c2.text| - 1])
  }

  lemma ShadowCollides(n: NodeId, c1: Condition, c2: Condition)
    requires EndsIn(c1, c2)
    ensures Key(n, c1) == Key(Shadow(n, c1, c2), c2) && Shadow(n, c1, c2) != n && c1 != c2
  {
    var m := |c1.text| - |c2.text| - 1;
    assert c1.text == c1.text[..m] + ("-" + c2.text);
    assert Key(Shadow(n, c1, c2), c2) == n.text + "-" + (c1.text[..m] + ("-" + c2.text));
  }

  /** Two different pairs with these conditions can share a key. */
  ghost predicate CanCollide(c1: Condition, c2: Condition) {
    exists n1, n2 :: (n1 != n2 || c1 != c2) && Key(n1, c1) == Key(n2, c2)
  }

  /** Two conditions can share a tracker key exactly when one of them ends in a
      dash and the other. */
  lemma KeysCollideIff(c1: Condition, c2: Condition)
    ensures CanCollide(c1, c2) <==> EndsIn(c1, c2) || EndsIn(c2, c1)
  {
    var n := NodeId("a");
    if EndsIn(c1, c2) {
      ShadowCollides(n, c1, c2);
    } else if EndsIn(c2, c1) {
      ShadowCollides(n, c2, c1);
      assert Key(Shadow(n, c2, c1), c1) == Key(n, c2);
    } else if CanCollide(c1, c2) {
      var n1, n2 :| (n1 != n2 || c1 != c2) && Key(n1, c1) == Key(n2, c2);
      KeyInjective(n1, c1, n2, c2);
    }
  }

  /** A set of conditions among which tracker keys are unambiguous. */
  ghost predicate Unambiguous(conditions: set<Condition>) {
    forall c1, c2 :: c1 in conditions && c2 in conditions ==> !EndsIn(c1, c2)
  }

  function Lookup(tracker: Tracker, node: NodeId, condition: Condition): seq<Instant> {
    var k := Key(node, condition);
    if k in tracker then tracker[k] else []
  }

  /** What loading the CR into a new tracker can give: every pair is stored, and
      of pairs that share a key the one visited last is kept. */
  ghost predicate SyncedFrom(cr: StatusCR, tracker: Tracker) {
    && (forall n, c :: Has(cr, n, c) ==> Key(n, c) in tracker)
    && (forall k :: k in tracker ==> HeldUnder(cr, k, tracker[k]))
  }

  /** The CR has a list with that key and those times. */
  ghost predicate HeldUnder(cr: StatusCR, key: string, times: seq<Instant>) {
    exists n, c :: Has(cr, n, c) && Key(n, c) == key && times == Times(cr[n][c])
  }

  /** The CR has entries for these conditions only. */
  ghost predicate Covers(conditions: set<Condition>, cr: StatusCR) {
    forall n, c :: Has(cr, n, c) ==> c in conditions
  }

  /** After a sync the tracker holds exactly the CR's times. */
  lemma SyncExact(cr: StatusCR, tracker: Tracker, conditions: set<Condition>, node: NodeId, condition: Condition)
    requires SyncedFrom(cr, tracker) && Covers(conditions, cr)
    requires Unambiguous(conditions) && condition in conditions
    ensures Lookup(tracker, node, condition) == Times(ListOf(cr, node, condition))
  {
    var k := Key(node, condition);
    if k in tracker {
      var n, c :| Has(cr, n, c) && Key(n, c) == k && tracker[k] == Times(cr[n][c]);
      KeyInjective(n, c, node, condition);
    } else {
      assert !Has(cr, node, condition);
      assert Times([]) == [];
    }
  }
}

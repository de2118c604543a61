/** Finalizing a vf-passthrough DeviceConfig: one check per reconcile removes one
    leftover of the VFIO post-processing and is retried until nothing is left. */
module Finalization {
  import opened Base

  /** Nodes that carry the vfio-ready label, and nodes with a worker pod. */
  datatype Leftovers = Leftovers(labels: set<NodeId>, pods: set<NodeId>)

  /** Nodes on which the API calls of a check fail: label patches, pod lookups
      (other than "not found"), pod deletions. */
  datatype Faults = Faults(patch: set<NodeId>, lookup: set<NodeId>, delete: set<NodeId>)

  const NO_FAULTS := Faults({}, {}, {})

  datatype Checked = Checked(left: Leftovers, done: bool)

  /** checkPostProcessFinalizeCondition. */
  function Check(l: Leftovers, nodes: seq<NodeId>, force: bool, f: Faults): Checked {
    if nodes == [] then Checked(l, true) else
    var n := nodes[0];
    if n in l.labels then
      Checked(if force && n !in f.patch then l.(labels := l.labels - {n}) else l, false)
    else if n in f.lookup then Checked(l, false)
    else if n in l.pods then
      Checked(if force && n !in f.delete then l.(pods := l.pods - {n}) else l, false)
    else Check(l, nodes[1..], force, f)
  }

  /** Ready labels plus worker pods on the listed nodes. */
  function Remaining(l: Leftovers, nodes: seq<NodeId>): nat {
    if nodes == [] then 0
    else (if nodes[0] in l.labels then 1 else 0) + (if nodes[0] in l.pods then 1 else 0) + Remaining(l, nodes[1..])
  }

  lemma {:induction false} RemainingUnchanged(l: Leftovers, l': Leftovers, nodes: seq<NodeId>)
    requires forall n :: n in nodes ==> (n in l.labels <==> n in l'.labels) && (n in l.pods <==> n in l'.pods)
    ensures Remaining(l', nodes) == Remaining(l, nodes)
  {
    if nodes != [] {
      RemainingUnchanged(l, l', nodes[1..]);
    }
  }

  lemma {:induction false} NothingRemains(l: Leftovers, nodes: seq<NodeId>)
    ensures Remaining(l, nodes) == 0 <==> forall n :: n in nodes ==> n !in l.labels && n !in l.pods
  {
    if nodes != [] {
      NothingRemains(l, nodes[1..]);
      assert nodes == [nodes[0]] + nodes[1..];
    }
  }

  /** The first listed node that keeps a check from being done. */
  function Blocker(l: Leftovers, nodes: seq<NodeId>, f: Faults): Option<NodeId> {
    if nodes == [] then None
    else if nodes[0] in l.labels || nodes[0] in f.lookup || nodes[0] in l.pods then Some(nodes[0])
    else Blocker(l, nodes[1..], f)
  }

  /** The call a forced check makes for the node fails. */
  predicate CallFails(l: Leftovers, f: Faults, n: NodeId) {
    if n in l.labels then n in f.patch else n in f.lookup || n in f.delete
  }

  /** A check says done exactly when no listed node has a label, a pod or a lookup
      fault. A forced check that is not done removes exactly one leftover of the
      first node in its way, its label before its pod, unless the call for that node fails: then, and when
      it is not forced, it changes nothing. */
  lemma {:induction false} CheckExact(l: Leftovers, nodes: seq<NodeId>, force: bool, f: Faults)
    requires Distinct(nodes)
    ensures var r, b := Check(l, nodes, force, f), Blocker(l, nodes, f);
            && (r.done <==> Remaining(l, nodes) == 0 && forall n :: n in nodes ==> n !in f.lookup)
            && (r.done <==> b.None?)
            && r.left.labels <= l.labels && r.left.pods <= l.pods
            && (r.done || !force || CallFails(l, f, b.value) ==> r.left == l)
            && (force && !r.done && !CallFails(l, f, b.value) ==>
                  && Remaining(r.left, nodes) == Remaining(l, nodes) - 1
                  && r.left == if b.value in l.labels then Leftovers(l.labels - {b.value}, l.pods)
                               else Leftovers(l.labels, l.pods - {b.value}))
  {
    if nodes != [] {
      var n, rest := nodes[0], nodes[1..];
      var r := Check(l, nodes, force, f);
      CheckExact(l, rest, force, f);
      NothingRemains(l, nodes);
      assert nodes == [n] + rest && n !in rest;
      if n in l.labels || n in f.lookup || n in l.pods {
        RemainingUnchanged(l, r.left, rest);
      } else {
        CheckKeepsOthers(l, rest, force, f, n);
      }
    }
  }

  lemma {:induction false} CheckKeepsOthers(l: Leftovers, nodes: seq<NodeId>, force: bool, f: Faults, n: NodeId)
    requires n !in nodes
    ensures var r := Check(l, nodes, force, f).left;
            (n in r.labels <==> n in l.labels) && (n in r.pods <==> n in l.pods)
  {
    if nodes != [] {
      CheckKeepsOthers(l, nodes[1..], force, f, n);
    }
  }

  class Cluster {
    var labels: set<NodeId>
    var pods: set<NodeId>

    method CheckPostProcessFinalizeCondition(nodes: seq<NodeId>, force: bool, f: Faults) returns (done: bool)
      modifies this
      ensures Checked(Leftovers(labels, pods), done)
              == Check(Leftovers(old(labels), old(pods)), nodes, force, f)
    {
      for i := 0 to |nodes|
        invariant labels == old(labels) && pods == old(pods)
        invariant Check(Leftovers(labels, pods), nodes, force, f)
                  == Check(Leftovers(labels, pods), nodes[i..], force, f)
      {
        var n := nodes[i];
        assert nodes[i..][1..] == nodes[i + 1..];
        if n in labels {
          if force && n !in f.patch {
            labels := labels - {n};
          }
          return false;
        }
        if n in f.lookup {
          return false;
        }
        if n in pods {
          if force && n !in f.delete {
            pods := pods - {n};
          }
          return false;
        }
      }
      return true;
    }

    /** The reconciler comes back after every check that is not done. With calls
        that succeed, forced finalization ends after one check per leftover plus
        the one that finds nothing, with every listed node clean. */
    method FinalizeUntilDone(nodes: seq<NodeId>) returns (calls: nat)
      requires Distinct(nodes)
      modifies this
      ensures calls == Remaining(Leftovers(old(labels), old(pods)), nodes) + 1
      ensures forall n :: n in nodes ==> n !in labels && n !in pods
      ensures labels <= old(labels) && pods <= old(pods)
    {
      ghost var before := Remaining(Leftovers(labels, pods), nodes);
      CheckExact(Leftovers(labels, pods), nodes, true, NO_FAULTS);
      var done := CheckPostProcessFinalizeCondition(nodes, true, NO_FAULTS);
      calls := 1;
      while !done
        invariant labels <= old(labels) && pods <= old(pods)
        invariant !done ==> calls + Remaining(Leftovers(labels, pods), nodes) == before
        invariant done ==> calls == before + 1
        invariant done ==> Remaining(Leftovers(labels, pods), nodes) == 0
        decreases !done, Remaining(Leftovers(labels, pods), nodes)
      {
        CheckExact(Leftovers(labels, pods), nodes, true, NO_FAULTS);
        done := CheckPostProcessFinalizeCondition(nodes, true, NO_FAULTS);
        calls := calls + 1;
      }
      NothingRemains(Leftovers(labels, pods), nodes);
    }
  }
}

/** One upgrade worker from its start to its end: the status it leaves, from the
    replies to its calls alone, and the steps of UpgradeMachine it takes. */
module UpgradeWorker {
  import opened Base
  import opened NodeUpgrade
  import opened UpgradeMachine
  import opened UpgradeSafety

  /** Status left by a worker that takes replies from rs until it ends. */
  function WorkerOutcome(pc: Pc, reboot: bool, s: UpgradeState, rs: seq<Reply>): UpgradeState
    decreases |rs|
  {
    if rs == [] then s else
    var m := WorkerMove(pc, reboot, rs[0]);
    var s' := if m.write.Some? then m.write.value else s;
    if m.next.None? then s' else WorkerOutcome(m.next.value, reboot, s', rs[1..])
  }

  lemma OutcomeStep(pc: Pc, reboot: bool, s: UpgradeState, rs: seq<Reply>, k: nat)
    requires k < |rs|
    ensures var m := WorkerMove(pc, reboot, rs[k]);
            var s' := if m.write.Some? then m.write.value else s;
            WorkerOutcome(pc, reboot, s, rs[k..])
            == if m.next.None? then s' else WorkerOutcome(m.next.value, reboot, s', rs[k + 1..])
  {
    assert rs[k..][1..] == rs[k + 1..];
  }

  /** Replies a worker can need: eight calls before the poll loop, then the polls. */
  const MAX_CALLS: nat := 8 + (MAX_POLLS + 1)

  // ------------------------------------------------- the outcome, from the replies

  /** The call succeeds and the DeviceConfig still has the worker's version. */
  predicate GoesOn(r: Reply) {
    r.ok && r.current
  }

  /** The version label was not right yet, and cordon and drain went through. */
  predicate Drained(rs: seq<Reply>)
    requires |rs| > 2
  {
    !rs[0].done && GoesOn(rs[1]) && GoesOn(rs[2])
  }

  lemma FirstCalls(reboot: bool, s: UpgradeState, rs: seq<Reply>)
    requires |rs| > 2
    ensures WorkerOutcome(Begin, reboot, s, rs)
            == if rs[0].done then InProgress
               else if !rs[1].current then s
               else if !rs[1].ok then CordonFailed
               else if !rs[2].current then s
               else if !rs[2].ok then DrainFailed
               else WorkerOutcome(if reboot then PodCleanup else Label, reboot, s, rs[3..])
  {
    assert rs == rs[0..];
    OutcomeStep(Begin, reboot, s, rs, 0);
    OutcomeStep(Cordon, reboot, s, rs, 1);
    OutcomeStep(Drain, reboot, s, rs, 2);
  }

  /** An upgrade without reboot ends In-Progress exactly when the version label is
      already right, or cordon, drain and label update succeed for the current
      version; with the status of the first call that fails for the current
      version; and with no change exactly when the version changed first. */
  lemma PlainOutcomeIff(rs: seq<Reply>)
    requires |rs| > 3
    ensures var out := WorkerOutcome(Begin, false, Started, rs);
            && (out == InProgress <==> rs[0].done || (Drained(rs) && rs[3].ok))
            && (out == CordonFailed <==> !rs[0].done && rs[1].current && !rs[1].ok)
            && (out == DrainFailed <==> !rs[0].done && GoesOn(rs[1]) && rs[2].current && !rs[2].ok)
            && (out == Failed <==> Drained(rs) && !rs[3].ok)
            && (out == Started <==> !rs[0].done && (!rs[1].current || (rs[1].ok && !rs[2].current)))
  {
    FirstCalls(false, Started, rs);
    OutcomeStep(Label, false, Started, rs, 3);
  }

  /** The call with which the wait for the node ends: a poll that finds it Ready,
      or the one after 360 polls; every call so far succeeded. */
  ghost predicate EndsAt(polls: seq<Reply>, k: nat) {
    && k < |polls| && k <= 360
    && (forall i :: 0 <= i < k ==> polls[i].ok && !polls[i].done)
    && polls[k].ok && (polls[k].done || k == 360)
  }

  ghost predicate Returns(polls: seq<Reply>) {
    exists k: nat :: EndsAt(polls, k) && polls[k].current
  }

  /** From poll i on, with no end before it. */
  lemma {:induction false} AwaitOutcome(s: UpgradeState, polls: seq<Reply>, i: nat)
    requires |polls| == 361 && i <= 360
    requires forall j :: 0 <= j < i ==> polls[j].ok && !polls[j].done
    ensures WorkerOutcome(Await(i), true, s, polls[i..]) == if Returns(polls) then InProgress else s
    decreases 360 - i
  {
    OutcomeStep(Await(i), true, s, polls, i);
    if !polls[i].ok {
      assert forall k: nat :: !EndsAt(polls, k);
    } else if polls[i].done || i == 360 {
      assert EndsAt(polls, i);
      assert forall k: nat :: EndsAt(polls, k) ==> k == i;
    } else {
      AwaitOutcome(s, polls, i + 1);
    }
  }

  /** Everything before the polls went well: pod cleanup, label, pod, DeviceConfig
      and pod lookup. */
  predicate Rebooting(rs: seq<Reply>)
    requires |rs| > 7
  {
    Drained(rs) && rs[3].ok && rs[4].ok && rs[5].ok && rs[6].ok
  }

  lemma RebootCalls(s: UpgradeState, rs: seq<Reply>)
    requires |rs| == MAX_CALLS && Drained(rs)
    ensures WorkerOutcome(Begin, true, s, rs)
            == if !rs[3].ok then RebootFailed
               else if !rs[4].ok then Failed
               else if !rs[5].ok then RebootFailed
               else if !rs[6].ok then s
               else if rs[7].ok && Returns(rs[8..]) then InProgress
               else if rs[6].current then RebootInProgress else s
  {
    FirstCalls(true, s, rs);
    OutcomeStep(PodCleanup, true, s, rs, 3);
    OutcomeStep(RebootLabel, true, s, rs, 4);
    OutcomeStep(PodCreate, true, s, rs, 5);
    OutcomeStep(Confirm, true, s, rs, 6);
    var s' := if rs[6].current then RebootInProgress else s;
    OutcomeStep(FindPod, true, s', rs, 7);
    AwaitOutcome(s', rs[8..], 0);
    assert rs[8..][0..] == rs[8..];
  }

  /** An upgrade with reboot ends In-Progress exactly when the version label is
      already right, or all calls up to the end of the wait succeed and the version
      is then current; Reboot-Failed exactly when the old pod cannot be deleted or
      the new one created; Reboot-In-Progress is left exactly when the wait does
      not end that way after the version was confirmed. */
  lemma RebootOutcomeIff(rs: seq<Reply>)
    requires |rs| == MAX_CALLS
    ensures var out := WorkerOutcome(Begin, true, Started, rs);
            && (out == InProgress <==> rs[0].done || (Rebooting(rs) && rs[7].ok && Returns(rs[8..])))
            && (out == CordonFailed <==> !rs[0].done && rs[1].current && !rs[1].ok)
            && (out == DrainFailed <==> !rs[0].done && GoesOn(rs[1]) && rs[2].current && !rs[2].ok)
            && (out == RebootFailed <==> Drained(rs) && (!rs[3].ok || (rs[4].ok && !rs[5].ok)))
            && (out == Failed <==> Drained(rs) && rs[3].ok && !rs[4].ok)
            && (out == RebootInProgress <==>
                  Rebooting(rs) && rs[6].current && !(rs[7].ok && Returns(rs[8..])))
            && out in {InProgress, CordonFailed, DrainFailed, RebootFailed, Failed, RebootInProgress, Started}
  {
    FirstCalls(true, Started, rs);
    if Drained(rs) {
      RebootCalls(Started, rs);
    }
  }

  // ------------------------------------------------------- the steps of the machine

  function Works(id: nat, rs: seq<Reply>): seq<Event> {
    if rs == [] then [] else [Work(id, rs[0])] + Works(id, rs[1..])
  }

  /** A worker that gets the replies of rs one after the other takes Work steps of
      UpgradeMachine to its end, or to the last reply; they leave its node with
      the status of WorkerOutcome and every other node alone. */
  lemma {:induction false} WorkerSteps(cfg: Config, s: State, id: nat, rs: seq<Reply>) returns (k: nat, s': State)
    requires id in s.workers
    ensures k <= |rs| && Leads(cfg, s, Works(id, rs[..k]), s')
    ensures k < |rs| ==> id !in s'.workers
    ensures var n := s.workers[id].node;
            && StatusOf(s'.status, n)
               == WorkerOutcome(s.workers[id].pc, cfg.reboot, StatusOf(s.status, n), rs)
            && forall m :: m != n ==> StatusOf(s'.status, m) == StatusOf(s.status, m)
    decreases |rs|
  {
    k, s' := 0, s;
    if rs != [] {
      var s1 := WorkStep(cfg, s, id, rs[0]);
      var m := 0;
      s' := s1;
      if id in s1.workers {
        m, s' := WorkerSteps(cfg, s1, id, rs[1..]);
      }
      k := m + 1;
      WorksNext(cfg, s, id, rs, m, s');
    }
  }

  lemma WorksNext(cfg: Config, s: State, id: nat, rs: seq<Reply>, m: nat, s': State)
    requires id in s.workers && m < |rs|
    requires Leads(cfg, WorkStep(cfg, s, id, rs[0]), Works(id, rs[1..][..m]), s')
    ensures Leads(cfg, s, Works(id, rs[..m + 1]), s')
  {
    assert rs[..m + 1][1..] == rs[1..][..m];
    var rest := Works(id, rs[1..][..m]);
    assert Works(id, rs[..m + 1]) == [Work(id, rs[0])] + rest;
    assert ([Work(id, rs[0])] + rest)[1..] == rest;
  }
}

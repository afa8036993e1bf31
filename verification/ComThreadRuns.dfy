/** What the invariants of ComThreadProtocol mean for every run. */
module ComThreadRuns {
  import opened ComThreadProtocol

  lemma {:induction false} ContinueInv(s: State, run: seq<Label>)
    requires Inv(s) && Continue(s, run).Some?
    ensures Inv(Continue(s, run).value)
    decreases |run|
  {
    if run != [] {
      StepInv(s, run[0]);
      ContinueInv(Apply(s, run[0]), run[1..]);
    }
  }

  lemma RunInv(run: seq<Label>)
    requires Replay(run).Some?
    ensures Inv(Replay(run).value)
  {
    InitInv();
    ContinueInv(Init, run);
  }

  lemma {:induction false} DieOnlyByKill(s: State, run: seq<Label>)
    requires Continue(s, run).Some? && Kill !in run
    ensures Continue(s, run).value.die == s.die
    decreases |run|
  {
    if run != [] {
      assert run[0] in run;
      DieOnlyByKill(Apply(s, run[0]), run[1..]);
    }
  }

  /** Without `kill`, a thread that has decided to exit has nobody inside
      `execute`, has run everything ever submitted, and has no wrapper left
      through which anybody could submit more. */
  lemma NaturalExitLeavesNobody(run: seq<Label>)
    requires Replay(run).Some? && Kill !in run && Exiting(Replay(run).value.pc)
    ensures var s := Replay(run).value;
      && !s.peerAlive
      && (forall c :: s.calls.PcOf(c).Idle?)
      && s.calls.taskList == [] && |s.calls.ran| == |s.calls.submitted|
      && (forall w | w in s.objects.wrappers :: !s.objects.wrappers[w].reachable)
      && (forall c, t, origin :: !Enabled(s, Enter(c, t, origin)))
  {
    var s := Replay(run).value;
    RunInv(run);
    DieOnlyByKill(Init, run);
    assert |s.calls.ran| < |s.calls.submitted| ==>
        AwaitedBy(s.calls.callers, s.calls.submitted[|s.calls.ran|], |s.calls.ran|);
  }

  /** Tasks run exactly once and in the order in which they were appended. */
  lemma RunsInAppendOrder(run: seq<Label>)
    requires Replay(run).Some?
    ensures var k := Replay(run).value.calls;
      && |k.submitted| == |k.ran| + |InFlight(Replay(run).value.pc) + k.taskList|
      && (forall i | 0 <= i < |k.ran| :: k.ran[i].task == k.submitted[i].task)
      && (forall i | |k.ran| <= i < |k.submitted| ::
            k.submitted[i].task == (InFlight(Replay(run).value.pc) + k.taskList)[i - |k.ran|])
  {
    RunInv(run);
  }

  /** A caller returns with what `call()` did for its own submission, at most once per submission. */
  lemma ReturnsOwnOutcome(run: seq<Label>, i: nat)
    requires Replay(run).Some? && i < |Replay(run).value.calls.answered|
    ensures var k := Replay(run).value.calls;
      var r := k.answered[i];
      && r.slot < |k.ran| <= |k.submitted|
      && k.submitted[r.slot].caller == r.caller
      && k.ran[r.slot] == Execution(k.submitted[r.slot].task, r.outcome)
      && forall j | 0 <= j < |k.answered| && j != i :: k.answered[j].slot != r.slot
  {
    RunInv(run);
  }

  /** No lost wake-up: a caller sleeps on a finished task only while the server,
      still inside the monitor, is about to call `notify`. */
  lemma NoLostWakeUp(run: seq<Label>, c: CallerId)
    requires Replay(run).Some? && Replay(run).value.calls.PcOf(c).Waiting?
    ensures var s := Replay(run).value;
      s.calls.CellOf(s.calls.PcOf(c).task).done ==> s.pc == Notifying(s.calls.PcOf(c).task)
  {
    RunInv(run);
  }

  /** The server is never inside `invoke` while the owner is inside the monitor of the same task. */
  lemma MonitorsExclude(run: seq<Label>)
    requires Replay(run).Some? && ServerInside(Replay(run).value.pc)
    ensures var s := Replay(run).value;
      !CallerInside(s.calls.callers, s.pc.task)
  {
    RunInv(run);
  }

  /** A pointer is released at most once, by the COM thread only, and exactly once
      when the thread is dead; until the thread exits every reachable wrapper
      stays registered, disposed or not. */
  lemma ReleasedOnce(run: seq<Label>, w: WrapperId)
    requires Replay(run).Some? && w in Replay(run).value.objects.wrappers
    ensures var s := Replay(run).value;
      var x := s.objects.wrappers[w];
      && x.released <= 1
      && (x.released == 0 <==> x.owns)
      && (s.pc.Dead? ==> x.released == 1)
      && (x.reachable && !s.pc.Clobbering? && !s.pc.Dead? ==> w in s.objects.liveComObjects)
      && (forall l | Enabled(s, l) && Apply(s, l).objects.wrappers[w].released != x.released ::
            IsServerLabel(l) && x.owns && Apply(s, l).objects.wrappers[w].released == 1)
  {
    var s := Replay(run).value;
    RunInv(run);
    forall l | Enabled(s, l)
      ensures w in Apply(s, l).objects.wrappers
      ensures Apply(s, l).objects.wrappers[w].released != s.objects.wrappers[w].released ==>
                && IsServerLabel(l) && s.objects.wrappers[w].owns
                && Apply(s, l).objects.wrappers[w].released == 1
    {
      ReleasedByServer(s, l, w);
    }
  }

  lemma ReleasedByServer(s: State, l: Label, w: WrapperId)
    requires ObjectsInv(s.objects, s.pc) && Enabled(s, l) && w in s.objects.wrappers
    ensures w in Apply(s, l).objects.wrappers
    ensures Apply(s, l).objects.wrappers[w].released != s.objects.wrappers[w].released ==>
              && IsServerLabel(l) && s.objects.wrappers[w].owns
              && Apply(s, l).objects.wrappers[w].released == 1
  {
  }

  // ---------------------------------------------------------------- kill

  /** The submission of this caller has run. */
  predicate HasOutcome(s: State, c: CallerId) {
    var p := s.calls.PcOf(c);
    Submitted(p) && p.slot < |s.calls.ran|
  }

  /** The thread will run no Task any more: it has left its loop, or is at the
      head of it and has been killed. A killed thread in the middle of a turn
      still drains its queue. */
  predicate DoneServing(s: State) {
    Exiting(s.pc) || (s.pc.AtExitTest? && s.die)
  }

  predicate Stranded(s: State, c: CallerId) {
    !s.calls.PcOf(c).Idle? && !HasOutcome(s, c) && DoneServing(s)
  }

  lemma StrandedStep(s: State, c: CallerId, l: Label)
    requires SlotInv(s.calls.cells, s.calls.callers, s.calls.submitted, s.calls.ran, s.pc)
    requires Stranded(s, c) && Enabled(s, l)
    ensures Stranded(Apply(s, l), c)
  {
    assert Apply(s, l).calls.ran == s.calls.ran && DoneServing(Apply(s, l));
    if Submitted(s.calls.PcOf(c)) {
      assert SlotOk(s.calls.cells, s.calls.PcOf(c), c, s.calls.submitted, s.calls.ran, s.pc);
    }
  }

  /** Once the thread has served for the last time, a caller whose Task has not
      run never returns, in any continuation. */
  lemma {:induction false} ExitStrands(s: State, c: CallerId, run: seq<Label>)
    requires Inv(s) && Stranded(s, c) && Continue(s, run).Some?
    ensures Stranded(Continue(s, run).value, c)
    decreases |run|
  {
    if run != [] {
      StepInv(s, run[0]);
      StrandedStep(s, c, run[0]);
      ExitStrands(Apply(s, run[0]), c, run[1..]);
    }
  }

  lemma {:induction false} ContinueJoins(s: State, run: seq<Label>, rest: seq<Label>)
    requires Continue(s, run).Some?
    ensures Continue(s, run + rest) == Continue(Continue(s, run).value, rest)
    decreases |run|
  {
    if run == [] {
      assert run + rest == rest;
    } else {
      assert (run + rest)[1..] == run[1..] + rest;
      ContinueJoins(Apply(s, run[0]), run[1..], rest);
    }
  }

  lemma Then(s: State, run: seq<Label>, r: State, l: Label)
    requires Continue(s, run) == Some(r) && Enabled(r, l)
    ensures Continue(s, run + [l]) == Some(Apply(r, l))
  {
    ContinueJoins(s, run, [l]);
    assert [l][1..] == [];
  }

  const FIRST := Task(PEER, 0)

  /** The peer sleeps in its first `execute`, the server is at the head of its loop. */
  lemma PeerFallsAsleep() returns (run: seq<Label>, s: State)
    ensures Replay(run) == Some(s)
    ensures s.pc == AtExitTest && s.objects == Init.objects
    ensures s.calls.PcOf(PEER) == Waiting(FIRST, AsPeer, 0) && s.calls.ran == []
  {
    var s1 := Apply(Init, Enter(PEER, FIRST, AsPeer));
    var s2 := Apply(s1, Add(PEER));
    Then(Init, [], Init, Enter(PEER, FIRST, AsPeer));
    Then(Init, [] + [Enter(PEER, FIRST, AsPeer)], s1, Add(PEER));
    Then(Init, [] + [Enter(PEER, FIRST, AsPeer)] + [Add(PEER)], s2, Check(PEER));
    run, s := [] + [Enter(PEER, FIRST, AsPeer)] + [Add(PEER)] + [Check(PEER)], Apply(s2, Check(PEER));
  }

  lemma DiesIfKilledIdle(s: State) returns (run: seq<Label>)
    requires s.pc == AtExitTest && s.objects == Init.objects
    ensures Kill in run && Continue(s, run) == Some(s.(die := true, pc := Dead(false)))
  {
    var s1 := s.(die := true);
    Then(s, [], s, Kill);
    Then(s, [] + [Kill], s1, TestExit);
    Then(s, [] + [Kill] + [TestExit], s1.(pc := ExitCollecting(false)), PollNone);
    run := [] + [Kill] + [TestExit] + [PollNone] + [ClobberDone];
    Then(s, [] + [Kill] + [TestExit] + [PollNone], s1.(pc := Clobbering(false)), ClobberDone);
  }

  /** With `kill` the natural-exit guarantee is lost: the peer is asleep in
      `execute` when the thread dies, and its task never ran. It was lost for it
      as soon as the flag was set, before the thread left its loop. */
  lemma KillStrandsCaller()
    ensures exists run ::
      Kill in run && Replay(run).Some? && Replay(run).value.pc.Dead? && Stranded(Replay(run).value, PEER)
    ensures exists run ::
      Kill in run && Replay(run).Some? && !Exiting(Replay(run).value.pc) && Stranded(Replay(run).value, PEER)
  {
    var run, s := PeerFallsAsleep();
    Then(Init, run, s, Kill);
    assert Kill in run + [Kill];
    var rest := DiesIfKilledIdle(s);
    ContinueJoins(Init, run, rest);
    assert Kill in run + rest;
  }
}

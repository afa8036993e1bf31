/** Who can still return: whoever is inside `execute` can be brought back by the
    COM thread and the callers alone, unless a killed thread has served for the
    last time. */
module ComThreadProgress {
  import opened ComThreadProtocol
  import opened ComThreadRuns

  /** The only action of the COM thread; which garbage it polls first does not matter. */
  ghost function ServerMove(s: State): Label {
    match s.pc
    case AtExitTest => TestExit
    case AtLiveTest => TestLive
    case Suspended => Wake
    case Collecting => if s.objects.collectable == {} then PollNone else PollSome(s.objects.collectable)
    case AtDrain => Peek
    case Peeked(_) => Remove
    case Popped(_) => EnterInvoke
    case Running(_) => Finish(Returned(None))
    case Finishing(_) => SetDone
    case Notifying(_) => Notify
    case ExitCollecting(_) => if s.objects.collectable == {} then PollNone else PollSome(s.objects.collectable)
    case Clobbering(_) => ClobberDone
    case Dead(_) => TestExit
  }

  ghost function PollSome(collectable: set<WrapperId>): (l: Label)
    requires collectable != {}
    ensures l.Poll? && l.w in collectable
  {
    var w :| w in collectable;
    Poll(w)
  }

  /** How far the server is from ending the next `call()`. */
  function Distance(pc: ServerPc): nat {
    match pc
    case Finishing(_) => 13
    case Notifying(_) => 12
    case AtExitTest => 11
    case AtLiveTest => 10
    case Suspended => 9
    case Collecting => 8
    case AtDrain => 7
    case Peeked(_) => 6
    case Popped(_) => 5
    case Running(_) => 4
    case _ => 0
  }

  /** How many calls must end before `c` has its outcome. */
  function Pending(s: State, c: CallerId): nat {
    var p := s.calls.PcOf(c);
    if Submitted(p) && p.slot >= |s.calls.ran| then p.slot - |s.calls.ran| + 1 else 0
  }

  /** How far a caller that has its outcome is from returning. */
  function Phase(s: State, c: CallerId): nat {
    match s.calls.PcOf(c)
    case Leaving(_, _, _) => 1
    case Checking(_, _, _) => 2
    case Idle => 0
    case _ => 3
  }

  predicate BlocksServer(s: State) {
    s.pc.Popped? && !s.calls.CellOf(s.pc.task).monitor.Free?
  }

  /** The next action that brings `c` closer to its return. */
  ghost function Move(s: State, c: CallerId): Label {
    var p := s.calls.PcOf(c);
    if p.Entered? then Add(c)
    else if Pending(s, c) > 0 then
      if BlocksServer(s) then Check(s.pc.task.owner) else ServerMove(s)
    else if p.Leaving? then Leave(c)
    else if p.Checking? then Check(c)
    else if p.Notified? && s.calls.CellOf(p.task).monitor.Free? then Reacquire(c)
    else ServerMove(s)
  }

  /** `m` is smaller than `n`, compared from the left. */
  predicate Less(m: (nat, nat, nat, nat, nat, nat), n: (nat, nat, nat, nat, nat, nat)) {
    m.0 < n.0 || (m.0 == n.0 && (m.1 < n.1 || (m.1 == n.1 && (m.2 < n.2 || (m.2 == n.2 &&
    (m.3 < n.3 || (m.3 == n.3 && (m.4 < n.4 || (m.4 == n.4 && m.5 < n.5)))))))))
  }

  function Measure(s: State, c: CallerId): (nat, nat, nat, nat, nat, nat) {
    (if s.calls.PcOf(c).Entered? then 1 else 0,
     Pending(s, c),
     if Pending(s, c) > 0 then 0 else Phase(s, c),
     Distance(s.pc),
     |s.objects.collectable|,
     if BlocksServer(s) then 1 else 0)
  }

  /** With a caller inside, only `kill` makes the thread leave its loop. */
  lemma NotExiting(s: State, c: CallerId)
    requires Inv(s) && !s.calls.PcOf(c).Idle?
    ensures !s.die ==> !Exiting(s.pc)
    ensures s.pc.AtLiveTest? ==> s.objects.liveComObjects != {}
  {
    var origin := s.calls.PcOf(c).origin;
    assert MaySubmit(s.peerAlive, s.objects, c, origin);
    if s.pc.AtLiveTest? {
      assert origin.wrapper in s.objects.liveComObjects;
    }
  }

  lemma BlockerChecks(s: State)
    requires CallsInv(s.calls, s.pc) && BlocksServer(s)
    ensures s.calls.PcOf(s.pc.task.owner).Checking? && s.calls.PcOf(s.pc.task.owner).task == s.pc.task
    ensures !s.calls.CellOf(s.pc.task).done
  {
    var k := s.calls;
    assert k.submitted[|k.ran|].task == s.pc.task;
    assert AwaitedBy(k.callers, k.submitted[|k.ran|], |k.ran|);
  }

  /** What keeps the server on its way to the next `call()`. */
  ghost predicate HasWork(s: State) {
    && !DoneServing(s) && !s.pc.Running? && !BlocksServer(s)
    && (s.pc.AtLiveTest? ==> s.objects.liveComObjects != {})
    && (s.pc.AtDrain? || s.pc.Peeked? ==> s.calls.taskList != [])
    && s.objects.collectable <= s.objects.wrappers.Keys
  }

  lemma ServerApproaches(s: State)
    requires HasWork(s)
    ensures Enabled(s, ServerMove(s))
    ensures var r := Apply(s, ServerMove(s));
      && r.calls.ran == s.calls.ran
      && (Distance(r.pc) < Distance(s.pc)
          || (r.pc == s.pc && !BlocksServer(r) && |r.objects.collectable| < |s.objects.collectable|))
  {
  }

  lemma ServerGoesOnServing(s: State)
    requires HasWork(s) && Enabled(s, ServerMove(s))
    ensures !DoneServing(Apply(s, ServerMove(s)))
  {
  }

  lemma PendingIsWork(s: State, c: CallerId)
    requires Inv(s) && !DoneServing(s) && Pending(s, c) > 0 && !BlocksServer(s) && !s.pc.Running?
    ensures HasWork(s)
  {
    NotExiting(s, c);
  }

  lemma CallerStaysPending(s: State, c: CallerId)
    requires CallsInv(s.calls, s.pc) && Pending(s, c) > 0 && Enabled(s, ServerMove(s))
    ensures var r := Apply(s, ServerMove(s));
      && Submitted(r.calls.PcOf(c)) && r.calls.PcOf(c).slot == s.calls.PcOf(c).slot
  {
  }

  lemma BlockerMakesWay(s: State, c: CallerId)
    requires CallsInv(s.calls, s.pc) && !DoneServing(s) && Pending(s, c) > 0 && BlocksServer(s)
    ensures Enabled(s, Move(s, c)) && Less(Measure(Apply(s, Move(s, c)), c), Measure(s, c))
    ensures !Apply(s, Move(s, c)).calls.PcOf(c).Idle? && !DoneServing(Apply(s, Move(s, c)))
  {
    BlockerChecks(s);
  }

  lemma CallEnds(s: State, c: CallerId)
    requires CallsInv(s.calls, s.pc) && Pending(s, c) > 0 && s.pc.Running?
    ensures Enabled(s, Move(s, c)) && Less(Measure(Apply(s, Move(s, c)), c), Measure(s, c))
    ensures !Apply(s, Move(s, c)).calls.PcOf(c).Idle? && !DoneServing(Apply(s, Move(s, c)))
  {
    CallerStaysPending(s, c);
  }

  lemma MoveServesPending(s: State, c: CallerId)
    requires Inv(s) && !DoneServing(s) && Pending(s, c) > 0
    ensures Enabled(s, Move(s, c)) && Less(Measure(Apply(s, Move(s, c)), c), Measure(s, c))
    ensures !Apply(s, Move(s, c)).calls.PcOf(c).Idle? && !DoneServing(Apply(s, Move(s, c)))
  {
    if BlocksServer(s) {
      BlockerMakesWay(s, c);
    } else if s.pc.Running? {
      CallEnds(s, c);
    } else {
      PendingIsWork(s, c);
      ServerApproaches(s);
      ServerGoesOnServing(s);
      CallerStaysPending(s, c);
    }
  }

  /** A caller that is asleep on a finished call is about to be woken. */
  lemma ServerHasTask(s: State, c: CallerId)
    requires CallsInv(s.calls, s.pc) && Submitted(s.calls.PcOf(c)) && Pending(s, c) == 0
    requires var p := s.calls.PcOf(c);
      p.Waiting? || (p.Notified? && !s.calls.CellOf(p.task).monitor.Free?)
    ensures s.pc == Finishing(s.calls.PcOf(c).task) || s.pc == Notifying(s.calls.PcOf(c).task)
  {
    var k := s.calls;
    assert s.pc.Running? ==> k.submitted[|k.ran|].task == s.pc.task;
  }

  lemma OutcomeStays(s: State, c: CallerId, l: Label)
    requires HasOutcome(s, c) && Enabled(s, l) && !Apply(s, l).calls.PcOf(c).Idle?
    ensures HasOutcome(Apply(s, l), c)
  {
  }

  lemma WaitsForServer(s: State, c: CallerId)
    requires s.pc.Finishing? || s.pc.Notifying?
    requires HasOutcome(s, c) && !s.calls.PcOf(c).Leaving? && !s.calls.PcOf(c).Checking?
    ensures Enabled(s, ServerMove(s)) && Less(Measure(Apply(s, ServerMove(s)), c), Measure(s, c))
  {
  }

  lemma GoesOnAlone(s: State, c: CallerId)
    requires CallsInv(s.calls, s.pc) && HasOutcome(s, c)
    requires var p := s.calls.PcOf(c);
      p.Leaving? || p.Checking? || (p.Notified? && s.calls.CellOf(p.task).monitor.Free?)
    ensures Enabled(s, Move(s, c)) && Less(Measure(Apply(s, Move(s, c)), c), Measure(s, c))
  {
    var p := s.calls.PcOf(c);
    if p.Checking? {
      assert SlotOk(s.calls.cells, p, c, s.calls.submitted, s.calls.ran, s.pc);
      assert CallerInside(s.calls.callers, p.task);
    }
  }

  lemma MoveServesFinished(s: State, c: CallerId)
    requires Inv(s) && HasOutcome(s, c)
    ensures Enabled(s, Move(s, c)) && Less(Measure(Apply(s, Move(s, c)), c), Measure(s, c))
    ensures !Apply(s, Move(s, c)).calls.PcOf(c).Idle? ==> HasOutcome(Apply(s, Move(s, c)), c)
  {
    var p := s.calls.PcOf(c);
    if p.Waiting? || (p.Notified? && !s.calls.CellOf(p.task).monitor.Free?) {
      ServerHasTask(s, c);
      WaitsForServer(s, c);
    } else {
      GoesOnAlone(s, c);
    }
    if !Apply(s, Move(s, c)).calls.PcOf(c).Idle? {
      OutcomeStays(s, c, Move(s, c));
    }
  }

  predicate OwnLabel(l: Label) {
    IsServerLabel(l) || l.Add? || l.Check? || l.Reacquire? || l.Leave?
  }

  lemma MoveKeepsAnswers(s: State, c: CallerId)
    requires Enabled(s, Move(s, c))
    ensures var l, r := Move(s, c), Apply(s, Move(s, c));
      && OwnLabel(l)
      && r.die == s.die
      && (l.Leave? ==>
            && |r.calls.answered| == |s.calls.answered| + 1
            && r.calls.answered[|s.calls.answered|].caller == c
            && r.calls.PcOf(c).Idle?)
      && (!l.Leave? ==> r.calls.answered == s.calls.answered)
      && (!l.Leave? && !s.calls.PcOf(c).Idle? ==> !r.calls.PcOf(c).Idle?)
  {
  }

  /** From every reachable state, a caller that is inside `execute` and not
      stranded returns after finitely many actions of the COM thread and of the
      callers already inside; nothing else has to happen. */
  lemma {:induction false} EveryCallCanReturn(s: State, c: CallerId) returns (run: seq<Label>)
    requires Inv(s) && !s.calls.PcOf(c).Idle? && !Stranded(s, c)
    ensures forall l | l in run :: OwnLabel(l)
    ensures Continue(s, run).Some?
    ensures var k := Continue(s, run).value.calls;
      && k.PcOf(c).Idle?
      && |k.answered| == |s.calls.answered| + 1
      && k.answered[|s.calls.answered|].caller == c
    decreases Measure(s, c).0, Measure(s, c).1, Measure(s, c).2, Measure(s, c).3, Measure(s, c).4, Measure(s, c).5
  {
    var l := Move(s, c);
    MoveServes(s, c);
    MoveKeepsAnswers(s, c);
    var r := Apply(s, l);
    StepInv(s, l);
    if l.Leave? {
      run := [l];
      assert [l][1..] == [];
    } else {
      var rest := EveryCallCanReturn(r, c);
      run := [l] + rest;
      assert run[1..] == rest;
    }
  }

  lemma MoveServes(s: State, c: CallerId)
    requires Inv(s) && !s.calls.PcOf(c).Idle? && !Stranded(s, c)
    ensures Enabled(s, Move(s, c)) && Less(Measure(Apply(s, Move(s, c)), c), Measure(s, c))
    ensures !Stranded(Apply(s, Move(s, c)), c)
  {
    if Pending(s, c) > 0 {
      MoveServesPending(s, c);
    } else if !s.calls.PcOf(c).Entered? {
      MoveServesFinished(s, c);
    }
  }

  /** In every reachable state, whoever is inside `execute` can still return, in
      some continuation, exactly if its Task has run already or the thread is
      neither past its loop nor killed at the head of it. */
  lemma ReturnsIffNotStranded(s: State, c: CallerId)
    requires Inv(s) && !s.calls.PcOf(c).Idle?
    ensures (exists run :: Continue(s, run).Some? && Continue(s, run).value.calls.PcOf(c).Idle?)
       <==> HasOutcome(s, c) || !(Exiting(s.pc) || (s.pc.AtExitTest? && s.die))
  {
    if Stranded(s, c) {
      forall run | Continue(s, run).Some?
        ensures !Continue(s, run).value.calls.PcOf(c).Idle?
      {
        ExitStrands(s, c, run);
      }
    } else {
      var run := EveryCallCanReturn(s, c);
    }
  }

  /** Without `kill` nobody is ever stranded. */
  lemma OnlyKillStrands(run: seq<Label>, c: CallerId)
    requires Replay(run).Some? && Kill !in run
    ensures !Stranded(Replay(run).value, c)
  {
    RunInv(run);
    DieOnlyByKill(Init, run);
    if !Replay(run).value.calls.PcOf(c).Idle? {
      NotExiting(Replay(run).value, c);
    }
  }
}

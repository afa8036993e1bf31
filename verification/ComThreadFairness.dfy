/** Fair runs: when the COM thread and the callers inside `execute` are scheduled
    fairly, whoever is inside returns, or is stranded by `kill`. */
module ComThreadFairness {
  import opened ComThreadProtocol
  import opened ComThreadRuns
  import opened ComThreadProgress

  type States = nat -> State
  type Labels = nat -> Label

  /** An infinite run, of any interleaving. */
  ghost predicate Infinite(st: States, lab: Labels) {
    st(0) == Init && forall i: nat :: StepOk(st, lab, i)
  }

  ghost predicate StepOk(st: States, lab: Labels, i: nat) {
    Enabled(st(i), lab(i)) && st(i + 1) == Apply(st(i), lab(i))
  }

  /** The COM thread takes its next step; what a Task does to wrappers does not
      count, only the end of its `call()`. */
  predicate ServerMoves(l: Label) {
    IsServerLabel(l) && !l.CreateWrapper? && !l.Dispose?
  }

  ghost predicate ServerCan(s: State) {
    exists l :: ServerMoves(l) && Enabled(s, l)
  }

  predicate OwnAction(l: Label, c: CallerId) {
    l == Add(c) || l == Check(c) || l == Reacquire(c) || l == Leave(c)
  }

  predicate CallerCan(s: State, c: CallerId) {
    Enabled(s, Add(c)) || Enabled(s, Check(c)) || Enabled(s, Reacquire(c)) || Enabled(s, Leave(c))
  }

  /** From here on the COM thread can move again and again. */
  ghost predicate ServerRecurs(st: States, i: nat) {
    forall j | j >= i :: CanLater(st, j)
  }

  ghost predicate CanLater(st: States, j: nat) {
    exists k :: k >= j && ServerCan(st(k))
  }

  ghost predicate MovesLater(lab: Labels, i: nat) {
    exists k :: k >= i && ServerMoves(lab(k))
  }

  ghost predicate ActsOrCannot(st: States, lab: Labels, c: CallerId, i: nat) {
    exists k :: k >= i && (!CallerCan(st(k), c) || OwnAction(lab(k), c))
  }

  /** Strong fairness for the COM thread, which other callers can keep out of a
      monitor for a while, weak fairness for each caller: nobody who can act for
      ever, or again and again, is passed over for ever. */
  ghost predicate Fair(st: States, lab: Labels) {
    && (forall i {:trigger ServerRecurs(st, i)} :: ServerRecurs(st, i) ==> MovesLater(lab, i))
    && (forall c, i {:trigger ActsOrCannot(st, lab, c, i)} :: ActsOrCannot(st, lab, c, i))
  }

  lemma {:induction false} InfiniteInv(st: States, lab: Labels, i: nat)
    requires Infinite(st, lab)
    ensures Inv(st(i))
  {
    if i == 0 {
      InitInv();
    } else {
      InfiniteInv(st, lab, i - 1);
      assert StepOk(st, lab, i - 1);
      StepInv(st(i - 1), lab(i - 1));
    }
  }

  // ---------------------------------------------------------------- until the Task has run

  /** Wrappers whose reference may still be collected. */
  function Uncollected(o: Objects): set<WrapperId> {
    set w | w in o.wrappers && (w in o.collectable || !o.wrappers[w].enqueued)
  }

  predicate Lower(m: (nat, nat, nat), n: (nat, nat, nat)) {
    m.0 < n.0 || (m.0 == n.0 && (m.1 < n.1 || (m.1 == n.1 && m.2 < n.2)))
  }

  function Remaining(s: State, c: CallerId): (nat, nat, nat) {
    (Pending(s, c), Distance(s.pc), if s.pc.Collecting? then |Uncollected(s.objects)| else 0)
  }

  lemma PollUncollects(o: Objects, w: WrapperId, pc: ServerPc)
    requires ObjectsInv(o, pc) && w in o.collectable
    ensures w in Uncollected(o) && Uncollected(o.Poll(w)) == Uncollected(o) - {w}
  {
  }

  /** Others only ever wake a caller up. */
  lemma OthersKeepCaller(s: State, l: Label, c: CallerId)
    requires Enabled(s, l) && !OwnAction(l, c) && !s.calls.PcOf(c).Idle?
    ensures var p, r := s.calls.PcOf(c), Apply(s, l).calls.PcOf(c);
            r == p || (p.Waiting? && r == Notified(p.task, p.origin, p.slot))
  {
  }

  /** A submission stays the same until its caller leaves. */
  lemma KeepsSubmission(s: State, l: Label, c: CallerId)
    requires Submitted(s.calls.PcOf(c)) && Enabled(s, l)
    ensures var p, q := s.calls.PcOf(c), Apply(s, l).calls.PcOf(c);
            if l == Leave(c) then q.Idle? else Submitted(q) && q.slot == p.slot && q.task == p.task
  {
    if OwnAction(l, c) {
      assert l == Check(c) || l == Reacquire(c) || l == Leave(c);
    } else {
      OthersKeepCaller(s, l, c);
    }
  }

  lemma RanBy(s: State, l: Label)
    requires Enabled(s, l)
    ensures |Apply(s, l).calls.ran| == |s.calls.ran| + (if l.Finish? then 1 else 0)
  {
  }

  /** A caller whose Task has not run is not about to leave. */
  lemma StaysPending(s: State, l: Label, c: CallerId)
    requires CallsInv(s.calls, s.pc) && Pending(s, c) > 0 && Enabled(s, l)
    ensures var r := Apply(s, l);
      && Submitted(r.calls.PcOf(c)) && r.calls.PcOf(c).slot == s.calls.PcOf(c).slot
      && |r.calls.ran| == |s.calls.ran| + (if l.Finish? then 1 else 0)
  {
    assert SlotOk(s.calls.cells, s.calls.PcOf(c), c, s.calls.submitted, s.calls.ran, s.pc);
    assert l != Leave(c);
    KeepsSubmission(s, l, c);
    RanBy(s, l);
  }

  /** Whatever is not a move of the thread leaves it where it is. */
  lemma OthersKeepServer(s: State, l: Label)
    requires Enabled(s, l) && !ServerMoves(l)
    ensures Apply(s, l).pc == s.pc
    ensures s.pc.Collecting? ==> Uncollected(Apply(s, l).objects) == Uncollected(s.objects)
  {
  }

  lemma OthersKeepRemaining(s: State, l: Label, c: CallerId)
    requires Inv(s) && Pending(s, c) > 0 && Enabled(s, l) && !ServerMoves(l)
    ensures Pending(Apply(s, l), c) > 0 && Remaining(Apply(s, l), c) == Remaining(s, c)
  {
    StaysPending(s, l, c);
    OthersKeepServer(s, l);
  }

  /** Each move brings the thread nearer to the end of the next `call()`. */
  lemma MoveShortens(s: State, l: Label)
    requires ServerMoves(l) && Enabled(s, l) && !l.Poll? && !l.Finish? && !DoneServing(s)
    requires s.pc.AtDrain? ==> s.calls.taskList != []
    requires s.pc.AtLiveTest? ==> s.objects.liveComObjects != {}
    ensures Distance(Apply(s, l).pc) < Distance(s.pc)
  {
  }

  lemma MoveLowers(s: State, l: Label, c: CallerId)
    requires Inv(s) && Pending(s, c) > 0 && !DoneServing(s) && ServerMoves(l) && Enabled(s, l)
    ensures Lower(Remaining(Apply(s, l), c), Remaining(s, c))
    ensures Submitted(Apply(s, l).calls.PcOf(c))
  {
    StaysPending(s, l, c);
    NotExiting(s, c);
    if l.Poll? {
      PollUncollects(s.objects, l.w, s.pc);
    } else if !l.Finish? {
      MoveShortens(s, l);
    }
  }

  // ---------------------------------------------------------------- the thread moves again

  lemma StepAt(st: States, lab: Labels, i: nat)
    requires Infinite(st, lab)
    ensures Enabled(st(i), lab(i)) && st(i + 1) == Apply(st(i), lab(i)) && Inv(st(i))
  {
    InfiniteInv(st, lab, i);
    assert StepOk(st, lab, i);
  }

  lemma {:induction false} PcStays(st: States, lab: Labels, j: nat, n: nat)
    requires Infinite(st, lab) && j <= n && forall k | k >= j :: !ServerMoves(lab(k))
    ensures st(n).pc == st(j).pc
  {
    if j < n {
      PcStays(st, lab, j, n - 1);
      StepAt(st, lab, n - 1);
      OthersKeepServer(st(n - 1), lab(n - 1));
    }
  }

  /** Who keeps the thread out of a monitor can give it up, and has not done so. */
  lemma StillBlocks(s: State, l: Label)
    requires CallsInv(s.calls, s.pc) && BlocksServer(s) && Enabled(s, l) && BlocksServer(Apply(s, l))
    ensures !OwnAction(l, s.pc.task.owner) && CallerCan(s, s.pc.task.owner)
  {
    BlockerChecks(s);
  }

  lemma StillBlocksAt(st: States, lab: Labels, k: nat)
    requires Infinite(st, lab) && BlocksServer(st(k)) && BlocksServer(st(k + 1))
    ensures !OwnAction(lab(k), st(k).pc.task.owner) && CallerCan(st(k), st(k).pc.task.owner)
  {
    StepAt(st, lab, k);
    StillBlocks(st(k), lab(k));
  }

  lemma BlocksNotForEver(st: States, lab: Labels, j: nat) returns (m: nat)
    requires Infinite(st, lab) && Fair(st, lab) && forall n | n >= j :: !ServerMoves(lab(n))
    ensures m >= j && !BlocksServer(st(m))
  {
    if forall n | n >= j :: BlocksServer(st(n)) {
      var o := st(j).pc.task.owner;
      assert ActsOrCannot(st, lab, o, j);
      var k :| k >= j && (!CallerCan(st(k), o) || OwnAction(lab(k), o));
      PcStays(st, lab, j, k);
      StillBlocksAt(st, lab, k);
      assert false;
    }
    m :| m >= j && !BlocksServer(st(m));
  }

  lemma CanMove(s: State, c: CallerId)
    requires Inv(s) && Pending(s, c) > 0 && !DoneServing(s) && !BlocksServer(s)
    ensures ServerCan(s)
  {
    if s.pc.Running? {
      assert ServerMoves(Finish(Returned(None))) && Enabled(s, Finish(Returned(None)));
    } else {
      PendingIsWork(s, c);
      ServerApproaches(s);
      assert ServerMoves(ServerMove(s));
    }
  }

  /** As long as a Task is to be run and the thread does not move, it can. */
  lemma MovesWhilePending(st: States, lab: Labels, c: CallerId, i: nat)
    requires Infinite(st, lab) && Fair(st, lab)
    requires forall n | n >= i :: Pending(st(n), c) > 0 && !DoneServing(st(n))
    ensures MovesLater(lab, i)
  {
    if forall n | n >= i :: !ServerMoves(lab(n)) {
      forall j | j >= i
        ensures CanLater(st, j)
      {
        var m := BlocksNotForEver(st, lab, j);
        InfiniteInv(st, lab, m);
        CanMove(st(m), c);
      }
      assert ServerRecurs(st, i);
    }
  }

  /** Up to the next move of the thread the Task stays to be run, unless the
      thread is killed at the head of its loop. */
  lemma {:induction false} NextMove(st: States, lab: Labels, c: CallerId, i: nat, k: nat) returns (m: nat)
    requires Infinite(st, lab) && i <= k && Pending(st(i), c) > 0
    requires ServerMoves(lab(k)) || DoneServing(st(k)) || Pending(st(k), c) == 0
    ensures m >= i && Pending(st(m), c) > 0 && Remaining(st(m), c) == Remaining(st(i), c)
    ensures ServerMoves(lab(m)) || DoneServing(st(m))
    decreases k - i
  {
    m := i;
    if !ServerMoves(lab(i)) && !DoneServing(st(i)) {
      StepAt(st, lab, i);
      OthersKeepRemaining(st(i), lab(i), c);
      m := NextMove(st, lab, c, i + 1, k);
    }
  }

  lemma MoveLowersAt(st: States, lab: Labels, c: CallerId, m: nat)
    requires Infinite(st, lab) && Pending(st(m), c) > 0 && !DoneServing(st(m)) && ServerMoves(lab(m))
    ensures Lower(Remaining(st(m + 1), c), Remaining(st(m), c))
    ensures Pending(st(m + 1), c) > 0 || HasOutcome(st(m + 1), c)
  {
    StepAt(st, lab, m);
    MoveLowers(st(m), lab(m), c);
  }

  /** A Task that has been submitted is run, or its caller is stranded. */
  lemma {:induction false} PendingEnds(st: States, lab: Labels, c: CallerId, i: nat) returns (j: nat)
    requires Infinite(st, lab) && Fair(st, lab) && Pending(st(i), c) > 0
    ensures j >= i && (HasOutcome(st(j), c) || Stranded(st(j), c))
    decreases Remaining(st(i), c).0, Remaining(st(i), c).1, Remaining(st(i), c).2
  {
    var k := SomeChange(st, lab, c, i);
    var m := NextMove(st, lab, c, i, k);
    j := m;
    if !DoneServing(st(m)) {
      MoveLowersAt(st, lab, c, m);
      j := m + 1;
      if Pending(st(m + 1), c) > 0 {
        j := PendingEnds(st, lab, c, m + 1);
      }
    }
  }

  lemma SomeChange(st: States, lab: Labels, c: CallerId, i: nat) returns (k: nat)
    requires Infinite(st, lab) && Fair(st, lab)
    ensures k >= i && (ServerMoves(lab(k)) || DoneServing(st(k)) || Pending(st(k), c) == 0)
  {
    if forall n | n >= i :: Pending(st(n), c) > 0 && !DoneServing(st(n)) {
      MovesWhilePending(st, lab, c, i);
      k :| k >= i && ServerMoves(lab(k));
    } else {
      k :| k >= i && !(Pending(st(k), c) > 0 && !DoneServing(st(k)));
    }
  }

  // ---------------------------------------------------------------- before and after

  /** A caller that has not submitted its Task yet does so. */
  lemma {:induction false} Submits(st: States, lab: Labels, c: CallerId, i: nat, k: nat) returns (j: nat)
    requires Infinite(st, lab) && st(i).calls.PcOf(c).Entered? && i <= k
    requires !CallerCan(st(k), c) || OwnAction(lab(k), c)
    ensures j >= i && Pending(st(j), c) > 0
    decreases k - i
  {
    StepAt(st, lab, i);
    EnteredStep(st(i), lab(i), c);
    j := i + 1;
    if Pending(st(i + 1), c) == 0 {
      j := Submits(st, lab, c, i + 1, k);
    }
  }

  lemma EnteredStep(s: State, l: Label, c: CallerId)
    requires CallsInv(s.calls, s.pc) && s.calls.PcOf(c).Entered? && Enabled(s, l)
    ensures CallerCan(s, c)
    ensures if OwnAction(l, c) then Pending(Apply(s, l), c) > 0 else Apply(s, l).calls.PcOf(c).Entered?
  {
    if !OwnAction(l, c) {
      OthersKeepCaller(s, l, c);
    }
  }

  /** The thread is about to leave the monitor of the Task of this caller. */
  predicate OnTask(s: State, c: CallerId) {
    HasOutcome(s, c) && (s.pc.Finishing? || s.pc.Notifying?) && s.pc.task == s.calls.PcOf(c).task
  }

  /** How far a caller whose Task has run is from its return. */
  function Rest(s: State, c: CallerId): nat {
    Phase(s, c) + if OnTask(s, c) then (if s.pc.Finishing? then 8 else 4) else 0
  }

  /** What brings it nearer. */
  predicate Helps(s: State, c: CallerId, l: Label) {
    if OnTask(s, c) then ServerMoves(l) else OwnAction(l, c)
  }

  /** The thread is on its way out of a monitor only after the end of `call()`. */
  lemma CameFromCall(s: State, l: Label)
    requires Enabled(s, l) && (Apply(s, l).pc.Finishing? || Apply(s, l).pc.Notifying?)
    ensures s.pc.Running? || s.pc.Finishing? || s.pc.Notifying?
    ensures s.pc.task == Apply(s, l).pc.task && (s.pc.Running? ==> l.Finish? || Apply(s, l).pc == s.pc)
  {
  }

  lemma NotRunningAgain(k: Calls, pc: ServerPc, c: CallerId)
    requires CallsInv(k, pc) && Submitted(k.PcOf(c)) && k.PcOf(c).slot < |k.ran| && pc.Running?
    ensures pc.task != k.PcOf(c).task
  {
    assert k.submitted[|k.ran|].task == pc.task;
    assert AwaitedBy(k.callers, k.submitted[|k.ran|], |k.ran|);
  }

  lemma ComesNotBack(s: State, l: Label, c: CallerId)
    requires CallsInv(s.calls, s.pc) && HasOutcome(s, c) && Enabled(s, l) && !OnTask(s, c)
    ensures !OnTask(Apply(s, l), c)
  {
    if OnTask(Apply(s, l), c) {
      CameFromCall(s, l);
      KeepsSubmission(s, l, c);
      if s.pc.Running? {
        NotRunningAgain(s.calls, s.pc, c);
      }
    }
  }

  /** While the thread is inside the monitor the caller sleeps, or waits for it. */
  lemma OnTaskStep(s: State, l: Label, c: CallerId)
    requires CallsInv(s.calls, s.pc) && OnTask(s, c) && Enabled(s, l)
    ensures var r := Apply(s, l);
      && HasOutcome(r, c) && Phase(r, c) == Phase(s, c)
      && (if ServerMoves(l) then Rest(r, c) < Rest(s, c) else Rest(r, c) == Rest(s, c))
  {
    InsideNobodyElse(s, l, c);
    OthersKeepCaller(s, l, c);
    RanBy(s, l);
    ServerLeavesTask(s, l);
    NearerOnTask(s, Apply(s, l), ServerMoves(l), c);
  }

  lemma NearerOnTask(s: State, r: State, moved: bool, c: CallerId)
    requires OnTask(s, c) && |r.calls.ran| >= |s.calls.ran|
    requires s.calls.PcOf(c).Waiting? || s.calls.PcOf(c).Notified?
    requires var p, q := s.calls.PcOf(c), r.calls.PcOf(c);
             q == p || (p.Waiting? && q == Notified(p.task, p.origin, p.slot))
    requires r.pc == if !moved then s.pc else if s.pc.Finishing? then Notifying(s.pc.task) else Collecting
    ensures HasOutcome(r, c) && Phase(r, c) == Phase(s, c)
    ensures if moved then Rest(r, c) < Rest(s, c) else Rest(r, c) == Rest(s, c)
  {
  }

  lemma InsideNobodyElse(s: State, l: Label, c: CallerId)
    requires CallsInv(s.calls, s.pc) && OnTask(s, c) && Enabled(s, l)
    ensures !OwnAction(l, c) && (s.calls.PcOf(c).Waiting? || s.calls.PcOf(c).Notified?)
  {
    KeptOut(s.calls, s.pc, c);
    KeptOutIdles(s, l, c);
  }

  lemma KeptOut(k: Calls, pc: ServerPc, c: CallerId)
    requires CallsInv(k, pc) && Submitted(k.PcOf(c)) && (pc.Finishing? || pc.Notifying?) && pc.task == k.PcOf(c).task
    ensures (k.PcOf(c).Waiting? || k.PcOf(c).Notified?) && !k.CellOf(k.PcOf(c).task).monitor.Free?
  {
    assert !CallerInside(k.callers, pc.task);
  }

  lemma KeptOutIdles(s: State, l: Label, c: CallerId)
    requires (s.calls.PcOf(c).Waiting? || s.calls.PcOf(c).Notified?) && Enabled(s, l)
    requires !s.calls.CellOf(s.calls.PcOf(c).task).monitor.Free?
    ensures !OwnAction(l, c)
  {
  }

  lemma ServerLeavesTask(s: State, l: Label)
    requires (s.pc.Finishing? || s.pc.Notifying?) && Enabled(s, l)
    ensures Apply(s, l).pc ==
            if !ServerMoves(l) then s.pc else if s.pc.Finishing? then Notifying(s.pc.task) else Collecting
  {
  }

  lemma OffTask(s: State, c: CallerId)
    requires CallsInv(s.calls, s.pc) && HasOutcome(s, c) && !OnTask(s, c)
    ensures CallerCan(s, c) && !s.calls.PcOf(c).Waiting? && s.calls.CellOf(s.calls.PcOf(c).task).done
  {
    var k, p := s.calls, s.calls.PcOf(c);
    assert SlotOk(k.cells, p, c, k.submitted, k.ran, s.pc);
    assert s.pc.Running? ==> k.submitted[|k.ran|].task == s.pc.task;
  }

  lemma OffTaskStep(s: State, l: Label, c: CallerId)
    requires CallsInv(s.calls, s.pc) && HasOutcome(s, c) && !OnTask(s, c) && Enabled(s, l)
    ensures var r := Apply(s, l);
      || r.calls.PcOf(c).Idle?
      || (HasOutcome(r, c) && if OwnAction(l, c) then Phase(r, c) < Phase(s, c) else Phase(r, c) == Phase(s, c))
  {
    OffTask(s, c);
    RanBy(s, l);
    if OwnAction(l, c) {
      OwnActionAdvances(s, l, c);
    } else {
      OthersKeepCaller(s, l, c);
    }
  }

  lemma OwnActionAdvances(s: State, l: Label, c: CallerId)
    requires HasOutcome(s, c) && OwnAction(l, c) && Enabled(s, l) && s.calls.CellOf(s.calls.PcOf(c).task).done
    ensures var r := Apply(s, l);
      || r.calls.PcOf(c).Idle?
      || (HasOutcome(r, c) && Phase(r, c) < Phase(s, c))
  {
  }

  lemma OutcomeStep(st: States, lab: Labels, c: CallerId, i: nat)
    requires Infinite(st, lab) && HasOutcome(st(i), c)
    ensures || st(i + 1).calls.PcOf(c).Idle?
            || (&& HasOutcome(st(i + 1), c) && Rest(st(i + 1), c) <= Rest(st(i), c)
                && (OnTask(st(i + 1), c) ==> OnTask(st(i), c))
                && (Helps(st(i), c, lab(i)) ==> Rest(st(i + 1), c) < Rest(st(i), c)))
  {
    StepAt(st, lab, i);
    if OnTask(st(i), c) {
      OnTaskStep(st(i), lab(i), c);
    } else {
      OffTaskStep(st(i), lab(i), c);
      ComesNotBack(st(i), lab(i), c);
    }
  }

  lemma {:induction false} StaysOffTask(st: States, lab: Labels, c: CallerId, i: nat, n: nat)
    requires Infinite(st, lab) && i <= n && !OnTask(st(i), c) && forall k | k >= i :: HasOutcome(st(k), c)
    ensures !OnTask(st(n), c)
  {
    if i < n {
      StaysOffTask(st, lab, c, i, n - 1);
      OutcomeStep(st, lab, c, n - 1);
    }
  }

  lemma OnTaskCan(s: State, c: CallerId)
    requires OnTask(s, c)
    ensures ServerCan(s)
  {
    var l := if s.pc.Finishing? then SetDone else Notify;
    assert ServerMoves(l) && Enabled(s, l);
  }

  /** Sooner or later the next helpful action is taken. */
  lemma SomeHelp(st: States, lab: Labels, c: CallerId, i: nat) returns (k: nat)
    requires Infinite(st, lab) && Fair(st, lab)
    ensures k >= i && (Helps(st(k), c, lab(k)) || !HasOutcome(st(k), c))
  {
    if forall n | n >= i :: HasOutcome(st(n), c) && !Helps(st(n), c, lab(n)) {
      if m: nat :| m >= i && !OnTask(st(m), c) {
        assert ActsOrCannot(st, lab, c, m);
        var n :| n >= m && (!CallerCan(st(n), c) || OwnAction(lab(n), c));
        StaysOffTask(st, lab, c, m, n);
        InfiniteInv(st, lab, n);
        OffTask(st(n), c);
      } else {
        forall j | j >= i
          ensures CanLater(st, j)
        {
          OnTaskCan(st(j), c);
        }
        assert ServerRecurs(st, i);
      }
      assert false;
    }
    k :| k >= i && !(HasOutcome(st(k), c) && !Helps(st(k), c, lab(k)));
  }

  lemma {:induction false} NextHelp(st: States, lab: Labels, c: CallerId, i: nat, k: nat) returns (m: nat)
    requires Infinite(st, lab) && i <= k && HasOutcome(st(i), c)
    requires Helps(st(k), c, lab(k)) || !HasOutcome(st(k), c)
    ensures m > i && (st(m).calls.PcOf(c).Idle? || (HasOutcome(st(m), c) && Rest(st(m), c) < Rest(st(i), c)))
    decreases k - i
  {
    OutcomeStep(st, lab, c, i);
    m := i + 1;
    if !Helps(st(i), c, lab(i)) && !st(m).calls.PcOf(c).Idle? {
      m := NextHelp(st, lab, c, i + 1, k);
    }
  }

  /** A caller whose Task has run returns. */
  lemma {:induction false} OutcomeReturns(st: States, lab: Labels, c: CallerId, i: nat) returns (j: nat)
    requires Infinite(st, lab) && Fair(st, lab) && HasOutcome(st(i), c)
    ensures j >= i && st(j).calls.PcOf(c).Idle?
    decreases Rest(st(i), c)
  {
    var k := SomeHelp(st, lab, c, i);
    j := NextHelp(st, lab, c, i, k);
    if !st(j).calls.PcOf(c).Idle? {
      j := OutcomeReturns(st, lab, c, j);
    }
  }

  /** In every fair run, whoever is inside `execute` returns, or comes to be
      stranded by `kill`, and then never returns. */
  lemma EveryCallReturnsOrIsStranded(st: States, lab: Labels, c: CallerId, i: nat)
    requires Infinite(st, lab) && Fair(st, lab)
    ensures exists j :: j >= i && (st(j).calls.PcOf(c).Idle? || Stranded(st(j), c))
  {
    var j := i;
    if st(j).calls.PcOf(c).Entered? {
      assert ActsOrCannot(st, lab, c, j);
      var k :| k >= j && (!CallerCan(st(k), c) || OwnAction(lab(k), c));
      j := Submits(st, lab, c, j, k);
    }
    if Pending(st(j), c) > 0 {
      j := PendingEnds(st, lab, c, j);
    }
    if HasOutcome(st(j), c) {
      j := OutcomeReturns(st, lab, c, j);
    }
  }

  lemma {:induction false} NobodyKills(st: States, lab: Labels, i: nat)
    requires Infinite(st, lab) && forall n: nat :: lab(n) != Kill
    ensures !st(i).die
  {
    if i > 0 {
      NobodyKills(st, lab, i - 1);
      StepAt(st, lab, i - 1);
    }
  }

  /** Without `kill` every call of `execute` returns. */
  lemma EveryCallReturns(st: States, lab: Labels, c: CallerId, i: nat)
    requires Infinite(st, lab) && Fair(st, lab) && forall n: nat :: lab(n) != Kill
    ensures exists j :: j >= i && st(j).calls.PcOf(c).Idle?
  {
    EveryCallReturnsOrIsStranded(st, lab, c, i);
    var j :| j >= i && (st(j).calls.PcOf(c).Idle? || Stranded(st(j), c));
    if Stranded(st(j), c) {
      NobodyKills(st, lab, j);
      InfiniteInv(st, lab, j);
      NotExiting(st(j), c);
    }
  }
}

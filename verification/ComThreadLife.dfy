/** The natural end of a COM thread: it comes, in a fair run, exactly if at some
    moment the peer is dead and every wrapper has been handed back. */
module ComThreadLife {
  import opened ComThreadProtocol
  import opened ComThreadRuns
  import opened ComThreadFairness
  import opened ComThreadHistory

  /** The references of all wrappers created so far have been handed to the queue. */
  ghost predicate AllBack(o: Objects) {
    forall w | w in o.wrappers :: o.wrappers[w].enqueued
  }

  ghost predicate Quiet(s: State) {
    !s.peerAlive && !s.die && AllBack(s.objects)
  }

  /** Nobody is left who could call, and the thread has nothing to run. */
  lemma QuietMeans(s: State)
    requires Inv(s) && Quiet(s)
    ensures forall c :: s.calls.PcOf(c).Idle?
    ensures s.calls.taskList == [] && InFlight(s.pc) == [] && !s.pc.Peeked? && !s.pc.Finishing? && !s.pc.Notifying?
    ensures if Exiting(s.pc) then s.pc.natural && s.objects.liveComObjects == {}
            else s.objects.liveComObjects == s.objects.collectable
    ensures s.pc.ExitCollecting? ==> s.objects.collectable == {}
  {
    NobodyWaits(s.calls, s.pc);
    forall c
      ensures s.calls.PcOf(c).Idle?
    {
      assert !s.calls.PcOf(c).Idle? ==> MaySubmit(s.peerAlive, s.objects, c, s.calls.PcOf(c).origin);
    }
  }

  lemma NobodyWaits(k: Calls, pc: ServerPc)
    requires CallsInv(k, pc)
    ensures (forall c :: k.PcOf(c).Idle?) ==>
              k.taskList == [] && InFlight(pc) == [] && !pc.Peeked? && !pc.Finishing? && !pc.Notifying?
  {
    assert |k.ran| < |k.submitted| ==> !k.PcOf(k.submitted[|k.ran|].caller).Idle?;
    assert pc.Finishing? || pc.Notifying? ==> !k.PcOf(k.submitted[|k.ran| - 1].caller).Idle?;
  }

  /** How far the thread is from its end. */
  function Stage(pc: ServerPc, nothingQueued: bool): nat {
    match pc
    case AtDrain => if nothingQueued then 6 else 13
    case AtExitTest => if nothingQueued then 5 else 12
    case AtLiveTest => if nothingQueued then 4 else 11
    case Suspended => if nothingQueued then 8 else 10
    case Collecting => if nothingQueued then 7 else 9
    case ExitCollecting(_) => 3
    case Clobbering(_) => 2
    case _ => 0
  }

  function ToEnd(s: State): (nat, nat) {
    (|s.objects.collectable|, Stage(s.pc, s.objects.collectable == {}))
  }

  lemma QuietMove(s: State, l: Label)
    requires Inv(s) && Quiet(s) && Enabled(s, l) && ServerMoves(l)
    ensures Quiet(Apply(s, l))
    ensures var m, n := ToEnd(Apply(s, l)), ToEnd(s);
            m.0 < n.0 || (m.0 == n.0 && m.1 < n.1)
  {
    QuietMeans(s);
  }

  lemma QuietOther(s: State, l: Label)
    requires Inv(s) && Quiet(s) && Enabled(s, l) && !ServerMoves(l) && l != Kill
    ensures Apply(s, l) == s
  {
    QuietMeans(s);
  }

  lemma QuietCan(s: State)
    requires Inv(s) && Quiet(s) && !s.pc.Dead?
    ensures ServerCan(s)
  {
    QuietMeans(s);
    var l := match s.pc
      case AtExitTest => TestExit
      case AtLiveTest => TestLive
      case Suspended => Wake
      case AtDrain => Peek
      case Clobbering(_) => ClobberDone
      case _ => PollNone;
    if s.objects.collectable != {} && CollectsGarbage(s.pc) {
      var w :| w in s.objects.collectable;
      assert ServerMoves(Poll(w)) && Enabled(s, Poll(w));
    } else {
      assert ServerMoves(l) && Enabled(s, l);
    }
  }

  lemma QuietStepAt(st: States, lab: Labels, i: nat)
    requires Infinite(st, lab) && Quiet(st(i)) && lab(i) != Kill
    ensures Quiet(st(i + 1))
    ensures !ServerMoves(lab(i)) ==> st(i + 1) == st(i)
    ensures ServerMoves(lab(i)) ==>
              var m, n := ToEnd(st(i + 1)), ToEnd(st(i));
              m.0 < n.0 || (m.0 == n.0 && m.1 < n.1)
  {
    StepAt(st, lab, i);
    if ServerMoves(lab(i)) {
      QuietMove(st(i), lab(i));
    } else {
      QuietOther(st(i), lab(i));
    }
  }

  lemma {:induction false} NothingHappens(st: States, lab: Labels, i: nat, n: nat)
    requires Infinite(st, lab) && Quiet(st(i)) && i <= n
    requires forall k | k >= i :: lab(k) != Kill && !ServerMoves(lab(k))
    ensures st(n) == st(i)
  {
    if i < n {
      NothingHappens(st, lab, i, n - 1);
      QuietStepAt(st, lab, n - 1);
    }
  }

  lemma MovesAgain(st: States, lab: Labels, i: nat) returns (k: nat)
    requires Infinite(st, lab) && Fair(st, lab) && Quiet(st(i)) && !st(i).pc.Dead?
    requires forall n | n >= i :: lab(n) != Kill
    ensures k >= i && ServerMoves(lab(k))
  {
    if forall n | n >= i :: !ServerMoves(lab(n)) {
      forall j | j >= i
        ensures CanLater(st, j)
      {
        NothingHappens(st, lab, i, j);
        InfiniteInv(st, lab, j);
        QuietCan(st(j));
      }
      assert ServerRecurs(st, i);
      assert false;
    }
    k :| k >= i && ServerMoves(lab(k));
  }

  lemma {:induction false} NextQuietMove(st: States, lab: Labels, i: nat, k: nat) returns (m: nat)
    requires Infinite(st, lab) && Quiet(st(i)) && i <= k && ServerMoves(lab(k))
    requires forall n | n >= i :: lab(n) != Kill
    ensures m > i && Quiet(st(m))
    ensures var a, b := ToEnd(st(m)), ToEnd(st(i)); a.0 < b.0 || (a.0 == b.0 && a.1 < b.1)
    decreases k - i
  {
    QuietStepAt(st, lab, i);
    m := i + 1;
    if !ServerMoves(lab(i)) {
      m := NextQuietMove(st, lab, i + 1, k);
    }
  }

  lemma {:induction false} Dies(st: States, lab: Labels, i: nat) returns (j: nat)
    requires Infinite(st, lab) && Fair(st, lab) && Quiet(st(i))
    requires forall n | n >= i :: lab(n) != Kill
    ensures j >= i && st(j).pc == Dead(true)
    decreases ToEnd(st(i)).0, ToEnd(st(i)).1
  {
    j := i;
    if st(i).pc.Dead? {
      InfiniteInv(st, lab, i);
      QuietMeans(st(i));
    } else {
      var k := MovesAgain(st, lab, i);
      var m := NextQuietMove(st, lab, i, k);
      j := Dies(st, lab, m);
    }
  }

  /** In every fair run without `kill`, the thread ends exactly if at some moment
      the peer is dead and the references of all wrappers created by then have been
      handed back by the garbage collector. */
  lemma DiesIff(st: States, lab: Labels)
    requires Infinite(st, lab) && Fair(st, lab) && forall n: nat :: lab(n) != Kill
    ensures (exists i :: st(i).pc == Dead(true))
       <==> (exists i :: !st(i).peerAlive && AllBack(st(i).objects))
  {
    if i: nat :| st(i).pc == Dead(true) {
      InfiniteInv(st, lab, i);
      assert !st(i).peerAlive && AllBack(st(i).objects);
    }
    if i: nat :| !st(i).peerAlive && AllBack(st(i).objects) {
      NobodyKills(st, lab, i);
      var j := Dies(st, lab, i);
    }
  }

  // ---------------------------------------------------------------- when that moment comes

  lemma {:induction false} CreatedBefore(st: States, lab: Labels, w: WrapperId, n: nat) returns (i: nat)
    requires Infinite(st, lab) && w in st(n).objects.wrappers
    ensures i < n && lab(i) == CreateWrapper(w)
  {
    StepAt(st, lab, n - 1);
    WrapperCameBy(st(n - 1), lab(n - 1), w);
    i := n - 1;
    if w in st(n - 1).objects.wrappers {
      i := CreatedBefore(st, lab, w, n - 1);
    }
  }

  lemma WrapperCameBy(s: State, l: Label, w: WrapperId)
    requires Enabled(s, l)
    ensures w in Apply(s, l).objects.wrappers <==> w in s.objects.wrappers || l == CreateWrapper(w)
    ensures w in s.objects.wrappers && s.objects.wrappers[w].enqueued ==> Apply(s, l).objects.wrappers[w].enqueued
    ensures l == Enqueue(w) ==> w in s.objects.wrappers && Apply(s, l).objects.wrappers[w].enqueued
  {
    if !l.Drop? && !l.Enqueue? && !l.CreateWrapper? && !l.Dispose? && !l.Poll? && !l.Clobber? {
      NoLife(s, l);
    }
  }

  lemma {:induction false} StaysBack(st: States, lab: Labels, w: WrapperId, j: nat, n: nat)
    requires Infinite(st, lab) && lab(j) == Enqueue(w) && j < n
    ensures w in st(n).objects.wrappers && st(n).objects.wrappers[w].enqueued
  {
    StepAt(st, lab, n - 1);
    WrapperCameBy(st(n - 1), lab(n - 1), w);
    if j < n - 1 {
      StaysBack(st, lab, w, j, n - 1);
    }
  }

  lemma {:induction false} SameWrappers(st: States, lab: Labels, n: nat, m: nat)
    requires Infinite(st, lab) && n <= m && forall i | i >= n :: !lab(i).CreateWrapper?
    ensures st(m).objects.wrappers.Keys == st(n).objects.wrappers.Keys
  {
    if n < m {
      SameWrappers(st, lab, n, m - 1);
      StepAt(st, lab, m - 1);
      forall w
        ensures w in st(m).objects.wrappers <==> w in st(m - 1).objects.wrappers
      {
        WrapperCameBy(st(m - 1), lab(m - 1), w);
      }
    }
  }

  /** Each wrapper is handed back at some time. */
  ghost predicate EachComesBack(lab: Labels) {
    forall i, w | lab(i) == CreateWrapper(w) :: ComesBack(lab, w)
  }

  ghost predicate ComesBack(lab: Labels, w: WrapperId) {
    exists j: nat :: lab(j) == Enqueue(w)
  }

  lemma {:induction false} BackTogether(st: States, lab: Labels, n: nat, ws: set<WrapperId>) returns (m: nat)
    requires Infinite(st, lab) && EachComesBack(lab) && ws <= st(n).objects.wrappers.Keys
    ensures forall w, k | w in ws && k >= m :: w in st(k).objects.wrappers && st(k).objects.wrappers[w].enqueued
    decreases |ws|
  {
    m := 0;
    if ws != {} {
      var w :| w in ws;
      var rest := BackTogether(st, lab, n, ws - {w});
      var i := CreatedBefore(st, lab, w, n);
      assert ComesBack(lab, w);
      var j: nat :| lab(j) == Enqueue(w);
      m := if rest > j then rest else j + 1;
      forall v, k | v in ws && k >= m
        ensures v in st(k).objects.wrappers && st(k).objects.wrappers[v].enqueued
      {
        if v == w {
          StaysBack(st, lab, w, j, k);
        } else {
          assert v in ws - {w};
        }
      }
    }
  }

  lemma {:induction false} DeadPeer(st: States, lab: Labels, i: nat, n: nat)
    requires Infinite(st, lab) && lab(i) == PeerDies && i < n
    ensures !st(n).peerAlive
  {
    StepAt(st, lab, n - 1);
    FlagsBy(st(n - 1), lab(n - 1));
    if i < n - 1 {
      DeadPeer(st, lab, i, n - 1);
    }
  }

  /** In every fair run without `kill` in which the peer dies, wrappers are created
      up to some time only, and each is handed back at some time, the thread ends. */
  lemma EndsByItself(st: States, lab: Labels, death: nat, n: nat)
    requires Infinite(st, lab) && Fair(st, lab) && (forall i: nat :: lab(i) != Kill)
    requires lab(death) == PeerDies
    requires (forall i | i >= n :: !lab(i).CreateWrapper?) && EachComesBack(lab)
    ensures exists i :: st(i).pc == Dead(true)
  {
    var back := BackTogether(st, lab, n, st(n).objects.wrappers.Keys);
    var m := n + back + death + 1;
    SameWrappers(st, lab, n, m);
    DeadPeer(st, lab, death, m);
    assert AllBack(st(m).objects);
    DiesIff(st, lab);
  }

  /** Wrappers are created for callers only: the same when from some time on
      nobody is inside `execute`. */
  lemma EndsWhenLeftAlone(st: States, lab: Labels, death: nat, n: nat)
    requires Infinite(st, lab) && Fair(st, lab) && (forall i: nat :: lab(i) != Kill)
    requires lab(death) == PeerDies && EachComesBack(lab)
    requires forall i, c | i >= n :: st(i).calls.PcOf(c).Idle?
    ensures exists i :: st(i).pc == Dead(true)
  {
    forall i | i >= n
      ensures !lab(i).CreateWrapper?
    {
      StepAt(st, lab, i);
      NobodyWaits(st(i).calls, st(i).pc);
    }
    EndsByItself(st, lab, death, n);
  }

  // ---------------------------------------------------------------- a thread that ends

  /** A finite run, after which nothing happens any more. */
  ghost function StatesOf(run: seq<Label>): States {
    (i: nat) => match Replay(run[..if i < |run| then i else |run|]) case Some(s) => s case None => Init
  }

  ghost function LabelsOf(run: seq<Label>): Labels {
    (i: nat) => if i < |run| then run[i] else Elsewhere
  }

  lemma {:induction false} PrefixReplays(run: seq<Label>, i: nat)
    requires Replay(run).Some? && i < |run|
    ensures Replay(run[..i]).Some? && Enabled(Replay(run[..i]).value, run[i])
    ensures Replay(run[..i + 1]) == Some(Apply(Replay(run[..i]).value, run[i]))
    decreases |run|
  {
    LastStep(Init, run);
    if i == |run| - 1 {
      assert run[..i + 1] == run;
    } else {
      var before := run[..|run| - 1];
      PrefixReplays(before, i);
      assert before[..i] == run[..i] && before[..i + 1] == run[..i + 1];
    }
  }

  lemma GoesOn(run: seq<Label>, i: nat)
    requires Replay(run).Some?
    ensures StepOk(StatesOf(run), LabelsOf(run), i)
  {
    if i < |run| {
      PrefixReplays(run, i);
    } else {
      assert run[..|run|] == run;
    }
  }

  /** A finite run that leaves the thread dead and nobody inside `execute` is fair. */
  lemma DeadRunIsFair(run: seq<Label>)
    requires Replay(run).Some? && Replay(run).value.pc.Dead? && forall c :: Replay(run).value.calls.PcOf(c).Idle?
    ensures Infinite(StatesOf(run), LabelsOf(run)) && Fair(StatesOf(run), LabelsOf(run))
    ensures StatesOf(run)(|run|) == Replay(run).value
  {
    var st, lab := StatesOf(run), LabelsOf(run);
    forall i: nat
      ensures StepOk(st, lab, i)
    {
      GoesOn(run, i);
    }
    assert run[..0] == [] && run[..|run|] == run && Replay([]) == Some(Init);
    assert st(0) == Init && st(|run|) == Replay(run).value;
    forall i: nat
      ensures !ServerRecurs(st, i)
    {
      assert forall k | k >= |run| :: !ServerCan(st(k));
      assert !CanLater(st, i + |run|);
    }
    forall c, i: nat
      ensures ActsOrCannot(st, lab, c, i)
    {
      assert !CallerCan(st(i + |run|), c);
    }
  }

  /** There are such runs: the peer dies at once, and the thread with it. */
  lemma ShortLife() returns (st: States, lab: Labels)
    ensures Infinite(st, lab) && Fair(st, lab) && forall i: nat :: lab(i) != Kill
    ensures EachComesBack(lab) && lab(0) == PeerDies && st(5).pc == Dead(true)
  {
    var run := ShortRun();
    DeadRunIsFair(run);
    st, lab := StatesOf(run), LabelsOf(run);
  }

  lemma ShortRun() returns (run: seq<Label>)
    ensures run == [PeerDies, TestExit, TestLive, PollNone, ClobberDone]
    ensures Replay(run) == Some(Init.(peerAlive := false, pc := Dead(true)))
  {
    var s := Init.(peerAlive := false);
    Then(Init, [], Init, PeerDies);
    Then(Init, [] + [PeerDies], s, TestExit);
    Then(Init, [] + [PeerDies] + [TestExit], s.(pc := AtLiveTest), TestLive);
    Then(Init, [] + [PeerDies] + [TestExit] + [TestLive], s.(pc := ExitCollecting(true)), PollNone);
    run := [] + [PeerDies] + [TestExit] + [TestLive] + [PollNone] + [ClobberDone];
    Then(Init, [] + [PeerDies] + [TestExit] + [TestLive] + [PollNone], s.(pc := Clobbering(true)), ClobberDone);
  }
}

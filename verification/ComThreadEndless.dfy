/** Everybody leaves `execute` again and again and every wrapper comes back, but
    the thread lives for ever: each call leaves a new wrapper behind before the one
    it came through is collected. */
module ComThreadEndless {
  import opened ComThreadProtocol
  import opened ComThreadFairness
  import opened ComThreadHistory
  import opened ComThreadLife

  const LAST: nat := 21

  /** In round 0 the peer calls, in each later one a caller that came by the
      wrapper created in the round before. */
  function User(r: nat): CallerId {
    if r == 0 then PEER else 1
  }

  function Hers(r: nat): Task {
    Task(User(r), 0)
  }

  function Way(r: nat): Origin {
    if r == 0 then AsPeer else Through(r - 1)
  }

  /** What happens in a round. */
  function LabelAt(r: nat, phase: nat): Label {
    match phase
    case 0 => Enter(User(r), Hers(r), Way(r))
    case 1 => Add(User(r))
    case 2 => Check(User(r))
    case 3 => TestExit
    case 4 => if r == 0 then Elsewhere else TestLive
    case 5 => Wake
    case 6 => PollNone
    case 7 => Peek
    case 8 => Remove
    case 9 => EnterInvoke
    case 10 => CreateWrapper(r)
    case 11 => Finish(Returned(None))
    case 12 => SetDone
    case 13 => Notify
    case 14 => Reacquire(User(r))
    case 15 => Check(User(r))
    case 16 => Leave(User(r))
    case 17 => if r == 0 then PeerDies else Drop(r - 1)
    case 18 => if r == 0 then Elsewhere else Enqueue(r - 1)
    case 19 => if r == 0 then Elsewhere else Poll(r - 1)
    case 20 => PollNone
    case _ => Peek
  }

  // ---------------------------------------------------------------- the states of a round

  function ServerAt(r: nat, phase: nat): ServerPc {
    if phase <= 3 then AtExitTest
    else if phase == 4 then (if r == 0 then Suspended else AtLiveTest)
    else if phase == 5 then Suspended
    else if phase == 6 || 14 <= phase <= 20 then Collecting
    else if phase == 7 || phase > 20 then AtDrain
    else if phase == 8 then Peeked(Hers(r))
    else if phase == 9 then Popped(Hers(r))
    else if phase <= 11 then Running(Hers(r))
    else if phase == 12 then Finishing(Hers(r))
    else Notifying(Hers(r))
  }

  predicate UserAt(p: CallerPc, r: nat, phase: nat) {
    && (p.Idle? <==> phase == 0 || phase > 16)
    && (p.Idle? || (p.task == Hers(r) && p.origin == Way(r)))
    && (phase == 1 ==> p.Entered?) && (phase == 2 || phase == 15 ==> p.Checking?)
    && (3 <= phase <= 13 ==> p.Waiting?) && (phase == 14 ==> p.Notified?) && (phase == 16 ==> p.Leaving?)
  }

  ghost predicate CallsAt(k: Calls, r: nat, phase: nat) {
    && (forall c :: c != User(r) ==> PcAt(k.callers, c).Idle?) && UserAt(PcAt(k.callers, User(r)), r, phase)
    && k.taskList == (if 2 <= phase <= 8 then [Hers(r)] else [])
    && (1 <= phase <= 16 ==> (CellAt(k.cells, Hers(r)).done <==> phase > 12))
  }

  ghost predicate ObjectsAt(o: Objects, r: nat, phase: nat) {
    && (forall w: WrapperId :: w in o.wrappers <==> w < if phase <= 10 then r else r + 1)
    && o.collectable == (if r > 0 && phase == 19 then {r - 1} else {})
    && (r > 0 ==> (o.wrappers[r - 1].reachable <==> phase <= 17) && (o.wrappers[r - 1].enqueued <==> phase > 18))
    && (phase > 10 ==> o.wrappers[r].reachable && !o.wrappers[r].enqueued)
  }

  ghost predicate OnTrack(s: State, r: nat, phase: nat) {
    && phase <= LAST && !s.die && (s.peerAlive <==> r == 0 && phase <= 17)
    && s.pc == ServerAt(r, phase) && CallsAt(s.calls, r, phase) && ObjectsAt(s.objects, r, phase)
  }

  /** What the steps need of the invariant. */
  ghost predicate Sound(s: State) {
    MonitorInv(s.calls.cells, s.calls.callers, s.pc) && ObjectsInv(s.objects, s.pc)
  }

  lemma CallerEnters(s: State, r: nat)
    requires Sound(s) && OnTrack(s, r, 0)
    ensures Enabled(s, LabelAt(r, 0)) && OnTrack(Apply(s, LabelAt(r, 0)), r, 1)
  {
  }

  lemma CallerWaits(s: State, r: nat, phase: nat)
    requires Sound(s) && OnTrack(s, r, phase) && 1 <= phase <= 2
    ensures Enabled(s, LabelAt(r, phase)) && OnTrack(Apply(s, LabelAt(r, phase)), r, phase + 1)
  {
  }

  lemma CallerGoes(s: State, r: nat, phase: nat)
    requires Sound(s) && OnTrack(s, r, phase) && 14 <= phase <= 16
    ensures Enabled(s, LabelAt(r, phase)) && OnTrack(Apply(s, LabelAt(r, phase)), r, phase + 1)
  {
  }

  lemma ThreadLooks(s: State, r: nat, phase: nat)
    requires Sound(s) && OnTrack(s, r, phase) && (3 <= phase <= 8 || phase == 20)
    ensures Enabled(s, LabelAt(r, phase)) && OnTrack(Apply(s, LabelAt(r, phase)), r, phase + 1)
  {
  }

  lemma ThreadRuns(s: State, r: nat, phase: nat)
    requires Sound(s) && OnTrack(s, r, phase) && (phase == 9 || phase == 11 || phase == 12)
    ensures Enabled(s, LabelAt(r, phase)) && OnTrack(Apply(s, LabelAt(r, phase)), r, phase + 1)
  {
  }

  lemma ThreadNotifies(s: State, r: nat)
    requires Sound(s) && OnTrack(s, r, 13)
    ensures Enabled(s, LabelAt(r, 13)) && OnTrack(Apply(s, LabelAt(r, 13)), r, 14)
  {
  }

  lemma WrappersChange(s: State, r: nat, phase: nat)
    requires Sound(s) && OnTrack(s, r, phase) && (phase == 10 || 17 <= phase <= 19)
    ensures Enabled(s, LabelAt(r, phase)) && OnTrack(Apply(s, LabelAt(r, phase)), r, phase + 1)
  {
  }

  lemma RoundEnds(s: State, r: nat)
    requires Sound(s) && OnTrack(s, r, LAST)
    ensures Enabled(s, LabelAt(r, LAST)) && OnTrack(Apply(s, LabelAt(r, LAST)), r + 1, 0)
  {
  }

  // ---------------------------------------------------------------- the whole run

  lemma Advances(s: State, r: nat, phase: nat)
    requires Sound(s) && OnTrack(s, r, phase)
    ensures Enabled(s, LabelAt(r, phase))
    ensures if phase == LAST then OnTrack(Apply(s, LabelAt(r, phase)), r + 1, 0)
            else OnTrack(Apply(s, LabelAt(r, phase)), r, phase + 1)
  {
    if phase == 0 {
      CallerEnters(s, r);
    } else if phase <= 2 {
      CallerWaits(s, r, phase);
    } else if phase <= 8 || phase == 20 {
      ThreadLooks(s, r, phase);
    } else if phase in {9, 11, 12} {
      ThreadRuns(s, r, phase);
    } else if phase == 13 {
      ThreadNotifies(s, r);
    } else if 14 <= phase <= 16 {
      CallerGoes(s, r, phase);
    } else if phase == LAST {
      RoundEnds(s, r);
    } else {
      WrappersChange(s, r, phase);
    }
  }

  /** The round and the phase at a time. */
  function Clock(i: nat): (nat, nat) {
    if i == 0 then (0, 0)
    else
      var (r, phase) := Clock(i - 1);
      if phase == LAST then (r + 1, 0) else (r, phase + 1)
  }

  function LabelNo(i: nat): Label {
    LabelAt(Clock(i).0, Clock(i).1)
  }

  ghost function StateNo(i: nat): State {
    if i == 0 then Init
    else if Enabled(StateNo(i - 1), LabelNo(i - 1)) then Apply(StateNo(i - 1), LabelNo(i - 1))
    else StateNo(i - 1)
  }

  lemma StartsOnTrack()
    ensures Inv(Init) && OnTrack(Init, 0, 0)
  {
    InitInv();
  }

  lemma GoesOnTrack(s: State, r: nat, phase: nat)
    requires Inv(s) && OnTrack(s, r, phase)
    ensures Enabled(s, LabelAt(r, phase)) && Inv(Apply(s, LabelAt(r, phase)))
    ensures if phase == LAST then OnTrack(Apply(s, LabelAt(r, phase)), r + 1, 0)
            else OnTrack(Apply(s, LabelAt(r, phase)), r, phase + 1)
  {
    Advances(s, r, phase);
    StepInv(s, LabelAt(r, phase));
  }

  lemma {:induction false} StaysOnTrack(i: nat)
    ensures Inv(StateNo(i)) && OnTrack(StateNo(i), Clock(i).0, Clock(i).1)
  {
    if i == 0 {
      StartsOnTrack();
    } else {
      StaysOnTrack(i - 1);
      GoesOnTrack(StateNo(i - 1), Clock(i - 1).0, Clock(i - 1).1);
    }
  }

  lemma FoundAt(i: nat)
    ensures !Exiting(StateNo(i).pc) && (Clock(i).1 == 0 ==> forall c :: StateNo(i).calls.PcOf(c).Idle?)
    ensures Enabled(StateNo(i), LabelNo(i)) && StateNo(i + 1) == Apply(StateNo(i), LabelNo(i))
  {
    StaysOnTrack(i);
    GoesOnTrack(StateNo(i), Clock(i).0, Clock(i).1);
    NoneInside(StateNo(i), Clock(i).0, Clock(i).1);
  }

  lemma NoneInside(s: State, r: nat, phase: nat)
    requires OnTrack(s, r, phase)
    ensures !Exiting(s.pc) && (phase == 0 ==> forall c :: s.calls.PcOf(c).Idle?)
  {
  }

  lemma {:induction false} PhaseIn(i: nat)
    ensures Clock(i).1 <= LAST
  {
    if i > 0 {
      PhaseIn(i - 1);
    }
  }

  /** Every later phase of a round comes. */
  lemma {:induction false} Later(i: nat, phase: nat) returns (k: nat)
    requires Clock(i).1 <= phase <= LAST
    ensures k >= i && Clock(k) == (Clock(i).0, phase)
    decreases phase - Clock(i).1
  {
    k := i;
    if Clock(i).1 < phase {
      k := Later(i + 1, phase);
    }
  }

  /** And the next round. */
  lemma NextRound(i: nat, phase: nat) returns (k: nat)
    requires phase <= LAST
    ensures k >= i && Clock(k) == (Clock(i).0 + 1, phase)
  {
    PhaseIn(i);
    var end := Later(i, LAST);
    k := Later(end + 1, phase);
  }

  ghost function EndlessStates(): States {
    (i: nat) => StateNo(i)
  }

  ghost function EndlessLabels(): Labels {
    (i: nat) => LabelNo(i)
  }

  lemma EndlessIsRun()
    ensures Infinite(EndlessStates(), EndlessLabels())
  {
    forall i: nat
      ensures StepOk(EndlessStates(), EndlessLabels(), i)
    {
      FoundAt(i);
    }
  }

  ghost predicate IdleAgain(st: States, c: CallerId, i: nat) {
    exists k: nat :: k >= i && st(k).calls.PcOf(c).Idle?
  }

  lemma AllIdleAgain(i: nat) returns (k: nat)
    ensures k >= i && Clock(k).1 == 3
    ensures forall c :: IdleAgain(EndlessStates(), c, i) && ActsOrCannot(EndlessStates(), EndlessLabels(), c, i)
  {
    var start := NextRound(i, 0);
    FoundAt(start);
    var s := EndlessStates()(start);
    forall c
      ensures IdleAgain(EndlessStates(), c, i) && ActsOrCannot(EndlessStates(), EndlessLabels(), c, i)
    {
      assert s.calls.PcOf(c).Idle?;
      CannotAct(s, c);
    }
    k := Later(start, 3);
  }

  lemma CannotAct(s: State, c: CallerId)
    requires s.calls.PcOf(c).Idle?
    ensures !CallerCan(s, c)
  {
  }

  lemma EndlessIsFair()
    ensures Fair(EndlessStates(), EndlessLabels())
    ensures forall c, i: nat :: IdleAgain(EndlessStates(), c, i)
  {
    forall c, i: nat
      ensures IdleAgain(EndlessStates(), c, i) && ActsOrCannot(EndlessStates(), EndlessLabels(), c, i)
    {
      var _ := AllIdleAgain(i);
    }
    forall i: nat
      ensures MovesLater(EndlessLabels(), i)
    {
      var k := AllIdleAgain(i);
      assert EndlessLabels()(k) == TestExit;
    }
  }

  lemma CreatedIn(r: nat, phase: nat, w: WrapperId)
    requires phase <= LAST && LabelAt(r, phase) == CreateWrapper(w)
    ensures phase == 10 && r == w
  {
  }

  lemma ComesBackNext(i: nat, w: WrapperId)
    requires LabelNo(i) == CreateWrapper(w)
    ensures ComesBack(EndlessLabels(), w)
  {
    PhaseIn(i);
    CreatedIn(Clock(i).0, Clock(i).1, w);
    var k := NextRound(i, 18);
    assert EndlessLabels()(k) == Enqueue(w);
  }

  lemma WrappersComeBack()
    ensures EachComesBack(EndlessLabels())
  {
    forall i: nat, w | EndlessLabels()(i) == CreateWrapper(w)
      ensures ComesBack(EndlessLabels(), w)
    {
      ComesBackNext(i, w);
    }
  }

  /** So it is not enough for the end of the thread that the peer dies, that nobody
      stays inside for ever and that every wrapper comes back: here is a fair run
      without `kill` in which all of this holds and the thread never dies. */
  lemma ForeverAlive() returns (st: States, lab: Labels, death: nat)
    ensures Infinite(st, lab) && Fair(st, lab) && forall i: nat :: lab(i) != Kill
    ensures lab(death) == PeerDies && EachComesBack(lab)
    ensures forall c, i: nat :: IdleAgain(st, c, i)
    ensures forall i: nat :: !Exiting(st(i).pc)
  {
    st, lab := EndlessStates(), EndlessLabels();
    EndlessIsRun();
    EndlessIsFair();
    WrappersComeBack();
    death := PeerDiesAt();
    NeverExits();
  }

  lemma PeerDiesAt() returns (death: nat)
    ensures EndlessLabels()(death) == PeerDies
  {
    death := Later(0, 17);
  }

  lemma NeverExits()
    ensures forall i: nat :: !Exiting(EndlessStates()(i).pc) && EndlessLabels()(i) != Kill
  {
    forall i: nat
      ensures !Exiting(EndlessStates()(i).pc) && EndlessLabels()(i) != Kill
    {
      FoundAt(i);
      NoKill(Clock(i).0, Clock(i).1);
    }
  }

  lemma NoKill(r: nat, phase: nat)
    ensures LabelAt(r, phase) != Kill
  {
  }
}

/** What a state remembers of its run, said in terms of the labels alone. */
module ComThreadHistory {
  import opened ComThreadProtocol
  import opened ComThreadRuns

  // ---------------------------------------------------------------- the last action of a run

  lemma {:induction false} LastStep(s: State, run: seq<Label>)
    requires Continue(s, run).Some? && run != []
    ensures var before := Continue(s, run[..|run| - 1]);
            && before.Some? && Enabled(before.value, run[|run| - 1])
            && Continue(s, run) == Some(Apply(before.value, run[|run| - 1]))
    decreases |run|
  {
    if |run| == 1 {
      assert run[..0] == [] && run[1..] == [];
    } else {
      var rest := run[1..];
      LastStep(Apply(s, run[0]), rest);
      assert run[..|run| - 1][1..] == rest[..|rest| - 1];
    }
  }

  // ---------------------------------------------------------------- calls

  /** The Task with which a caller has entered last. */
  function Entered(run: seq<Label>, c: CallerId): Option<Task> {
    if run == [] then None
    else
      var l := run[|run| - 1];
      if l.Enter? && l.c == c then Some(l.task) else Entered(run[..|run| - 1], c)
  }

  /** Who has appended which Task, in order. */
  function Appended(run: seq<Label>): seq<(CallerId, Option<Task>)> {
    if run == [] then []
    else
      var before, l := run[..|run| - 1], run[|run| - 1];
      Appended(before) + if l.Add? then [(l.c, Entered(before, l.c))] else []
  }

  /** How the executions of `call()` have ended, in order. */
  function Ended(run: seq<Label>): seq<Outcome> {
    if run == [] then []
    else
      var before, l := run[..|run| - 1], run[|run| - 1];
      Ended(before) + if l.Finish? then [l.outcome] else []
  }

  /** Who has returned, in order. */
  function Left(run: seq<Label>): seq<CallerId> {
    if run == [] then []
    else
      var before, l := run[..|run| - 1], run[|run| - 1];
      Left(before) + if l.Leave? then [l.c] else []
  }

  /** One action adds to the histories what its label says. */
  lemma AppendedBy(s: State, l: Label)
    requires Enabled(s, l)
    ensures Apply(s, l).calls.submitted ==
            s.calls.submitted + if l.Add? then [Submission(l.c, s.calls.PcOf(l.c).task)] else []
  {
  }

  lemma EndedBy(s: State, l: Label)
    requires Enabled(s, l)
    ensures Apply(s, l).calls.ran == s.calls.ran + if l.Finish? then [Execution(s.pc.task, l.outcome)] else []
  {
  }

  lemma LeftBy(s: State, l: Label)
    requires Enabled(s, l)
    ensures var answered := Apply(s, l).calls.answered;
            if l.Leave? then
              |answered| == |s.calls.answered| + 1 && answered[..|s.calls.answered|] == s.calls.answered
              && answered[|s.calls.answered|].caller == l.c
            else answered == s.calls.answered
  {
  }

  lemma EnteredBy(s: State, l: Label, c: CallerId)
    requires Enabled(s, l) && !Apply(s, l).calls.PcOf(c).Idle?
    ensures if l.Enter? && l.c == c then Apply(s, l).calls.PcOf(c).task == l.task
            else !s.calls.PcOf(c).Idle? && Apply(s, l).calls.PcOf(c).task == s.calls.PcOf(c).task
  {
  }

  /** In every reachable state, whoever is inside `execute` is there with the Task
      it has entered with last. */
  lemma {:induction false} InsideAsEntered(run: seq<Label>, c: CallerId)
    requires Replay(run).Some? && !Replay(run).value.calls.PcOf(c).Idle?
    ensures Entered(run, c) == Some(Replay(run).value.calls.PcOf(c).task)
    decreases |run|
  {
    if run != [] {
      var before, l := run[..|run| - 1], run[|run| - 1];
      LastStep(Init, run);
      EnteredBy(Replay(before).value, l, c);
      if !(l.Enter? && l.c == c) {
        InsideAsEntered(before, c);
      }
    }
  }

  /** In every run, the submissions are what `Add` actions have appended, each
      with the Task its caller had entered with. */
  lemma {:induction false} SubmittedAsAppended(run: seq<Label>)
    requires Replay(run).Some?
    ensures var submitted := Replay(run).value.calls.submitted;
      && |submitted| == |Appended(run)|
      && forall i | 0 <= i < |submitted| :: Appended(run)[i] == (submitted[i].caller, Some(submitted[i].task))
    decreases |run|
  {
    if run != [] {
      var before, l := run[..|run| - 1], run[|run| - 1];
      LastStep(Init, run);
      SubmittedAsAppended(before);
      AppendedBy(Replay(before).value, l);
      if l.Add? {
        InsideAsEntered(before, l.c);
      }
    }
  }

  /** The executions have the outcomes that the ends of `call()` had. */
  lemma {:induction false} RanAsEnded(run: seq<Label>)
    requires Replay(run).Some?
    ensures var ran := Replay(run).value.calls.ran;
      && |ran| == |Ended(run)|
      && forall i | 0 <= i < |ran| :: ran[i].outcome == Ended(run)[i]
    decreases |run|
  {
    if run != [] {
      LastStep(Init, run);
      RanAsEnded(run[..|run| - 1]);
      EndedBy(Replay(run[..|run| - 1]).value, run[|run| - 1]);
    }
  }

  lemma {:induction false} AnsweredAsLeft(run: seq<Label>)
    requires Replay(run).Some?
    ensures var answered := Replay(run).value.calls.answered;
      && |answered| == |Left(run)|
      && forall i | 0 <= i < |answered| :: answered[i].caller == Left(run)[i]
    decreases |run|
  {
    if run != [] {
      var before, l := run[..|run| - 1], run[|run| - 1];
      LastStep(Init, run);
      AnsweredAsLeft(before);
      LeftBy(Replay(before).value, l);
      var was, now := Replay(before).value.calls.answered, Replay(run).value.calls.answered;
      forall i | 0 <= i < |was|
        ensures now[i] == was[i]
      {
        assert now[..|was|][i] == now[i];
      }
    }
  }

  /** Every caller that left took away the outcome with which the execution of
      its own submission ended: number `j` of the submissions was appended by it
      with the Task that execution number `j` ran. */
  lemma LeavesWithOwnOutcome(run: seq<Label>, i: nat) returns (j: nat)
    requires Replay(run).Some? && i < |Left(run)|
    ensures i < |Replay(run).value.calls.answered|
    ensures j < |Appended(run)| && j < |Ended(run)| == |Replay(run).value.calls.ran|
    ensures Appended(run)[j].0 == Left(run)[i]
    ensures Replay(run).value.calls.answered[i].outcome == Ended(run)[j]
    ensures Appended(run)[j].1 == Some(Replay(run).value.calls.ran[j].task)
  {
    SubmittedAsAppended(run);
    RanAsEnded(run);
    AnsweredAsLeft(run);
    ReturnsOwnOutcome(run, i);
    j := Replay(run).value.calls.answered[i].slot;
  }

  // ---------------------------------------------------------------- the environment

  lemma {:induction false} FlagsAsLabelled(run: seq<Label>)
    requires Replay(run).Some?
    ensures Replay(run).value.peerAlive <==> PeerDies !in run
    ensures Replay(run).value.die <==> Kill in run
    decreases |run|
  {
    if run != [] {
      var before, l := run[..|run| - 1], run[|run| - 1];
      LastStep(Init, run);
      FlagsAsLabelled(before);
      assert run == before + [l];
      FlagsBy(Replay(before).value, l);
    }
  }

  lemma FlagsBy(s: State, l: Label)
    requires Enabled(s, l)
    ensures Apply(s, l).peerAlive == (s.peerAlive && l != PeerDies)
    ensures Apply(s, l).die == (s.die || l == Kill)
  {
  }

  // ---------------------------------------------------------------- wrappers

  /** What one action does to one wrapper. */
  ghost predicate Lives(o: Objects, o': Objects, l: Label, w: WrapperId) {
    && (w in o'.wrappers <==> w in o.wrappers || l == CreateWrapper(w))
    && (w in o'.collectable <==> (w in o.collectable || l == Enqueue(w)) && l != Poll(w))
    && (l == CreateWrapper(w) ==> w !in o.wrappers && o'.wrappers[w] == Wrapper(true, false, false, true, 0))
    && (w in o.wrappers ==>
          var x, y := o.wrappers[w], o'.wrappers[w];
          && y.reachable == (x.reachable && l != Drop(w))
          && y.enqueued == (x.enqueued || l == Enqueue(w))
          && y.disposed == (x.disposed || l == Dispose(w))
          && (y.released == 1 <==> x.released == 1 || l == Dispose(w) || l == Poll(w) || l == Clobber(w)))
    && (w !in o.wrappers ==>
          l != Drop(w) && l != Enqueue(w) && l != Dispose(w) && l != Poll(w) && l != Clobber(w))
    && (l == Poll(w) ==> w in o.collectable)
    && (l == Enqueue(w) ==> !o.wrappers[w].enqueued)
  }

  /** A disposed wrapper has been released. */
  ghost predicate DisposedReleased(o: Objects) {
    forall w | w in o.wrappers && o.wrappers[w].disposed :: !o.wrappers[w].owns
  }

  lemma DisposedReleasedStep(s: State, l: Label)
    requires DisposedReleased(s.objects) && Enabled(s, l)
    ensures DisposedReleased(Apply(s, l).objects)
  {
  }

  lemma LivesStep(s: State, l: Label, w: WrapperId)
    requires ObjectsInv(s.objects, s.pc) && DisposedReleased(s.objects) && Enabled(s, l)
    ensures Lives(s.objects, Apply(s, l).objects, l, w)
  {
    if l.Drop? || l.Enqueue? || l.CreateWrapper? || l.Dispose? || l.Poll? || l.Clobber? {
      if l.w == w {
        OwnLife(s, l);
      } else {
        OtherLife(s, l, w);
      }
    } else {
      NoLife(s, l);
    }
  }

  lemma NoLife(s: State, l: Label)
    requires Enabled(s, l)
    requires !l.Drop? && !l.Enqueue? && !l.CreateWrapper? && !l.Dispose? && !l.Poll? && !l.Clobber?
    ensures Apply(s, l).objects == s.objects
  {
  }

  lemma OtherLife(s: State, l: Label, w: WrapperId)
    requires Enabled(s, l) && (l.Drop? || l.Enqueue? || l.CreateWrapper? || l.Dispose? || l.Poll? || l.Clobber?)
    requires l.w != w
    ensures Lives(s.objects, Apply(s, l).objects, l, w)
  {
  }

  lemma OwnLife(s: State, l: Label)
    requires ObjectsInv(s.objects, s.pc) && DisposedReleased(s.objects) && Enabled(s, l)
    requires l.Drop? || l.Enqueue? || l.CreateWrapper? || l.Dispose? || l.Poll? || l.Clobber?
    ensures Lives(s.objects, Apply(s, l).objects, l, l.w)
  {
  }

  /** The life of a wrapper as the labels tell it. */
  ghost predicate ObjectAsLabelled(o: Objects, run: seq<Label>, w: WrapperId) {
    && (w in o.wrappers <==> CreateWrapper(w) in run)
    && (w in o.wrappers ==>
          var x := o.wrappers[w];
          && (x.reachable <==> Drop(w) !in run)
          && (x.enqueued <==> Enqueue(w) in run)
          && (x.disposed <==> Dispose(w) in run)
          && (x.released == 1 <==> Dispose(w) in run || Poll(w) in run || Clobber(w) in run))
    && (w in o.collectable <==> Enqueue(w) in run && Poll(w) !in run)
    && (Poll(w) in run ==> Enqueue(w) in run)
    && (w !in o.wrappers ==>
          Drop(w) !in run && Enqueue(w) !in run && Dispose(w) !in run && Poll(w) !in run && Clobber(w) !in run)
  }

  lemma LabelledNext(o: Objects, o': Objects, before: seq<Label>, l: Label, w: WrapperId)
    requires Lives(o, o', l, w) && ObjectAsLabelled(o, before, w)
    ensures ObjectAsLabelled(o', before + [l], w)
  {
  }

  /** In every run: a wrapper exists once it was created, is reachable until it is
      dropped, waits in the reference queue from being enqueued until it is polled,
      and its pointer has been released exactly if it was disposed, polled or
      clobbered. */
  lemma {:induction false} ObjectsAsLabelled(run: seq<Label>, w: WrapperId)
    requires Replay(run).Some?
    ensures ObjectAsLabelled(Replay(run).value.objects, run, w) && DisposedReleased(Replay(run).value.objects)
    decreases |run|
  {
    if run == [] {
      NoObjectsYet(w);
    } else {
      LastStep(Init, run);
      ObjectsAsLabelled(run[..|run| - 1], w);
      ObjectsAtLast(run, w);
    }
  }

  lemma ObjectsAtLast(run: seq<Label>, w: WrapperId)
    requires run != [] && Replay(run).Some? && Replay(run[..|run| - 1]).Some?
    requires var o := Replay(run[..|run| - 1]).value.objects;
             ObjectAsLabelled(o, run[..|run| - 1], w) && DisposedReleased(o)
    ensures ObjectAsLabelled(Replay(run).value.objects, run, w) && DisposedReleased(Replay(run).value.objects)
  {
    var before, l := run[..|run| - 1], run[|run| - 1];
    LastStep(Init, run);
    RunInv(before);
    ObjectsNext(Replay(before).value, before, l, w);
    assert run == before + [l];
  }

  lemma NoObjectsYet(w: WrapperId)
    ensures Replay([]) == Some(Init) && ObjectAsLabelled(Init.objects, [], w) && DisposedReleased(Init.objects)
  {
  }

  lemma ObjectsNext(s: State, before: seq<Label>, l: Label, w: WrapperId)
    requires Inv(s) && Enabled(s, l) && ObjectAsLabelled(s.objects, before, w) && DisposedReleased(s.objects)
    ensures ObjectAsLabelled(Apply(s, l).objects, before + [l], w) && DisposedReleased(Apply(s, l).objects)
  {
    LivesStep(s, l, w);
    LabelledNext(s.objects, Apply(s, l).objects, before, l, w);
    DisposedReleasedStep(s, l);
  }

  // ---------------------------------------------------------------- the exit of the thread

  lemma AllPolledIff(run: seq<Label>)
    requires Replay(run).Some? && !Replay(run).value.pc.Clobbering? && !Replay(run).value.pc.Dead?
    ensures Replay(run).value.objects.liveComObjects == {}
       <==> forall w | CreateWrapper(w) in run :: Poll(w) in run
  {
    var s := Replay(run).value;
    RunInv(run);
    forall w
      ensures w in s.objects.liveComObjects <==> CreateWrapper(w) in run && Poll(w) !in run
    {
      ObjectsAsLabelled(run, w);
      LiveIff(s.objects, s.pc, w);
    }
  }

  lemma LiveIff(o: Objects, pc: ServerPc, w: WrapperId)
    requires ObjectsInv(o, pc) && !pc.Clobbering? && !pc.Dead?
    ensures w in o.liveComObjects <==> w in o.wrappers && (!o.wrappers[w].enqueued || w in o.collectable)
  {
  }

  lemma LeavesLoopBy(s: State, l: Label)
    requires Enabled(s, l) && IsServerLabel(l) && !Exiting(s.pc)
    ensures Exiting(Apply(s, l).pc) <==>
              (s.pc.AtExitTest? && s.die) || (s.pc.AtLiveTest? && s.objects.liveComObjects == {})
    ensures s.pc.AtExitTest? ==> (Apply(s, l).pc.AtLiveTest? <==> !s.die && !s.peerAlive)
  {
  }

  /** In every run, the thread goes on to ask for wrappers exactly if nobody has
      killed it and the peer has died; and its next step leaves the loop exactly if
      it has been killed, at the head of the loop, or if, on asking, the reference
      of every wrapper ever created has been handed back and polled. */
  lemma LeavesLoopIff(run: seq<Label>, l: Label)
    requires Replay(run).Some? && Enabled(Replay(run).value, l) && IsServerLabel(l)
    requires !Exiting(Replay(run).value.pc)
    ensures var pc := Replay(run).value.pc;
      && (Exiting(Apply(Replay(run).value, l).pc) <==>
            || (pc.AtExitTest? && Kill in run)
            || (pc.AtLiveTest? && forall w | CreateWrapper(w) in run :: Poll(w) in run))
      && (pc.AtExitTest? ==> (Apply(Replay(run).value, l).pc.AtLiveTest? <==> Kill !in run && PeerDies in run))
      && (pc.AtLiveTest? ==> PeerDies in run)
  {
    RunInv(run);
    FlagsAsLabelled(run);
    AllPolledIff(run);
    LeavesLoopBy(Replay(run).value, l);
  }

  // ---------------------------------------------------------------- garbage between Tasks

  /** An empty reference queue: what was handed back has been polled. */
  lemma QueueFoundEmpty(run: seq<Label>, w: WrapperId)
    requires Replay(run).Some? && Enabled(Replay(run).value, PollNone)
    ensures Enqueue(w) in run ==> Poll(w) in run
  {
    ObjectsAsLabelled(run, w);
  }

  lemma GoesOnCollecting(s: State, l: Label)
    requires s.pc.Collecting? && Enabled(s, l) && l != PollNone
    ensures Apply(s, l).pc.Collecting? && l != Peek
  {
  }

  lemma CollectsAfterNotify(s: State)
    requires Enabled(s, Notify)
    ensures Apply(s, Notify).pc.Collecting?
  {
  }

  lemma {:induction false} CollectingUntil(s: State, rest: seq<Label>, j: nat)
    requires Continue(s, rest).Some? && s.pc.Collecting? && j < |rest| && rest[j] == Peek
    ensures exists k :: 0 <= k < j && rest[k] == PollNone
    decreases |rest|
  {
    if rest[0] == PollNone {
      assert j > 0;
    } else {
      GoesOnCollecting(s, rest[0]);
      CollectingUntil(Apply(s, rest[0]), rest[1..], j - 1);
      var k :| 0 <= k < j - 1 && rest[1..][k] == PollNone;
      assert rest[k + 1] == PollNone;
    }
  }

  /** After every Task the thread collects garbage until nothing is left before it
      looks for another one. */
  lemma CollectsBetweenTasks(s: State, rest: seq<Label>, j: nat)
    requires Continue(s, [Notify] + rest).Some? && j < |rest| && rest[j] == Peek
    ensures exists k :: 0 <= k < j && rest[k] == PollNone
  {
    assert ([Notify] + rest)[1..] == rest;
    CollectsAfterNotify(s);
    CollectingUntil(Apply(s, Notify), rest, j);
  }

  // ---------------------------------------------------------------- entering

  /** Whoever is outside `execute` can enter it with each Task of its own, the peer
      while it lives, anybody through a wrapper that was created and not dropped:
      nobody keeps the monitor of a Task that is not in use. */
  lemma MayEnter(run: seq<Label>, c: CallerId, t: Task, origin: Origin)
    requires Replay(run).Some? && Replay(run).value.calls.PcOf(c).Idle? && t.owner == c
    requires c == PEER ==> PeerDies !in run
    requires if origin.AsPeer? then c == PEER
             else CreateWrapper(origin.wrapper) in run && Drop(origin.wrapper) !in run
    ensures Enabled(Replay(run).value, Enter(c, t, origin))
  {
    var s := Replay(run).value;
    RunInv(run);
    FlagsAsLabelled(run);
    if origin.Through? {
      ObjectsAsLabelled(run, origin.wrapper);
    }
    MonitorFree(s.calls, s.pc, c, t);
  }

  lemma MonitorFree(k: Calls, pc: ServerPc, c: CallerId, t: Task)
    requires CallsInv(k, pc) && k.PcOf(c).Idle? && t.owner == c
    ensures k.CellOf(t).monitor.Free?
  {
    assert pc.Running? ==> k.submitted[|k.ran|].task == pc.task;
    assert !CallerInside(k.callers, t);
  }
}

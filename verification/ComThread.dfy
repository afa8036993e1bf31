/** The life of one COM thread: callers hand tasks to it through a queue and a
    per-task monitor, wrappers come and go, and the thread finally exits.

    The protocol is a labelled transition system.  A label names one atomic
    action of a caller, of the COM thread or of the environment (garbage
    collector, peer thread, `kill`).  `Enabled` says when an action can happen
    and `Apply` what it does; a run is any sequence of enabled labels from
    `Init`, so a statement about all runs is a statement about all interleavings.
 */
module ComThreadProtocol {

  datatype Option<+T> = None | Some(value: T)

  type CallerId = nat
  type WrapperId = nat

  /** The caller that is the peer of this COM thread. */
  const PEER: CallerId := 0

  /** Every task object is used by one caller only, which may reuse it. */
  datatype Task = Task(owner: CallerId, serial: nat)

  /** What `call()` did: a value (`None` is null) or a throwable. */
  datatype Outcome = Returned(value: Option<int>) | Thrown(exception: int)

  datatype Holder = Free | HeldByCaller | HeldByServer

  /** The fields of a Task, and who is inside its monitor. */
  datatype Cell = Cell(done: bool, result: Option<int>, exception: Option<int>, monitor: Holder) {
    function Outcome(): Outcome {
      if exception.Some? then Thrown(exception.value) else Returned(result)
    }
  }

  /** How a caller got hold of the thread: as its peer, or through a wrapper. */
  datatype Origin = AsPeer | Through(wrapper: WrapperId)

  /** Where a caller is inside `execute`.  `slot` is the position of its
      submission among all submissions. */
  datatype CallerPc =
    | Idle
    | Entered(task: Task, origin: Origin)              // monitor held, task reset
    | Checking(task: Task, origin: Origin, slot: nat)  // monitor held, about to test isDone
    | Waiting(task: Task, origin: Origin, slot: nat)   // in the wait set
    | Notified(task: Task, origin: Origin, slot: nat)  // must reacquire the monitor
    | Leaving(task: Task, origin: Origin, slot: nat)   // monitor held, saw isDone

  datatype ServerPc =
    | AtExitTest             // head of the server loop, reads die and peer.isAlive()
    | AtLiveTest             // the peer was seen dead, reads liveComObjects
    | Suspended
    | Collecting
    | AtDrain                // while (!taskList.isEmpty())
    | Peeked(task: Task)     // between get(0) and remove(0)
    | Popped(task: Task)     // about to enter invoke()
    | Running(task: Task)    // inside call()
    | Finishing(task: Task)  // call() is over, done not yet set
    | Notifying(task: Task)  // done set, notify() not yet called
    | ExitCollecting(natural: bool)
    | Clobbering(natural: bool)
    | Dead(natural: bool)

  datatype Submission = Submission(caller: CallerId, task: Task)
  datatype Execution = Execution(task: Task, outcome: Outcome)
  datatype Return = Return(caller: CallerId, slot: nat, outcome: Outcome)

  /** Maps with a default: a task nobody touched, a caller that is outside. */
  function CellAt(cells: map<Task, Cell>, t: Task): Cell {
    if t in cells then cells[t] else Cell(false, None, None, Free)
  }

  function PcAt(callers: map<CallerId, CallerPc>, c: CallerId): CallerPc {
    if c in callers then callers[c] else Idle
  }

  function PutCell(cells: map<Task, Cell>, t: Task, cell: Cell): (r: map<Task, Cell>)
    ensures forall u :: CellAt(r, u) == if u == t then cell else CellAt(cells, u)
  {
    cells[t := cell]
  }

  function PutPc(callers: map<CallerId, CallerPc>, c: CallerId, p: CallerPc): (r: map<CallerId, CallerPc>)
    ensures forall d :: PcAt(r, d) == if d == c then p else PcAt(callers, d)
  {
    callers[c := p]
  }

  /** The queue, the tasks and the callers, with the history of the hand-off. */
  datatype Calls = Calls(
    taskList: seq<Task>,
    cells: map<Task, Cell>,
    callers: map<CallerId, CallerPc>,
    submitted: seq<Submission>,  // history: taskList.add
    ran: seq<Execution>,         // history: completed calls of call()
    answered: seq<Return>)       // history: returns from execute
  {
    function CellOf(t: Task): Cell { CellAt(cells, t) }
    function PcOf(c: CallerId): CallerPc { PcAt(callers, c) }

    function Move(c: CallerId, p: CallerPc): Calls {
      this.(callers := PutPc(callers, c, p))
    }

    function Put(t: Task, cell: Cell): Calls {
      this.(cells := PutCell(cells, t, cell))
    }

    /** `synchronized(task)` and `task.reset()`. */
    function Enter(c: CallerId, t: Task, origin: Origin): Calls {
      Put(t, CellOf(t).(done := false, monitor := HeldByCaller)).Move(c, Entered(t, origin))
    }

    /** `taskList.add(task)`; waking the server has no effect on the state. */
    function Add(c: CallerId): Calls
      requires PcOf(c).Entered?
    {
      var p := PcOf(c);
      this.(taskList := taskList + [p.task], submitted := submitted + [Submission(c, p.task)])
          .Move(c, Checking(p.task, p.origin, |submitted|))
    }

    /** `while (!task.isDone()) task.wait()`. */
    function Check(c: CallerId): Calls
      requires PcOf(c).Checking?
    {
      var p := PcOf(c);
      if CellOf(p.task).done then Move(c, Leaving(p.task, p.origin, p.slot))
      else Put(p.task, CellOf(p.task).(monitor := Free)).Move(c, Waiting(p.task, p.origin, p.slot))
    }

    function WakeUp(c: CallerId): Calls
      requires PcOf(c).Waiting?
    {
      var p := PcOf(c);
      Move(c, Notified(p.task, p.origin, p.slot))
    }

    function Reacquire(c: CallerId): Calls
      requires PcOf(c).Notified?
    {
      var p := PcOf(c);
      Put(p.task, CellOf(p.task).(monitor := HeldByCaller)).Move(c, Checking(p.task, p.origin, p.slot))
    }

    /** Takes the exception or the result out of its Task and leaves the monitor. */
    function Leave(c: CallerId): Calls
      requires PcOf(c).Leaving?
    {
      var p := PcOf(c);
      var cell := CellOf(p.task);
      var cleared := if cell.exception.Some? then cell.(exception := None) else cell.(result := None);
      this.(answered := answered + [Return(c, p.slot, cell.Outcome())])
          .Put(p.task, cleared.(monitor := Free)).Move(c, Idle)
    }

    /** `invoke()` up to `call()`. */
    function EnterInvoke(t: Task): Calls {
      Put(t, CellOf(t).(result := None, exception := None, monitor := HeldByServer))
    }

    /** `call()` ends and its outcome is stored. */
    function Finish(t: Task, o: Outcome): Calls {
      this.(ran := ran + [Execution(t, o)])
          .Put(t, match o
                  case Returned(v) => CellOf(t).(result := v)
                  case Thrown(e) => CellOf(t).(exception := Some(e)))
    }

    function SetDone(t: Task): Calls {
      Put(t, CellOf(t).(done := true))
    }

    /** `notify()` and the end of the synchronized method. */
    function Notify(t: Task): Calls {
      var woken := if PcOf(t.owner).Waiting? && PcOf(t.owner).task == t then WakeUp(t.owner) else this;
      woken.Put(t, CellOf(t).(monitor := Free))
    }
  }

  /** A wrapper and the phantom reference that owns its native pointer:
      `owns` is `ptr != 0`; `released` counts `Native.release` on the pointer. */
  datatype Wrapper = Wrapper(reachable: bool, disposed: bool, enqueued: bool, owns: bool, released: nat)
  {
    function ReleaseNative(): Wrapper {
      if owns then this.(owns := false, released := released + 1) else this
    }
  }

  /** The wrappers ever created by this thread and its two collections of references. */
  datatype Objects = Objects(
    wrappers: map<WrapperId, Wrapper>,
    liveComObjects: set<WrapperId>,
    collectable: set<WrapperId>)
  {
    predicate IsReachable(w: WrapperId) {
      w in wrappers && wrappers[w].reachable
    }

    function Put(w: WrapperId, x: Wrapper): Objects {
      this.(wrappers := wrappers[w := x])
    }

    function Create(w: WrapperId): Objects {
      Put(w, Wrapper(true, false, false, true, 0)).(liveComObjects := liveComObjects + {w})
    }

    /** `dispose0`: the reference stays in liveComObjects. */
    function Dispose(w: WrapperId): Objects
      requires w in wrappers
    {
      if wrappers[w].disposed then this else Put(w, wrappers[w].ReleaseNative().(disposed := true))
    }

    function Drop(w: WrapperId): Objects
      requires w in wrappers
    {
      Put(w, wrappers[w].(reachable := false))
    }

    /** The garbage collector hands the phantom reference to the queue. */
    function Enqueue(w: WrapperId): Objects
      requires w in wrappers
    {
      Put(w, wrappers[w].(enqueued := true)).(collectable := collectable + {w})
    }

    /** One turn of `collectGarbage`. */
    function Poll(w: WrapperId): Objects
      requires w in wrappers
    {
      Put(w, wrappers[w].ReleaseNative())
        .(collectable := collectable - {w}, liveComObjects := liveComObjects - {w})
    }

    /** One turn of the final loop over liveComObjects. */
    function Clobber(w: WrapperId): Objects
      requires w in wrappers
    {
      Put(w, wrappers[w].ReleaseNative()).(liveComObjects := liveComObjects - {w})
    }
  }

  datatype State = State(peerAlive: bool, die: bool, pc: ServerPc, calls: Calls, objects: Objects)

  const Init := State(true, false, AtExitTest, Calls([], map[], map[], [], [], []), Objects(map[], {}, {}))

  datatype Label =
    // a caller, inside execute
    | Enter(c: CallerId, task: Task, origin: Origin)
    | Add(c: CallerId)
    | Check(c: CallerId)
    | SpuriousWakeup(c: CallerId)
    | Reacquire(c: CallerId)
    | Leave(c: CallerId)
    // the environment
    | PeerDies
    | Kill
    | Drop(w: WrapperId)
    | Enqueue(w: WrapperId)
    | Elsewhere  // something that has no part in this
    // the COM thread
    | TestExit
    | TestLive
    | Wake
    | Poll(w: WrapperId)
    | PollNone
    | Peek
    | Remove
    | EnterInvoke
    | CreateWrapper(w: WrapperId)
    | Dispose(w: WrapperId)
    | Finish(outcome: Outcome)
    | SetDone
    | Notify
    | Clobber(w: WrapperId)
    | ClobberDone

  predicate IsServerLabel(l: Label) {
    match l
    case Enter(_, _, _) => false
    case Add(_) => false
    case Check(_) => false
    case SpuriousWakeup(_) => false
    case Reacquire(_) => false
    case Leave(_) => false
    case PeerDies => false
    case Kill => false
    case Drop(_) => false
    case Enqueue(_) => false
    case Elsewhere => false
    case _ => true
  }

  predicate MaySubmit(peerAlive: bool, objects: Objects, c: CallerId, origin: Origin) {
    && (c == PEER ==> peerAlive)
    && (origin.AsPeer? ==> c == PEER)
    && (origin.Through? ==> objects.IsReachable(origin.wrapper))
  }

  /** No caller is inside a call that it makes through `w`. */
  predicate Unused(callers: map<CallerId, CallerPc>, w: WrapperId) {
    forall c | c in callers :: !PcAt(callers, c).Idle? ==> PcAt(callers, c).origin != Through(w)
  }

  predicate CollectsGarbage(pc: ServerPc) {
    pc.Collecting? || pc.ExitCollecting?
  }

  predicate Enabled(s: State, l: Label) {
    var k, o, pc := s.calls, s.objects, s.pc;
    match l
    case Enter(c, t, origin) =>
      k.PcOf(c).Idle? && t.owner == c && k.CellOf(t).monitor.Free? && MaySubmit(s.peerAlive, o, c, origin)
    case Add(c) => k.PcOf(c).Entered?
    case Check(c) => k.PcOf(c).Checking?
    case SpuriousWakeup(c) => k.PcOf(c).Waiting?
    case Reacquire(c) => k.PcOf(c).Notified? && k.CellOf(k.PcOf(c).task).monitor.Free?
    case Leave(c) => k.PcOf(c).Leaving?
    case PeerDies => s.peerAlive && k.PcOf(PEER).Idle?
    case Kill => true
    case Drop(w) => o.IsReachable(w) && Unused(k.callers, w)
    case Enqueue(w) => w in o.wrappers && !o.wrappers[w].reachable && !o.wrappers[w].enqueued
    case Elsewhere => true
    case TestExit => pc.AtExitTest?
    case TestLive => pc.AtLiveTest?
    case Wake => pc.Suspended?
    case Poll(w) => CollectsGarbage(pc) && w in o.collectable && w in o.wrappers
    case PollNone => CollectsGarbage(pc) && o.collectable == {}
    case Peek => pc.AtDrain?
    case Remove => pc.Peeked? && k.taskList != []
    case EnterInvoke => pc.Popped? && k.CellOf(pc.task).monitor.Free?
    case CreateWrapper(w) => pc.Running? && w !in o.wrappers
    case Dispose(w) => pc.Running? && o.IsReachable(w)
    case Finish(_) => pc.Running?
    case SetDone => pc.Finishing?
    case Notify => pc.Notifying?
    case Clobber(w) => pc.Clobbering? && w in o.liveComObjects && w in o.wrappers
    case ClobberDone => pc.Clobbering? && o.liveComObjects == {}
  }

  function Apply(s: State, l: Label): State
    requires Enabled(s, l)
  {
    var k, o, pc := s.calls, s.objects, s.pc;
    match l
    case Enter(c, t, origin) => s.(calls := k.Enter(c, t, origin))
    case Add(c) => s.(calls := k.Add(c))
    case Check(c) => s.(calls := k.Check(c))
    case SpuriousWakeup(c) => s.(calls := k.WakeUp(c))
    case Reacquire(c) => s.(calls := k.Reacquire(c))
    case Leave(c) => s.(calls := k.Leave(c))
    case PeerDies => s.(peerAlive := false)
    case Kill => s.(die := true)
    case Drop(w) => s.(objects := o.Drop(w))
    case Enqueue(w) => s.(objects := o.Enqueue(w))
    case Elsewhere => s
    case TestExit =>
      s.(pc := if s.die then ExitCollecting(false) else if s.peerAlive then Suspended else AtLiveTest)
    case TestLive => s.(pc := if o.liveComObjects == {} then ExitCollecting(true) else Suspended)
    case Wake => s.(pc := Collecting)
    case Poll(w) => s.(objects := o.Poll(w))
    case PollNone => s.(pc := if pc.Collecting? then AtDrain else Clobbering(pc.natural))
    case Peek => s.(pc := if k.taskList == [] then AtExitTest else Peeked(k.taskList[0]))
    case Remove => s.(pc := Popped(pc.task), calls := k.(taskList := k.taskList[1..]))
    case EnterInvoke => s.(pc := Running(pc.task), calls := k.EnterInvoke(pc.task))
    case CreateWrapper(w) => s.(objects := o.Create(w))
    case Dispose(w) => s.(objects := o.Dispose(w))
    case Finish(r) => s.(pc := Finishing(pc.task), calls := k.Finish(pc.task, r))
    case SetDone => s.(pc := Notifying(pc.task), calls := k.SetDone(pc.task))
    case Notify => s.(pc := Collecting, calls := k.Notify(pc.task))
    case Clobber(w) => s.(objects := o.Clobber(w))
    case ClobberDone => s.(pc := Dead(pc.natural))
  }

  /** Executes a run from a given state; `None` if some label was not enabled. */
  function Continue(s: State, run: seq<Label>): Option<State>
    decreases |run|
  {
    if run == [] then Some(s)
    else if Enabled(s, run[0]) then Continue(Apply(s, run[0]), run[1..])
    else None
  }

  function Replay(run: seq<Label>): Option<State> {
    Continue(Init, run)
  }

  // ---------------------------------------------------------------- invariants

  predicate Submitted(p: CallerPc) {
    p.Checking? || p.Waiting? || p.Notified? || p.Leaving?
  }

  predicate HoldsMonitor(p: CallerPc) {
    p.Entered? || p.Checking? || p.Leaving?
  }

  predicate ServerInside(pc: ServerPc) {
    pc.Running? || pc.Finishing? || pc.Notifying?
  }

  /** A Task taken from the queue whose `call()` is not over. */
  function InFlight(pc: ServerPc): seq<Task> {
    if pc.Popped? || pc.Running? then [pc.task] else []
  }

  predicate Exiting(pc: ServerPc) {
    pc.ExitCollecting? || pc.Clobbering? || pc.Dead?
  }

  predicate CallerInside(callers: map<CallerId, CallerPc>, t: Task) {
    HoldsMonitor(PcAt(callers, t.owner)) && PcAt(callers, t.owner).task == t
  }

  /** Mutual exclusion: the owner and the server are never both inside a task's
      monitor, and the monitor is held by whoever is. */
  ghost predicate MonitorInv(cells: map<Task, Cell>, callers: map<CallerId, CallerPc>, pc: ServerPc) {
    && (forall c :: !PcAt(callers, c).Idle? ==> PcAt(callers, c).task.owner == c)
    && (ServerInside(pc) ==> !CallerInside(callers, pc.task))
    && (forall t: Task :: CellAt(cells, t).monitor ==
          if CallerInside(callers, t) then HeldByCaller
          else if ServerInside(pc) && pc.task == t then HeldByServer
          else Free)
  }

  /** What was appended is what ran, then a Task in flight, then the queue. */
  ghost predicate QueueInv(taskList: seq<Task>, submitted: seq<Submission>, finished: nat, pc: ServerPc) {
    && |submitted| == finished + |InFlight(pc) + taskList|
    && (forall i | finished <= i < |submitted| :: submitted[i].task == (InFlight(pc) + taskList)[i - finished])
    && (pc.Peeked? ==> taskList != [] && pc.task == taskList[0])
  }

  ghost predicate AwaitedBy(callers: map<CallerId, CallerPc>, sub: Submission, i: nat) {
    var p := PcAt(callers, sub.caller);
    Submitted(p) && p.slot == i && p.task == sub.task
  }

  ghost predicate SlotOk(cells: map<Task, Cell>, p: CallerPc, c: CallerId,
                         submitted: seq<Submission>, ran: seq<Execution>, pc: ServerPc)
    requires Submitted(p)
  {
    var cell := CellAt(cells, p.task);
    && p.slot < |submitted|
    && submitted[p.slot] == Submission(c, p.task)
    && (p.slot >= |ran| ==> !cell.done)
    && (p.slot < |ran| ==> cell.Outcome() == ran[p.slot].outcome && (cell.done <==> pc != Finishing(p.task)))
    && (p.Waiting? && cell.done ==> pc == Notifying(p.task))
    && (p.Leaving? ==> cell.done)
  }

  /** Each unfinished submission is the one its caller waits for, and
      each waiting caller finds in its task what belongs to its submission. */
  ghost predicate SlotInv(cells: map<Task, Cell>, callers: map<CallerId, CallerPc>,
                          submitted: seq<Submission>, ran: seq<Execution>, pc: ServerPc) {
    && |ran| <= |submitted|
    && (forall i :: 0 <= i < |submitted| ==> submitted[i].task.owner == submitted[i].caller)
    && (forall i :: |ran| <= i < |submitted| ==> AwaitedBy(callers, submitted[i], i))
    && (forall c :: PcAt(callers, c).Entered? ==> !CellAt(cells, PcAt(callers, c).task).done)
    && (forall c :: Submitted(PcAt(callers, c)) ==> SlotOk(cells, PcAt(callers, c), c, submitted, ran, pc))
    && (pc.Finishing? || pc.Notifying? ==>
          && |ran| > 0
          && submitted[|ran| - 1].task == pc.task
          && AwaitedBy(callers, submitted[|ran| - 1], |ran| - 1))
    && (pc.Running? ==> CellAt(cells, pc.task).result.None? && CellAt(cells, pc.task).exception.None?)
  }

  /** The i-th execution ran the i-th submission, and every return carried the
      outcome of the submission it answers, which is answered once. */
  ghost predicate AnswerInv(callers: map<CallerId, CallerPc>, submitted: seq<Submission>,
                            ran: seq<Execution>, answered: seq<Return>) {
    && |ran| <= |submitted|
    && (forall i | 0 <= i < |ran| :: ran[i].task == submitted[i].task)
    && (forall i | 0 <= i < |answered| ::
          && answered[i].slot < |ran|
          && submitted[answered[i].slot].caller == answered[i].caller
          && ran[answered[i].slot].outcome == answered[i].outcome
          && PastOf(PcAt(callers, answered[i].caller), answered[i].slot))
    && (forall i, j | 0 <= i < j < |answered| :: answered[i].slot != answered[j].slot)
  }

  /** `slot` is not the submission its caller is waiting for now. */
  predicate PastOf(p: CallerPc, slot: nat) {
    Submitted(p) ==> p.slot != slot
  }

  ghost predicate CallsInv(k: Calls, pc: ServerPc) {
    && MonitorInv(k.cells, k.callers, pc)
    && QueueInv(k.taskList, k.submitted, |k.ran|, pc)
    && SlotInv(k.cells, k.callers, k.submitted, k.ran, pc)
    && AnswerInv(k.callers, k.submitted, k.ran, k.answered)
  }

  /** Whoever is inside `execute` came as the living peer or through a reachable wrapper. */
  ghost predicate OriginInv(peerAlive: bool, callers: map<CallerId, CallerPc>, o: Objects) {
    forall c :: !PcAt(callers, c).Idle? ==> MaySubmit(peerAlive, o, c, PcAt(callers, c).origin)
  }

  predicate WrapperOk(x: Wrapper, live: bool, collectable: bool, clobbering: bool) {
    && x.released == (if x.owns then 0 else 1)
    && (x.owns ==> live)
    && (x.reachable ==> !x.enqueued)
    && (!clobbering ==> (live <==> !x.enqueued || collectable))
    && (collectable ==> x.enqueued)
  }

  /** A pointer is owned until it is released, and a wrapper stays in liveComObjects
      exactly until the reference that the garbage collector handed back is polled,
      or the thread clears the set. */
  ghost predicate ObjectsInv(o: Objects, pc: ServerPc) {
    && o.liveComObjects <= o.wrappers.Keys
    && o.collectable <= o.wrappers.Keys
    && (forall w | w in o.wrappers ::
          WrapperOk(o.wrappers[w], w in o.liveComObjects, w in o.collectable, pc.Clobbering? || pc.Dead?))
    && (pc.Dead? ==> o.liveComObjects == {})
  }

  /** After the natural exit test succeeded nobody is, or can come, inside `execute`. */
  ghost predicate ExitInv(s: State) {
    && (s.pc.AtLiveTest? ==> !s.peerAlive)
    && (Exiting(s.pc) && s.pc.natural ==>
          && !s.peerAlive && s.objects.liveComObjects == {}
          && forall w | w in s.objects.wrappers :: s.objects.wrappers[w].enqueued)
    && (Exiting(s.pc) && !s.pc.natural ==> s.die)
  }

  ghost predicate Inv(s: State) {
    && CallsInv(s.calls, s.pc)
    && OriginInv(s.peerAlive, s.calls.callers, s.objects)
    && ObjectsInv(s.objects, s.pc)
    && ExitInv(s)
  }

  lemma InitInv()
    ensures Inv(Init)
  {
  }

  // ---------------------------------------------------------------- callers

  lemma EnterMonitors(k: Calls, c: CallerId, t: Task, origin: Origin, pc: ServerPc)
    requires MonitorInv(k.cells, k.callers, pc) && k.PcOf(c).Idle? && t.owner == c && k.CellOf(t).monitor.Free?
    ensures var r := k.Enter(c, t, origin); MonitorInv(r.cells, r.callers, pc)
  {
  }

  lemma EnterSlots(k: Calls, c: CallerId, t: Task, origin: Origin, pc: ServerPc)
    requires SlotInv(k.cells, k.callers, k.submitted, k.ran, pc) && k.PcOf(c).Idle? && t.owner == c
    requires forall d :: !PcAt(k.callers, d).Idle? ==> PcAt(k.callers, d).task.owner == d
    requires ServerInside(pc) ==> pc.task != t
    ensures var r := k.Enter(c, t, origin); SlotInv(r.cells, r.callers, k.submitted, k.ran, pc)
  {
  }

  lemma EnterKeeps(k: Calls, c: CallerId, t: Task, origin: Origin, pc: ServerPc)
    requires CallsInv(k, pc) && k.PcOf(c).Idle? && t.owner == c && k.CellOf(t).monitor.Free?
    ensures CallsInv(k.Enter(c, t, origin), pc)
  {
    EnterMonitors(k, c, t, origin, pc);
    EnterSlots(k, c, t, origin, pc);
    EnterAnswers(k.callers, c, Entered(t, origin), k.submitted, k.ran, k.answered);
  }

  /** A caller that is not waiting for an answer has all its answers behind it. */
  lemma EnterAnswers(callers: map<CallerId, CallerPc>, c: CallerId, p: CallerPc,
                     submitted: seq<Submission>, ran: seq<Execution>, answered: seq<Return>)
    requires AnswerInv(callers, submitted, ran, answered) && !Submitted(p)
    ensures AnswerInv(PutPc(callers, c, p), submitted, ran, answered)
  {
  }

  lemma AddSlots(k: Calls, c: CallerId, pc: ServerPc)
    requires SlotInv(k.cells, k.callers, k.submitted, k.ran, pc)
    requires k.PcOf(c).Entered? && k.PcOf(c).task.owner == c
    ensures var r := k.Add(c); SlotInv(r.cells, r.callers, r.submitted, r.ran, pc)
  {
  }

  lemma AddQueue(k: Calls, c: CallerId, pc: ServerPc)
    requires MonitorInv(k.cells, k.callers, pc) && QueueInv(k.taskList, k.submitted, |k.ran|, pc)
    requires AnswerInv(k.callers, k.submitted, k.ran, k.answered) && k.PcOf(c).Entered?
    ensures var r := k.Add(c);
      && MonitorInv(r.cells, r.callers, pc) && QueueInv(r.taskList, r.submitted, |r.ran|, pc)
      && AnswerInv(r.callers, r.submitted, r.ran, r.answered)
  {
  }

  lemma AddKeeps(k: Calls, c: CallerId, pc: ServerPc)
    requires CallsInv(k, pc) && k.PcOf(c).Entered?
    ensures CallsInv(k.Add(c), pc)
  {
    AddSlots(k, c, pc);
    AddQueue(k, c, pc);
  }

  /** A submitted caller changes its place inside its call, and with it the monitor of its task. */
  ghost predicate Rephased(k: Calls, k': Calls, c: CallerId, p: CallerPc) {
    && Submitted(PcAt(k.callers, c)) && Submitted(p)
    && p.task == PcAt(k.callers, c).task && p.slot == PcAt(k.callers, c).slot
    && !CellAt(k.cells, p.task).monitor.HeldByServer?
    && k'.callers == PutPc(k.callers, c, p)
    && forall u :: CellAt(k'.cells, u) ==
         if u == p.task then CellAt(k.cells, u).(monitor := if HoldsMonitor(p) then HeldByCaller else Free)
         else CellAt(k.cells, u)
  }

  lemma RephaseMonitors(k: Calls, k': Calls, c: CallerId, p: CallerPc, pc: ServerPc)
    requires MonitorInv(k.cells, k.callers, pc) && Rephased(k, k', c, p)
    ensures MonitorInv(k'.cells, k'.callers, pc)
  {
  }

  lemma RephaseSlots(k: Calls, k': Calls, c: CallerId, p: CallerPc, pc: ServerPc)
    requires SlotInv(k.cells, k.callers, k.submitted, k.ran, pc) && Rephased(k, k', c, p)
    requires p.Waiting? ==> !k.CellOf(p.task).done
    requires p.Leaving? ==> k.CellOf(p.task).done
    ensures SlotInv(k'.cells, k'.callers, k.submitted, k.ran, pc)
  {
  }

  lemma CheckKeeps(k: Calls, c: CallerId, pc: ServerPc)
    requires CallsInv(k, pc) && k.PcOf(c).Checking?
    ensures CallsInv(k.Check(c), pc)
  {
    var p := k.PcOf(c);
    assert CallerInside(k.callers, p.task);
    RephaseMonitors(k, k.Check(c), c, k.Check(c).PcOf(c), pc);
    RephaseSlots(k, k.Check(c), c, k.Check(c).PcOf(c), pc);
  }

  lemma WakeUpKeeps(k: Calls, c: CallerId, pc: ServerPc)
    requires CallsInv(k, pc) && k.PcOf(c).Waiting?
    ensures CallsInv(k.WakeUp(c), pc)
  {
  }

  lemma ReacquireKeeps(k: Calls, c: CallerId, pc: ServerPc)
    requires CallsInv(k, pc) && k.PcOf(c).Notified? && k.CellOf(k.PcOf(c).task).monitor.Free?
    ensures CallsInv(k.Reacquire(c), pc)
  {
    RephaseMonitors(k, k.Reacquire(c), c, k.Reacquire(c).PcOf(c), pc);
    RephaseSlots(k, k.Reacquire(c), c, k.Reacquire(c).PcOf(c), pc);
  }

  lemma LeaveMonitors(k: Calls, c: CallerId, pc: ServerPc)
    requires MonitorInv(k.cells, k.callers, pc) && k.PcOf(c).Leaving?
    ensures var r := k.Leave(c); MonitorInv(r.cells, r.callers, pc)
  {
  }

  lemma LeaveSlots(k: Calls, c: CallerId, pc: ServerPc)
    requires SlotInv(k.cells, k.callers, k.submitted, k.ran, pc) && k.PcOf(c).Leaving?
    requires forall d :: !PcAt(k.callers, d).Idle? ==> PcAt(k.callers, d).task.owner == d
    requires ServerInside(pc) ==> pc.task != k.PcOf(c).task
    ensures var r := k.Leave(c); SlotInv(r.cells, r.callers, k.submitted, k.ran, pc)
  {
  }

  lemma LeaveAnswers(k: Calls, c: CallerId, pc: ServerPc)
    requires SlotInv(k.cells, k.callers, k.submitted, k.ran, pc) && k.PcOf(c).Leaving?
    requires AnswerInv(k.callers, k.submitted, k.ran, k.answered)
    ensures var r := k.Leave(c); AnswerInv(r.callers, k.submitted, k.ran, r.answered)
  {
    assert SlotOk(k.cells, k.PcOf(c), c, k.submitted, k.ran, pc);
  }

  lemma LeaveKeeps(k: Calls, c: CallerId, pc: ServerPc)
    requires CallsInv(k, pc) && k.PcOf(c).Leaving?
    ensures CallsInv(k.Leave(c), pc)
  {
    assert CallerInside(k.callers, k.PcOf(c).task);
    LeaveMonitors(k, c, pc);
    LeaveSlots(k, c, pc);
    LeaveAnswers(k, c, pc);
  }

  // ---------------------------------------------------------------- the server and the calls

  /** Outside `invoke` and with the queue untouched, the server only moves on. */
  lemma LoopKeeps(k: Calls, pc: ServerPc, pc': ServerPc)
    requires CallsInv(k, pc) && !ServerInside(pc) && !ServerInside(pc')
    requires InFlight(pc) == InFlight(pc')
    requires pc'.Peeked? ==> k.taskList != [] && pc'.task == k.taskList[0]
    ensures CallsInv(k, pc')
  {
  }

  lemma RemoveKeeps(k: Calls, t: Task)
    requires CallsInv(k, Peeked(t))
    ensures CallsInv(k.(taskList := k.taskList[1..]), Popped(t))
  {
  }

  lemma EnterInvokeKeeps(k: Calls, t: Task)
    requires CallsInv(k, Popped(t)) && k.CellOf(t).monitor.Free?
    ensures CallsInv(k.EnterInvoke(t), Running(t))
  {
    assert k.submitted[|k.ran|].task == t;
  }

  lemma FinishKeeps(k: Calls, t: Task, o: Outcome)
    requires CallsInv(k, Running(t))
    ensures CallsInv(k.Finish(t, o), Finishing(t))
  {
    assert k.submitted[|k.ran|].task == t;
  }

  lemma SetDoneKeeps(k: Calls, t: Task)
    requires CallsInv(k, Finishing(t))
    ensures CallsInv(k.SetDone(t), Notifying(t))
  {
  }

  lemma ExitInvokeKeeps(k: Calls, t: Task)
    requires CallsInv(k, Notifying(t)) && !(k.PcOf(t.owner).Waiting? && k.PcOf(t.owner).task == t)
    ensures CallsInv(k.Put(t, k.CellOf(t).(monitor := Free)), Collecting)
  {
  }

  lemma NotifyKeeps(k: Calls, t: Task)
    requires CallsInv(k, Notifying(t))
    ensures CallsInv(k.Notify(t), Collecting)
  {
    if k.PcOf(t.owner).Waiting? && k.PcOf(t.owner).task == t {
      WakeUpKeeps(k, t.owner, Notifying(t));
      ExitInvokeKeeps(k.WakeUp(t.owner), t);
    } else {
      ExitInvokeKeeps(k, t);
    }
  }

  // ---------------------------------------------------------------- wrappers

  lemma ObjectsKept(o: Objects, w: WrapperId, pc: ServerPc)
    requires ObjectsInv(o, pc)
    ensures w !in o.wrappers && pc.Running? ==> ObjectsInv(o.Create(w), pc)
    ensures w in o.wrappers && pc.Running? ==> ObjectsInv(o.Dispose(w), pc)
    ensures w in o.wrappers ==> ObjectsInv(o.Drop(w), pc)
    ensures w in o.wrappers && !o.wrappers[w].reachable && !o.wrappers[w].enqueued ==> ObjectsInv(o.Enqueue(w), pc)
    ensures w in o.collectable ==> ObjectsInv(o.Poll(w), pc)
    ensures w in o.liveComObjects && pc.Clobbering? ==> ObjectsInv(o.Clobber(w), pc)
  {
    UsingKeeps(o, w, pc);
    CollectingKeeps(o, w, pc);
  }

  lemma UsingKeeps(o: Objects, w: WrapperId, pc: ServerPc)
    requires ObjectsInv(o, pc)
    ensures w !in o.wrappers && pc.Running? ==> ObjectsInv(o.Create(w), pc)
    ensures w in o.wrappers && pc.Running? ==> ObjectsInv(o.Dispose(w), pc)
    ensures w in o.wrappers ==> ObjectsInv(o.Drop(w), pc)
  {
  }

  lemma CollectingKeeps(o: Objects, w: WrapperId, pc: ServerPc)
    requires ObjectsInv(o, pc)
    ensures w in o.wrappers && !o.wrappers[w].reachable && !o.wrappers[w].enqueued ==> ObjectsInv(o.Enqueue(w), pc)
    ensures w in o.collectable ==> ObjectsInv(o.Poll(w), pc)
    ensures w in o.liveComObjects && pc.Clobbering? ==> ObjectsInv(o.Clobber(w), pc)
  {
  }

  lemma ObjectsStep(s: State, l: Label)
    requires ObjectsInv(s.objects, s.pc) && Enabled(s, l)
    ensures ObjectsInv(Apply(s, l).objects, Apply(s, l).pc)
  {
    match l
    case Drop(w) => ObjectsKept(s.objects, w, s.pc);
    case Enqueue(w) => ObjectsKept(s.objects, w, s.pc);
    case Poll(w) => ObjectsKept(s.objects, w, s.pc);
    case CreateWrapper(w) => ObjectsKept(s.objects, w, s.pc);
    case Dispose(w) => ObjectsKept(s.objects, w, s.pc);
    case Clobber(w) => ObjectsKept(s.objects, w, s.pc);
    case _ =>
  }

  lemma OriginStep(s: State, l: Label)
    requires OriginInv(s.peerAlive, s.calls.callers, s.objects) && Enabled(s, l)
    ensures var r := Apply(s, l); OriginInv(r.peerAlive, r.calls.callers, r.objects)
  {
    var r := Apply(s, l);
    forall c | !PcAt(r.calls.callers, c).Idle?
      ensures MaySubmit(r.peerAlive, r.objects, c, PcAt(r.calls.callers, c).origin)
    {
      var origin := PcAt(r.calls.callers, c).origin;
      CameFrom(s, l, c);
      if origin.Through? {
        StaysReachable(s, l, c, origin.wrapper);
      }
    }
  }

  lemma CameFrom(s: State, l: Label, c: CallerId)
    requires Enabled(s, l) && !Apply(s, l).calls.PcOf(c).Idle?
    ensures l.Enter? && l.c == c ==> Apply(s, l).calls.PcOf(c).origin == l.origin
    ensures !(l.Enter? && l.c == c) ==>
              !s.calls.PcOf(c).Idle? && Apply(s, l).calls.PcOf(c).origin == s.calls.PcOf(c).origin
    ensures c == PEER && s.peerAlive ==> Apply(s, l).peerAlive
  {
  }

  lemma StaysReachable(s: State, l: Label, c: CallerId, w: WrapperId)
    requires Enabled(s, l) && s.objects.IsReachable(w)
    requires s.calls.PcOf(c).Idle? || s.calls.PcOf(c).origin == Through(w)
    requires l.Drop? ==> !s.calls.PcOf(c).Idle?
    ensures Apply(s, l).objects.IsReachable(w)
  {
  }

  lemma ExitStep(s: State, l: Label)
    requires ExitInv(s) && ObjectsInv(s.objects, s.pc) && Enabled(s, l)
    ensures ExitInv(Apply(s, l))
  {
    ExitDecided(s, l);
    if Exiting(s.pc) && s.pc.natural {
      NaturalExitStays(s, l);
    }
  }

  lemma ExitDecided(s: State, l: Label)
    requires ExitInv(s) && ObjectsInv(s.objects, s.pc) && Enabled(s, l)
    ensures var r := Apply(s, l);
      && (r.pc.AtLiveTest? ==> !r.peerAlive)
      && (Exiting(r.pc) ==> if r.pc.natural then !r.peerAlive else r.die)
      && (Exiting(r.pc) && r.pc.natural && !Exiting(s.pc) ==>
            && l.TestLive? && r.objects.liveComObjects == {}
            && forall w | w in r.objects.wrappers :: r.objects.wrappers[w].enqueued)
      && (Exiting(s.pc) ==> Exiting(r.pc) && r.pc.natural == s.pc.natural)
  {
  }

  lemma NaturalExitStays(s: State, l: Label)
    requires Exiting(s.pc) && Enabled(s, l)
    requires forall w | w in s.objects.wrappers :: s.objects.wrappers[w].enqueued
    ensures forall w | w in Apply(s, l).objects.wrappers :: Apply(s, l).objects.wrappers[w].enqueued
    ensures Apply(s, l).objects.liveComObjects <= s.objects.liveComObjects
  {
  }

  lemma CallerCallsStep(s: State, l: Label)
    requires CallsInv(s.calls, s.pc) && Enabled(s, l) && !IsServerLabel(l)
    ensures CallsInv(Apply(s, l).calls, Apply(s, l).pc)
  {
    var k, pc := s.calls, s.pc;
    match l
    case Enter(c, t, origin) => EnterKeeps(k, c, t, origin, pc);
    case Add(c) => AddKeeps(k, c, pc);
    case Check(c) => CheckKeeps(k, c, pc);
    case SpuriousWakeup(c) => WakeUpKeeps(k, c, pc);
    case Reacquire(c) => ReacquireKeeps(k, c, pc);
    case Leave(c) => LeaveKeeps(k, c, pc);
    case _ =>
  }

  lemma ServerCallsStep(s: State, l: Label)
    requires CallsInv(s.calls, s.pc) && Enabled(s, l) && IsServerLabel(l)
    ensures CallsInv(Apply(s, l).calls, Apply(s, l).pc)
  {
    var k, pc, r := s.calls, s.pc, Apply(s, l);
    match l
    case Remove => RemoveKeeps(k, pc.task);
    case EnterInvoke => EnterInvokeKeeps(k, pc.task);
    case Finish(outcome) => FinishKeeps(k, pc.task, outcome);
    case SetDone => SetDoneKeeps(k, pc.task);
    case Notify => NotifyKeeps(k, pc.task);
    case TestExit => LoopKeeps(k, pc, r.pc);
    case TestLive => LoopKeeps(k, pc, r.pc);
    case Wake => LoopKeeps(k, pc, r.pc);
    case PollNone => LoopKeeps(k, pc, r.pc);
    case Peek => LoopKeeps(k, pc, r.pc);
    case ClobberDone => LoopKeeps(k, pc, r.pc);
    case _ =>
  }

  lemma StepInv(s: State, l: Label)
    requires Inv(s) && Enabled(s, l)
    ensures Inv(Apply(s, l))
  {
    if IsServerLabel(l) {
      ServerCallsStep(s, l);
    } else {
      CallerCallsStep(s, l);
    }
    ObjectsStep(s, l);
    OriginStep(s, l);
    ExitStep(s, l);
  }
}

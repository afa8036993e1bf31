/** The writer that can take text back. While it is marked it buffers; `cancel`
    drops the buffer, and `commit`, `close` or another `mark` let it through. */
module CancellableWriter {

  datatype Op = Write(text: string) | Mark | Cancel | Commit | Close

  /** What becomes of text that is buffered before `ops`: it is kept if the next
      operation other than a write is one that lets the buffer through. */
  predicate Kept(ops: seq<Op>) {
    if ops == [] then false
    else match ops[0]
      case Write(_) => Kept(ops[1..])
      case Cancel => false
      case Mark | Commit | Close => true
  }

  /** The text that reaches the sink: every write outside a marked region, and
      those inside one that are kept, in program order, up to the first close. */
  function Sent(ops: seq<Op>, marked: bool): string {
    if ops == [] then ""
    else match ops[0]
      case Write(text) => (if !marked || Kept(ops[1..]) then text else "") + Sent(ops[1..], marked)
      case Mark => Sent(ops[1..], true)
      case Cancel | Commit => Sent(ops[1..], false)
      case Close => ""
  }

  class CancellableWriter {
    var sink: string    // what the underlying writer has received
    var buffer: string
    var marked: bool
    var closed: bool

    ghost predicate Valid()
      reads this
    {
      !marked && !closed ==> buffer == ""
    }

    constructor ()
      ensures Valid() && sink == "" && !marked && !closed
    {
      sink, buffer, marked, closed := "", "", false, false;
    }

    /** The underlying writer, which refuses text once it is closed. */
    method Forward(text: string) returns (ok: bool)
      modifies this`sink
      ensures ok == !closed && sink == if closed then old(sink) else old(sink) + text
    {
      ok := !closed;
      if ok {
        sink := sink + text;
      }
    }

    method Write(text: string) returns (ok: bool)
      modifies this`sink, this`buffer
      ensures ok == (marked || !closed)
      ensures buffer == if marked then old(buffer) + text else old(buffer)
      ensures sink == if marked || closed then old(sink) else old(sink) + text
    {
      ok := true;
      if marked {
        buffer := buffer + text;
      } else {
        ok := Forward(text);
      }
    }

    /** Starts a region; a region that is still open is committed first. */
    method Mark() returns (ok: bool)
      requires Valid()
      modifies this
      ensures Valid() && marked == ok && closed == old(closed)
      ensures ok == !(old(marked) && closed)
      ensures sink == if old(marked) && !closed then old(sink) + old(buffer) else old(sink)
      ensures ok && !closed ==> buffer == ""
    {
      ok := true;
      if marked {
        ok := Commit();
      }
      if ok {
        marked := true;
      }
    }

    /** Refused outside a region. */
    method Cancel() returns (ok: bool)
      requires Valid()
      modifies this`marked, this`buffer
      ensures Valid() && ok == old(marked) && !marked
      ensures buffer == if old(marked) then "" else old(buffer)
    {
      ok := marked;
      if ok {
        marked := false;
        buffer := "";
      }
    }

    /** Refused outside a region. The flag is cleared first, so that the buffer
        goes to the sink and not back into itself. */
    method Commit() returns (ok: bool)
      requires Valid()
      modifies this`marked, this`sink, this`buffer
      ensures Valid() && !marked && ok == (old(marked) && !closed)
      ensures sink == if old(marked) && !closed then old(sink) + old(buffer) else old(sink)
      ensures ok ==> buffer == ""
    {
      if !marked {
        return false;
      }
      marked := false;
      ok := Write(buffer);
      if ok {
        buffer := "";
      }
    }

    method Close()
      requires Valid()
      modifies this
      ensures Valid() && closed && !marked && (!old(closed) ==> buffer == "")
      ensures sink == if old(marked) && !old(closed) then old(sink) + old(buffer) else old(sink)
    {
      if marked {
        var _ := Commit();
      }
      closed := true;
    }

    method Perform(op: Op)
      requires Valid() && !closed
      modifies this
      ensures Valid()
      ensures var through := if old(marked) && (op.Mark? || op.Commit? || op.Close?) then old(buffer) else "";
              sink == old(sink) + through + if op.Write? && !old(marked) then op.text else ""
      ensures buffer ==
              if op.Write? && old(marked) then old(buffer) + op.text else if op.Write? then old(buffer) else ""
      ensures marked == (op.Mark? || (op.Write? && old(marked))) && closed == op.Close?
    {
      match op {
        case Write(text) => var _ := Write(text);
        case Mark => var _ := Mark();
        case Cancel => var _ := Cancel();
        case Commit => var _ := Commit();
        case Close => Close();
      }
    }
  }

  /** For every sequence of operations the sink receives exactly the text that
      is sent by the description above; nothing follows a close. */
  method Run(w: CancellableWriter, ops: seq<Op>)
    requires w.Valid() && !w.closed
    modifies w
    ensures w.sink ==
            old(w.sink) + (if old(w.marked) && Kept(ops) then old(w.buffer) else "") + Sent(ops, old(w.marked))
  {
    var i := 0;
    while i < |ops| && !w.closed
      invariant i <= |ops| && w.Valid()
      invariant w.closed ==>
                  w.sink ==
                  old(w.sink) + (if old(w.marked) && Kept(ops) then old(w.buffer) else "") + Sent(ops, old(w.marked))
      invariant !w.closed ==>
                  w.sink + (if w.marked && Kept(ops[i..]) then w.buffer else "") + Sent(ops[i..], w.marked)
                  == old(w.sink) + (if old(w.marked) && Kept(ops) then old(w.buffer) else "") + Sent(ops, old(w.marked))
    {
      assert ops[i..][1..] == ops[i + 1..];
      w.Perform(ops[i]);
      i := i + 1;
    }
  }

  /** A run that ends with a close leaves nothing behind in the buffer. */
  lemma {:induction false} ClosedIsComplete(ops: seq<Op>)
    requires Close !in ops
    ensures Kept(ops + [Close]) <==> !(exists i :: 0 <= i < |ops| && ops[i] == Cancel
                                                   && forall j | 0 <= j < i :: ops[j].Write?)
  {
    if ops != [] {
      assert (ops + [Close])[1..] == ops[1..] + [Close];
      ClosedIsComplete(ops[1..]);
      if ops[0].Write? {
        if i :| 0 <= i < |ops| && ops[i] == Cancel && forall j | 0 <= j < i :: ops[j].Write? {
          assert ops[1..][i - 1] == Cancel;
        }
        if i :| 0 <= i < |ops[1..]| && ops[1..][i] == Cancel && forall j | 0 <= j < i :: ops[1..][j].Write? {
          assert ops[i + 1] == Cancel;
          assert forall j | 0 <= j < i + 1 :: j > 0 ==> ops[j] == ops[1..][j - 1];
        }
      }
    }
  }

  // ---------------------------------------------------------------- which writes reach the sink

  predicate LetsThrough(op: Op) {
    op.Mark? || op.Commit? || op.Close?
  }

  /** Only writes lie between these two operations. */
  predicate OnlyWrites(ops: seq<Op>, from: int, to: int)
    requires 0 <= from && to <= |ops|
  {
    forall m | from <= m < to :: ops[m].Write?
  }

  /** Operation `i` finds the writer in a region: the last operation before it
      other than a write is a mark. */
  ghost predicate InRegion(ops: seq<Op>, marked: bool, i: nat)
    requires i <= |ops|
  {
    || (marked && OnlyWrites(ops, 0, i))
    || exists j :: 0 <= j < i && ops[j].Mark? && OnlyWrites(ops, j + 1, i)
  }

  /** The next operation other than a write lets the buffer through. */
  ghost predicate ThenThrough(ops: seq<Op>, i: nat) {
    exists j :: i <= j < |ops| && LetsThrough(ops[j]) && OnlyWrites(ops, i, j)
  }

  ghost predicate Reaches(ops: seq<Op>, marked: bool, i: nat)
    requires i < |ops|
  {
    && ops[i].Write? && (forall m | 0 <= m < i :: !ops[m].Close?)
    && (InRegion(ops, marked, i) ==> ThenThrough(ops, i + 1))
  }

  function Texts(ops: seq<Op>, which: seq<nat>): string
    requires forall k | 0 <= k < |which| :: which[k] < |ops| && ops[which[k]].Write?
  {
    if which == [] then "" else ops[which[0]].text + Texts(ops, which[1..])
  }

  function Shifted(which: seq<nat>): (s: seq<nat>)
    ensures |s| == |which| && forall k | 0 <= k < |which| :: s[k] == which[k] + 1
  {
    seq(|which|, k requires 0 <= k < |which| => which[k] + 1)
  }

  lemma {:induction false} TextsShift(ops: seq<Op>, which: seq<nat>)
    requires ops != [] && forall k | 0 <= k < |which| :: which[k] < |ops[1..]| && ops[1..][which[k]].Write?
    ensures Texts(ops, Shifted(which)) == Texts(ops[1..], which)
  {
    if which != [] {
      TextsShift(ops, which[1..]);
      assert Shifted(which)[1..] == Shifted(which[1..]);
    }
  }

  lemma {:induction false} KeptIff(ops: seq<Op>)
    ensures Kept(ops) <==> ThenThrough(ops, 0)
  {
    if ops != [] {
      if ops[0].Write? {
        KeptIff(ops[1..]);
        ThroughShifts(ops, 0);
        if j :| 0 <= j < |ops| && LetsThrough(ops[j]) && OnlyWrites(ops, 0, j) {
          assert OnlyWrites(ops, 1, j);
        }
        if j :| 1 <= j < |ops| && LetsThrough(ops[j]) && OnlyWrites(ops, 1, j) {
          assert OnlyWrites(ops, 0, j);
        }
      } else if LetsThrough(ops[0]) {
        assert OnlyWrites(ops, 0, 0);
      }
    }
  }

  lemma ThroughShifts(ops: seq<Op>, i: nat)
    requires i < |ops|
    ensures ThenThrough(ops, i + 1) <==> ThenThrough(ops[1..], i)
  {
    if j :| i + 1 <= j < |ops| && LetsThrough(ops[j]) && OnlyWrites(ops, i + 1, j) {
      assert LetsThrough(ops[1..][j - 1]) && OnlyWrites(ops[1..], i, j - 1);
    }
    if j :| i <= j < |ops[1..]| && LetsThrough(ops[1..][j]) && OnlyWrites(ops[1..], i, j) {
      forall m | i + 1 <= m < j + 1
        ensures ops[m].Write?
      {
        assert ops[1..][m - 1].Write?;
      }
      assert LetsThrough(ops[j + 1]) && OnlyWrites(ops, i + 1, j + 1);
    }
  }

  lemma RegionShifts(ops: seq<Op>, marked: bool, i: nat)
    requires i < |ops|
    ensures InRegion(ops, marked, i + 1) <==> InRegion(ops[1..], ops[0].Mark? || (ops[0].Write? && marked), i)
  {
    var rest := ops[1..];
    forall from: nat, to | from <= to <= |rest|
      ensures OnlyWrites(ops, from + 1, to + 1) <==> OnlyWrites(rest, from, to)
    {
      if OnlyWrites(rest, from, to) {
        assert forall m | from + 1 <= m < to + 1 :: rest[m - 1].Write? && ops[m] == rest[m - 1];
      }
    }
    if j :| 0 <= j < i + 1 && ops[j].Mark? && OnlyWrites(ops, j + 1, i + 1) {
      assert j > 0 ==> rest[j - 1].Mark?;
      assert OnlyWrites(rest, j, i);
    }
    if j :| 0 <= j < i && rest[j].Mark? && OnlyWrites(rest, j + 1, i) {
      assert ops[j + 1].Mark? && OnlyWrites(ops, j + 2, i + 1);
    }
    if OnlyWrites(rest, 0, i) {
      assert OnlyWrites(ops, 1, i + 1);
    }
  }

  lemma ReachesShifts(ops: seq<Op>, marked: bool, i: nat)
    requires i + 1 < |ops| && !ops[0].Close?
    ensures Reaches(ops, marked, i + 1) <==> Reaches(ops[1..], ops[0].Mark? || (ops[0].Write? && marked), i)
  {
    RegionShifts(ops, marked, i);
    ThroughShifts(ops, i + 1);
    assert ops[1..][i] == ops[i + 1];
    assert forall m | 0 < m < i + 1 :: ops[m] == ops[1..][m - 1];
    assert forall m | 0 <= m < i :: ops[1..][m] == ops[m + 1];
  }

  /** These are the writes that reach the sink, in program order. */
  ghost predicate Reaching(ops: seq<Op>, marked: bool, which: seq<nat>) {
    && (forall i :: i in which <==> 0 <= i < |ops| && Reaches(ops, marked, i))
    && (forall k | 0 <= k < |which| :: which[k] < |ops| && ops[which[k]].Write?)
    && forall a, b | 0 <= a < b < |which| :: which[a] < which[b]
  }

  lemma OneMoreReaching(ops: seq<Op>, marked: bool, rest: seq<nat>, which: seq<nat>)
    requires ops != [] && !ops[0].Close?
    requires Reaching(ops[1..], ops[0].Mark? || (ops[0].Write? && marked), rest)
    requires which == (if Reaches(ops, marked, 0) then [0] else []) + Shifted(rest)
    ensures Reaching(ops, marked, which)
  {
    forall i
      ensures i in which <==> 0 <= i < |ops| && Reaches(ops, marked, i)
    {
      if 0 < i < |ops| {
        ReachesShifts(ops, marked, i - 1);
        if i - 1 in rest {
          var k :| 0 <= k < |rest| && rest[k] == i - 1;
          assert Shifted(rest)[k] == i;
        }
      }
    }
    forall k | 0 <= k < |which|
      ensures which[k] < |ops| && ops[which[k]].Write?
    {
      assert which[k] in which;
    }
  }

  /** The sink receives the texts of exactly these writes, in program order: those
      before any close that are outside a region, and those inside one that the
      next operation other than a write lets through. */
  lemma {:induction false} SentAre(ops: seq<Op>, marked: bool) returns (which: seq<nat>)
    ensures Reaching(ops, marked, which) && Sent(ops, marked) == Texts(ops, which)
  {
    which := [];
    if ops != [] {
      if ops[0].Close? {
        assert forall i | 0 < i < |ops| :: !Reaches(ops, marked, i);
      } else {
        var rest := SentAre(ops[1..], ops[0].Mark? || (ops[0].Write? && marked));
        TextsShift(ops, rest);
        FirstReaches(ops, marked);
        which := (if Reaches(ops, marked, 0) then [0] else []) + Shifted(rest);
        assert Reaches(ops, marked, 0) ==> which[1..] == Shifted(rest);
        assert !Reaches(ops, marked, 0) ==> which == Shifted(rest);
        OneMoreReaching(ops, marked, rest, which);
      }
    }
  }

  lemma FirstReaches(ops: seq<Op>, marked: bool)
    requires ops != []
    ensures Reaches(ops, marked, 0) <==> ops[0].Write? && (!marked || Kept(ops[1..]))
  {
    KeptIff(ops[1..]);
    ThroughShifts(ops, 0);
    assert OnlyWrites(ops, 0, 0);
  }
}

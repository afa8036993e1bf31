/** Call frames of the Win64 port of libffi. Every argument takes one 8-byte
    slot; larger values and odd-sized structs travel by reference to copies
    that `ffi_call` makes. */
module FfiFrameWin64 {
  import opened Arithmetic
  import opened Bits
  import opened FfiAlign
  import opened FfiLayout
  import opened FfiFrame

  const WORD: nat := 8
  const HOME_AREA: nat := 32

  predicate OddStruct(t: CType) {
    t.kind == Struct && !RegisterSized(t.size)
  }

  /** The slot holds an address instead of the value. */
  predicate ByReference(t: CType) {
    t.size > WORD || OddStruct(t) || t.kind == LongDouble
  }

  /** The arguments `ffi_call` copies before it builds the frame. */
  predicate Copied(t: CType) {
    OddStruct(t) || t.kind == LongDouble
  }

  function Hidden(rtype: CType): (start: nat) {
    if ReturnFlag(X86Win64, rtype.kind, rtype.size) == Same(Struct) then WORD else 0
  }

  // ---------------------------------------------------------------- reservation

  /** `ffi_prep_cif_machdep`: adds room for the hidden pointer, for every
      argument and for the home area of the four registers. */
  method PrepCifMachdep(rtype: CType, args: seq<CType>, bytes: nat) returns (r: nat)
    requires AllPrepared(args)
    ensures r == Reserved(args, bytes + Hidden(rtype), WORD) + HOME_AREA
  {
    WordIsPow2();
    r := bytes;
    if ReturnFlag(X86Win64, rtype.kind, rtype.size) == Same(Struct) {
      var pointer := AlignTo(WORD, WORD);
      r := r + pointer;
    }
    ghost var start := r;
    for i := 0 to |args|
      invariant r == Reserved(args[..i], start, WORD)
    {
      r := ReserveOne(r, args[i], WORD);
      assert args[..i + 1][..i] == args[..i];
    }
    assert args[..|args|] == args;
    r := r + HOME_AREA;
  }

  /** One word per argument is never more than what the loop reserved, and the
      home area comes on top. */
  lemma {:induction false} SlotsFit(args: seq<CType>, start: nat)
    requires AllPrepared(args)
    ensures start + WORD * |args| <= Reserved(args, start, WORD)
  {
    if args != [] {
      var n := |args| - 1;
      SlotsFit(args[..n], start);
      assert Prepared(args[n]);
    }
  }

  // ---------------------------------------------------------------- the frame

  /** Bytes of the argument's storage that the call reads. */
  function Needed(t: CType): nat {
    if ByReference(t) then (if Copied(t) then t.size else 0)
    else if t.kind == Float then t.size
    else ReadWidth(t, WORD)
  }

  ghost predicate Available(args: seq<CType>, avalue: seq<nat>, memory: Memory) {
    && |avalue| == |args|
    && forall i | 0 <= i < |args| :: avalue[i] in memory && |memory[avalue[i]]| >= Needed(args[i])
  }

  /** What slot `t` of the frame has to hold: an address, a float's own bytes,
      or the value, promoted if it is short. */
  ghost predicate ArgAt(frame: seq<Cell>, at: nat, t: CType, address: nat, mem: seq<Byte>)
    requires |mem| >= Needed(t)
  {
    if ByReference(t) then HoldsPointer(frame, at, address, WORD)
    else if t.kind == Float then Holds(frame, at, mem[..t.size])
    else Contents(t, mem, WORD).Some? ==> Holds(frame, at, Contents(t, mem, WORD).value)
  }

  /** The argument as the callee finds it: the address of what is larger than a
      word, of a struct that is not 1, 2, 4 or 8 bytes and of a long double; the
      bytes of a float; anything else as on the other targets, in 8 bytes. */
  ghost predicate PassedInWord(frame: seq<Cell>, at: nat, t: CType, address: nat, mem: seq<Byte>)
    requires |mem| >= Needed(t)
  {
    if t.size > 8 || (t.kind == Struct && t.size !in {1, 2, 4, 8}) || t.kind == LongDouble then
      at + 8 <= |frame| && forall k | 0 <= k < 8 :: frame[at + k] == PointerTo(address, k)
    else if t.kind == Float then
      at + t.size <= |frame| && forall k | 0 <= k < t.size :: frame[at + k] == Data(mem[k])
    else Passed(frame, at, t, mem, 8)
  }

  lemma InWordIsPassed(frame: seq<Cell>, at: nat, t: CType, address: nat, mem: seq<Byte>)
    requires |mem| >= Needed(t) && ArgAt(frame, at, t, address, mem)
    ensures PassedInWord(frame, at, t, address, mem)
  {
    if !ByReference(t) && t.kind != Float {
      ContentsArePassed(frame, at, t, mem, 8);
    }
  }

  method PrepArg(stack: array<Cell>, argp: nat, t: CType, address: nat, mem: seq<Byte>) returns (z: nat)
    requires |mem| >= Needed(t)
    requires t.size > 0 && argp + WORD <= stack.Length
    modifies stack
    ensures 0 < z <= WORD
    ensures ArgAt(stack[..], argp, t, address, mem) && PassedInWord(stack[..], argp, t, address, mem)
    ensures forall k | 0 <= k < stack.Length && !(argp <= k < argp + WORD) :: stack[k] == old(stack[k])
  {
    z := t.size;
    if z > WORD || (t.kind == Struct && z != 1 && z != 2 && z != 4 && z != 8) || t.kind == LongDouble {
      z := WORD;
      StorePointer(stack, argp, address, WORD);
    } else if t.kind == Float {
      CopyTo(stack, argp, mem[..z]);
    } else if z < WORD {
      z := WORD;
      match t.kind {
        case SInt8 => CopyTo(stack, argp, ToBytes(Signed(mem[..1]), WORD));
        case UInt8 => CopyTo(stack, argp, ToBytes(Unsigned(mem[..1]), WORD));
        case SInt16 => CopyTo(stack, argp, ToBytes(Signed(mem[..2]), WORD));
        case UInt16 => CopyTo(stack, argp, ToBytes(Unsigned(mem[..2]), WORD));
        case SInt32 => CopyTo(stack, argp, ToBytes(Signed(mem[..4]), WORD));
        case UInt32 => CopyTo(stack, argp, ToBytes(Unsigned(mem[..4]), WORD));
        case Struct => CopyTo(stack, argp, mem[..WORD]);
        case _ =>
      }
    } else {
      CopyTo(stack, argp, mem[..z]);
    }
    InWordIsPassed(stack[..], argp, t, address, mem);
  }

  /** The hidden pointer and the first `n` arguments are in place. */
  ghost predicate Filled(frame: seq<Cell>, args: seq<CType>, rvalue: nat, avalue: seq<nat>, memory: Memory,
                         n: nat, start: nat)
    requires Available(args, avalue, memory) && n <= |args|
  {
    && HoldsPointer(frame, 0, rvalue, start)
    && forall i | 0 <= i < n :: ArgAt(frame, start + WORD * i, args[i], avalue[i], memory[avalue[i]])
  }

  lemma ArgKept(before: seq<Cell>, after: seq<Cell>, at: nat, limit: nat, t: CType, address: nat, mem: seq<Byte>)
    requires |before| == |after| && at + WORD <= limit && t.size > 0
    requires forall k | 0 <= k < limit && k < |before| :: before[k] == after[k]
    requires |mem| >= Needed(t)
    requires ArgAt(before, at, t, address, mem)
    ensures ArgAt(after, at, t, address, mem)
  {}

  lemma FilledNext(before: seq<Cell>, after: seq<Cell>, args: seq<CType>, rvalue: nat, avalue: seq<nat>, memory: Memory,
                   n: nat, start: nat)
    requires |before| == |after| && n < |args| && Available(args, avalue, memory) && AllPrepared(args)
    requires forall k | 0 <= k < start + WORD * n && k < |before| :: before[k] == after[k]
    requires Filled(before, args, rvalue, avalue, memory, n, start)
    requires ArgAt(after, start + WORD * n, args[n], avalue[n], memory[avalue[n]])
    ensures Filled(after, args, rvalue, avalue, memory, n + 1, start)
  {
    forall i | 0 <= i < n
      ensures ArgAt(after, start + WORD * i, args[i], avalue[i], memory[avalue[i]])
    {
      assert Prepared(args[i]);
      ArgKept(before, after, start + WORD * i, start + WORD * n, args[i], avalue[i], memory[avalue[i]]);
    }
  }

  lemma WholeWords(n: nat)
    ensures RoundUp(WORD * n, WORD) == WORD * n
  {
    if n > 1 {
      WholeWords(n - 1);
    }
  }

  /** `ffi_prep_args`: argument `i` is in the 8-byte slot `8 * i`, one slot
      further when there is a hidden pointer, and nothing is written outside
      the slots, so the home area stays free. */
  method PrepArgs(stack: array<Cell>, rtype: CType, args: seq<CType>, rvalue: nat, avalue: seq<nat>, memory: Memory)
    requires AllPrepared(args) && Available(args, avalue, memory)
    requires Hidden(rtype) + WORD * |args| <= stack.Length
    modifies stack
    ensures Filled(stack[..], args, rvalue, avalue, memory, |args|, Hidden(rtype))
    ensures forall k | Hidden(rtype) + WORD * |args| <= k < stack.Length :: stack[k] == old(stack[k])
  {
    WordIsPow2();
    var argp := 0;
    if ReturnFlag(X86Win64, rtype.kind, rtype.size) == Same(Struct) {
      StorePointer(stack, argp, rvalue, WORD);
      argp := argp + WORD;
    }
    ghost var start := argp;
    for i := 0 to |args|
      invariant argp == start + WORD * i
      invariant Filled(stack[..], args, rvalue, avalue, memory, i, start)
      invariant forall k | argp <= k < stack.Length :: stack[k] == old(stack[k])
    {
      WholeWords(if start == 0 then i else i + 1);
      NothingToAlign(argp, WORD);
      if And(WORD - 1, argp) != 0 {
        argp := AlignTo(argp, WORD);
      }
      assert Prepared(args[i]);
      ghost var before := stack[..];
      var z := PrepArg(stack, argp, args[i], avalue[i], memory[avalue[i]]);
      FilledNext(before, stack[..], args, rvalue, avalue, memory, i, start);
      MaskedIsRoundUp(z, WORD);
      argp := argp + And(z + WORD - 1, Complement(WORD - 1));
    }
  }

  // ---------------------------------------------------------------- the call

  /** The frame as the callee finds it: a hidden pointer for a struct that is not
      1, 2, 4 or 8 bytes, and then one word for each argument. */
  ghost predicate Framed(
    frame: seq<Cell>, rtype: CType, args: seq<CType>, rvalue: nat, avalue: seq<nat>, memory: Memory)
    requires Available(args, avalue, memory)
  {
    var hidden := rtype.kind == Struct && rtype.size !in {1, 2, 4, 8};
    && (hidden ==> |frame| >= 8 && forall k | 0 <= k < 8 :: frame[k] == PointerTo(rvalue, k))
    && forall i | 0 <= i < |args| ::
         PassedInWord(frame, (if hidden then 8 else 0) + 8 * i, args[i], avalue[i], memory[avalue[i]])
  }

  lemma FilledIsFramed(frame: seq<Cell>, rtype: CType, args: seq<CType>, rvalue: nat, avalue: seq<nat>, memory: Memory)
    requires Available(args, avalue, memory) && Filled(frame, args, rvalue, avalue, memory, |args|, Hidden(rtype))
    ensures Framed(frame, rtype, args, rvalue, avalue, memory)
  {
    forall i | 0 <= i < |args|
      ensures PassedInWord(frame, Hidden(rtype) + 8 * i, args[i], avalue[i], memory[avalue[i]])
    {
      assert ArgAt(frame, Hidden(rtype) + WORD * i, args[i], avalue[i], memory[avalue[i]]);
      InWordIsPassed(frame, Hidden(rtype) + 8 * i, args[i], avalue[i], memory[avalue[i]]);
    }
  }

  /** Copies are fresh blocks with the content of the originals; every other
      argument is passed as it was. */
  ghost predicate CopiesMade(args: seq<CType>, before: seq<nat>, after: seq<nat>, memory: Memory, memory': Memory,
                             n: nat)
    requires |before| == |after| == |args| && Available(args, before, memory) && n <= |args|
  {
    && (forall a | a in memory :: a in memory' && memory'[a] == memory[a])
    && (forall i | 0 <= i < |args| && !(i < n && Copied(args[i])) :: after[i] == before[i])
    && (forall i | 0 <= i < n && Copied(args[i]) ::
          after[i] !in memory && after[i] in memory' && memory'[after[i]] == memory[before[i]][..args[i].size])
    && (forall i, j | 0 <= i < j < n && Copied(args[i]) && Copied(args[j]) :: after[i] != after[j])
  }

  lemma StillAvailable(args: seq<CType>, before: seq<nat>, after: seq<nat>, memory: Memory, memory': Memory)
    requires |before| == |after| == |args| && Available(args, before, memory)
    requires CopiesMade(args, before, after, memory, memory', |args|)
    ensures Available(args, after, memory')
  {
    forall i | 0 <= i < |args|
      ensures after[i] in memory' && |memory'[after[i]]| >= Needed(args[i])
    {
      if Copied(args[i]) {
        assert ByReference(args[i]);
      }
    }
  }

  /** The loop of `ffi_call` that makes the copies; `next` and everything above
      it is free storage. The caller's argument vector is redirected in place. */
  method CopyStructs(args: seq<CType>, avalue: array<nat>, memory: Memory, next: nat)
    returns (memory': Memory, next': nat)
    requires Available(args, avalue[..], memory) && forall a | a in memory :: a < next
    modifies avalue
    ensures CopiesMade(args, old(avalue[..]), avalue[..], memory, memory', |args|)
    ensures next <= next' && forall a | a in memory' :: a < next'
  {
    memory', next' := memory, next;
    for i := 0 to |args|
      invariant next <= next' && forall a | a in memory' :: a < next'
      invariant CopiesMade(args, old(avalue[..]), avalue[..], memory, memory', i)
    {
      var size := args[i].size;
      if (args[i].kind == Struct && size != 1 && size != 2 && size != 4 && size != 8) || args[i].kind == LongDouble {
        var local := next';
        next' := next' + 1;
        memory' := memory'[local := memory'[avalue[i]][..size]];
        avalue[i] := local;
      }
    }
  }

  /** `ffi_call` up to the jump: a frame of the reserved size in which every
      argument is in its slot; what travels by reference is a copy of equal content. */
  method FfiCall(rtype: CType, args: seq<CType>, bytes: nat, rvalue: nat, avalue: array<nat>, memory: Memory, next: nat,
                 ghost earlier: nat)
    returns (stack: array<Cell>, memory': Memory, rvalue': nat)
    requires AllPrepared(args) && Available(args, avalue[..], memory) && forall a | a in memory :: a < next
    requires bytes == Reserved(args, earlier + Hidden(rtype), WORD) + HOME_AREA
    modifies avalue
    ensures fresh(stack) && stack.Length == bytes >= Hidden(rtype) + WORD * |args| + HOME_AREA
    ensures CopiesMade(args, old(avalue[..]), avalue[..], memory, memory', |args|)
    ensures Available(args, avalue[..], memory')
    ensures Framed(stack[..], rtype, args, rvalue', avalue[..], memory')
    ensures if rvalue == 0 && rtype.kind == Struct && rtype.size !in {1, 2, 4, 8} then rvalue' !in memory'
            else rvalue' == rvalue
  {
    var next';
    memory', next' := CopyStructs(args, avalue, memory, next);
    StillAvailable(args, old(avalue[..]), avalue[..], memory, memory');
    rvalue' := if rvalue == 0 && Hidden(rtype) != 0 then next' else rvalue;
    SlotsFit(args, earlier + Hidden(rtype));
    stack := new Cell[bytes](_ => Data(0));
    PrepArgs(stack, rtype, args, rvalue', avalue[..], memory');
    FilledIsFramed(stack[..], rtype, args, rvalue', avalue[..], memory');
  }
}

/** Call frames of the 32-bit x86 port of libffi: `ffi_prep_cif` reserves stack
    bytes in one loop, aligning to each argument's own alignment; much later
    `ffi_prep_args` writes the arguments in another loop, aligning to the word. */
module FfiFrame {
  import opened Arithmetic
  import opened Bits
  import opened FfiAlign
  import opened FfiLayout

  newtype Byte = x: int | 0 <= x < 256

  datatype Cell = Data(value: Byte) | PointerTo(address: nat, index: nat)
  datatype CType = CType(kind: Kind, size: nat, alignment: nat)
  datatype Target = X86 | X86Win32 | X86Win64
  datatype Flag = Same(kind: Kind) | SmallStruct1B | SmallStruct2B | SmallStruct4B
  datatype Cif = Cif(rtype: CType, args: seq<CType>, bytes: nat, flags: Flag)

  /** Storage the call's arguments live in, by address. */
  type Memory = map<nat, seq<Byte>>

  predicate RegisterSized(size: nat) {
    size == 1 || size == 2 || size == 4 || size == 8
  }

  /** How the return value travels. Only a flag of STRUCT makes the frame start
      with a hidden pointer. */
  function ReturnFlag(target: Target, kind: Kind, size: nat): (f: Flag)
    ensures f == Same(Struct) <==> kind == Struct && (target == X86 || !RegisterSized(size))
  {
    match target
    case X86 => (
      match kind
      case Void | Struct | UInt8 | UInt16 | SInt8 | SInt16 | SInt64 | Float | Double | LongDouble => Same(kind)
      case UInt64 => Same(SInt64)
      case _ => Same(Int))
    case X86Win32 => (
      match kind
      case Void | SInt64 | Float | Double | LongDouble => Same(kind)
      case UInt64 => Same(SInt64)
      case Struct =>
        if size == 1 then SmallStruct1B
        else if size == 2 then SmallStruct2B
        else if size == 4 then Same(Int)
        else if size == 8 then Same(SInt64)
        else Same(Struct)
      case _ => Same(Int))
    case X86Win64 => (
      match kind
      case Void | UInt8 | UInt16 | SInt8 | SInt16 | UInt32 | SInt32 | SInt64 | Float | Double => Same(kind)
      case UInt64 | Pointer => Same(SInt64)
      case Struct =>
        if size == 1 then SmallStruct1B
        else if size == 2 then SmallStruct2B
        else if size == 4 then SmallStruct4B
        else if size == 8 then Same(SInt64)
        else Same(Struct)
      case Int => Same(SInt32)
      case _ => Same(SInt64))
  }

  // ---------------------------------------------------------------- reservation

  ghost predicate Prepared(t: CType) {
    t.size > 0 && IsPow2(t.alignment)
  }

  ghost predicate AllPrepared(args: seq<CType>) {
    forall i | 0 <= i < |args| :: Prepared(args[i])
  }

  /** The bytes the reservation loop arrives at from `start`. */
  function Reserved(args: seq<CType>, start: nat, word: nat): nat {
    if args == [] then start
    else
      var n := |args| - 1;
      RoundUp(Reserved(args[..n], start, word), args[n].alignment) + RoundUp(args[n].size, word)
  }

  /** Where the writing loop puts argument `i`: words only. */
  function Slot(args: seq<CType>, i: nat, start: nat, word: nat): nat
    requires i <= |args|
  {
    if i == 0 then start else Slot(args, i - 1, start, word) + RoundUp(args[i - 1].size, word)
  }

  /** Aligning only if a low bit is set gives the same as aligning always. */
  lemma NothingToAlign(v: nat, a: nat)
    requires IsPow2(a)
    ensures And(a - 1, v) == 0 ==> RoundUp(v, a) == v
  {
    var k: nat :| a == Pow2(k);
    AndMask(v, k);
    ToWordIsRemainder(k, v);
    if And(a - 1, v) == 0 {
      MultipleIsRemainderZero(v, a);
      RoundUpIsLeastMultiple(v, a);
      LeastIsUnique(RoundUp(v, a), v, v, a);
    }
  }

  /** One turn of the reservation loop. */
  method ReserveOne(bytes: nat, t: CType, word: nat) returns (r: nat)
    requires Prepared(t) && IsPow2(word)
    ensures r == RoundUp(bytes, t.alignment) + RoundUp(t.size, word)
  {
    r := bytes;
    NothingToAlign(bytes, t.alignment);
    if And(t.alignment - 1, r) != 0 {
      r := AlignTo(r, t.alignment);
    }
    var size := AlignTo(t.size, word);
    r := r + size;
  }

  /** The reservation never falls behind the writer, whatever the alignments. */
  lemma {:induction false} ReservationDominates(args: seq<CType>, i: nat, written: nat, start: nat, word: nat)
    requires AllPrepared(args) && i <= |args| && written <= start
    ensures Slot(args, i, written, word) <= Reserved(args[..i], start, word)
  {
    if i > 0 {
      ReservationDominates(args, i - 1, written, start, word);
      ReservedStep(args, i - 1, start, word);
    }
  }

  lemma ReservedStep(args: seq<CType>, i: nat, start: nat, word: nat)
    requires AllPrepared(args) && i < |args|
    ensures Reserved(args[..i + 1], start, word) >= Reserved(args[..i], start, word) + RoundUp(args[i].size, word)
  {
    assert args[..i + 1][..i] == args[..i];
    assert Prepared(args[i]);
  }

  lemma {:induction false} ReservedGrows(args: seq<CType>, i: nat, start: nat, word: nat)
    requires AllPrepared(args) && i <= |args|
    ensures Reserved(args[..i], start, word) <= Reserved(args, start, word)
    decreases |args| - i
  {
    if i < |args| {
      ReservedStep(args, i, start, word);
      ReservedGrows(args, i + 1, start, word);
    } else {
      assert args[..i] == args;
    }
  }

  /** The reservation is as long as the slots exactly if every argument's slot
      happens to have the alignment of its type. */
  lemma {:induction false} NothingSpareIff(args: seq<CType>, n: nat, start: nat, word: nat)
    requires AllPrepared(args) && n <= |args|
    ensures Reserved(args[..n], start, word) == Slot(args, n, start, word)
       <==> forall i | 0 <= i < n :: SlotHasAlignment(args, i, start, word)
  {
    if n > 0 {
      NothingSpareIff(args, n - 1, start, word);
      ReservationDominates(args, n - 1, start, start, word);
      assert args[..n][..n - 1] == args[..n - 1];
      assert Prepared(args[n - 1]);
      RoundedInPlace(Reserved(args[..n - 1], start, word), Slot(args, n - 1, start, word), args[n - 1].alignment);
      assert (forall i | 0 <= i < n :: SlotHasAlignment(args, i, start, word))
        <==> (forall i | 0 <= i < n - 1 :: SlotHasAlignment(args, i, start, word))
             && SlotHasAlignment(args, n - 1, start, word);
    }
  }

  ghost predicate SlotHasAlignment(args: seq<CType>, i: nat, start: nat, word: nat)
    requires i < |args| && Prepared(args[i])
  {
    Multiple(Slot(args, i, start, word), args[i].alignment)
  }

  lemma RoundedInPlace(reserved: nat, written: nat, a: nat)
    requires a > 0 && written <= reserved
    ensures RoundUp(reserved, a) == written <==> reserved == written && Multiple(written, a)
  {
    RoundUpIsLeastMultiple(reserved, a);
    if reserved == written && Multiple(written, a) {
      LeastIsUnique(RoundUp(reserved, a), written, reserved, a);
    }
  }

  /** So every slot ends inside the reservation. */
  lemma SlotFits(args: seq<CType>, i: nat, written: nat, start: nat, word: nat)
    requires AllPrepared(args) && i <= |args| && written <= start
    ensures Slot(args, i, written, word) <= Reserved(args, start, word)
  {
    ReservationDominates(args, i, written, start, word);
    ReservedGrows(args, i, start, word);
  }

  /** Slots are word-aligned, in order and disjoint: each ends before the next one starts. */
  lemma {:induction false} SlotsInOrder(args: seq<CType>, i: nat, j: nat, start: nat, word: nat)
    requires i < j <= |args| && word > 0
    ensures Slot(args, i, start, word) + RoundUp(args[i].size, word) <= Slot(args, j, start, word)
    decreases j
  {
    if i < j - 1 {
      SlotsInOrder(args, i, j - 1, start, word);
    }
  }

  lemma {:induction false} SlotAligned(args: seq<CType>, i: nat, start: nat, word: nat)
    requires i <= |args| && word > 0 && Multiple(start, word)
    ensures Multiple(Slot(args, i, start, word), word)
  {
    if i > 0 {
      SlotAligned(args, i - 1, start, word);
      RoundUpIsLeastMultiple(args[i - 1].size, word);
      MultipleSum(Slot(args, i - 1, start, word), RoundUp(args[i - 1].size, word), word);
    }
  }

  // ---------------------------------------------------------------- values

  /** Little-endian values of byte strings. */
  function Unsigned(bs: seq<Byte>): nat {
    if bs == [] then 0 else bs[0] as int + 256 * Unsigned(bs[1..])
  }

  function Signed(bs: seq<Byte>): int
    requires bs != []
  {
    if |bs| == 1 then (if bs[0] >= 128 then bs[0] as int - 256 else bs[0] as int)
    else bs[0] as int + 256 * Signed(bs[1..])
  }

  /** An integer stored as `n` bytes, truncated. */
  function ToBytes(v: int, n: nat): (bs: seq<Byte>)
    ensures |bs| == n
    decreases n
  {
    if n == 0 then [] else [(v % 256) as Byte] + ToBytes(v / 256, n - 1)
  }

  /** Half of the range of `n` bytes. */
  function Half(n: nat): (h: int)
    requires n > 0
    ensures h > 0
  {
    if n == 1 then 128 else 256 * Half(n - 1)
  }

  lemma {:induction false} StoredSigned(v: int, n: nat)
    requires n > 0 && -Half(n) <= v < Half(n)
    ensures Signed(ToBytes(v, n)) == v
    decreases n
  {
    if n > 1 {
      StoredSigned(v / 256, n - 1);
    }
  }

  lemma {:induction false} StoredUnsigned(v: nat, n: nat)
    requires n > 0 && v < 2 * Half(n)
    ensures Unsigned(ToBytes(v, n)) == v
    decreases n
  {
    if n > 1 {
      StoredUnsigned(v / 256, n - 1);
    } else {
      assert ToBytes(v, 1) == [v as Byte];
    }
  }

  lemma {:induction false} Ranges(bs: seq<Byte>, n: nat)
    requires 0 < |bs| <= n
    ensures -Half(n) <= Signed(bs) < Half(n) && Unsigned(bs) < 2 * Half(n)
    decreases n
  {
    if |bs| == 1 {
      assert Unsigned(bs[1..]) == 0;
      if n > 1 {
        Ranges(bs, n - 1);
      }
    } else {
      Ranges(bs[1..], n - 1);
    }
  }

  /** Bytes the writer reads from an argument: a short struct is read as a whole word. */
  function ReadWidth(t: CType, word: nat): nat {
    if t.size >= word then t.size
    else match t.kind
      case SInt8 | UInt8 => 1
      case SInt16 | UInt16 => 2
      case SInt32 | UInt32 => 4
      case Struct => word
      case _ => 0
  }

  /** The bytes an argument slot starts with; a short type the writer has no
      case for, which it asserts away, leaves its slot as it was. */
  function Contents(t: CType, mem: seq<Byte>, word: nat): (r: Option<seq<Byte>>)
    requires |mem| >= ReadWidth(t, word)
    ensures r.Some? ==> |r.value| == if t.size >= word then t.size else word
  {
    if t.size >= word then Some(mem[..t.size])
    else match t.kind
      case SInt8 => Some(ToBytes(Signed(mem[..1]), word))
      case UInt8 => Some(ToBytes(Unsigned(mem[..1]), word))
      case SInt16 => Some(ToBytes(Signed(mem[..2]), word))
      case UInt16 => Some(ToBytes(Unsigned(mem[..2]), word))
      case SInt32 => Some(ToBytes(Signed(mem[..4]), word))
      case UInt32 => Some(ToBytes(Unsigned(mem[..4]), word))
      case Struct => Some(mem[..word])
      case _ => None
  }

  /** A promoted integer has the value of the argument it was made from. */
  lemma PromotionKeepsValue(t: CType, mem: seq<Byte>, word: nat)
    requires word >= 4 && |mem| >= ReadWidth(t, word) && t.size < word
    ensures t.kind in {SInt8, SInt16, SInt32} ==>
              Signed(Contents(t, mem, word).value) == Signed(mem[..ReadWidth(t, word)])
    ensures t.kind in {UInt8, UInt16, UInt32} ==>
              Unsigned(Contents(t, mem, word).value) == Unsigned(mem[..ReadWidth(t, word)])
  {
    var n := ReadWidth(t, word);
    if t.kind in {SInt8, SInt16, SInt32} {
      Ranges(mem[..n], word);
      StoredSigned(Signed(mem[..n]), word);
    } else if t.kind in {UInt8, UInt16, UInt32} {
      Ranges(mem[..n], word);
      StoredUnsigned(Unsigned(mem[..n]), word);
    }
  }

  // ---------------------------------------------------------------- what the callee finds

  /** Cells `at..` of the frame hold exactly these bytes. */
  ghost predicate Holds(frame: seq<Cell>, at: nat, bytes: seq<Byte>) {
    at + |bytes| <= |frame| && forall k | 0 <= k < |bytes| :: frame[at + k] == Data(bytes[k])
  }

  ghost predicate HoldsPointer(frame: seq<Cell>, at: nat, address: nat, word: nat) {
    at + word <= |frame| && forall k | 0 <= k < word :: frame[at + k] == PointerTo(address, k)
  }

  /** A word that begins with `n` bytes of the argument and goes on with zeros,
      or with copies of its sign. */
  function Wide(mem: seq<Byte>, n: nat, word: nat, signed: bool): (w: seq<Byte>)
    requires 0 < n <= |mem| && n <= word
    ensures |w| == word && w[..n] == mem[..n]
    ensures forall k | n <= k < word :: w[k] == if signed && mem[n - 1] >= 128 then 255 else 0
  {
    mem[..n] + seq(word - n, _ => if signed && mem[n - 1] >= 128 then 255 else 0)
  }

  ghost predicate Widened(frame: seq<Cell>, at: nat, mem: seq<Byte>, n: nat, word: nat, signed: bool)
    requires 0 < n <= |mem| && n <= word
  {
    Holds(frame, at, Wide(mem, n, word, signed))
  }

  /** The argument as the callee finds it: the bytes of its storage as they are,
      if it is a word or longer; a short integer widened to a word; of a short
      struct the word it is read as. A short type of another kind is not passed. */
  ghost predicate Passed(frame: seq<Cell>, at: nat, t: CType, mem: seq<Byte>, word: nat)
    requires word >= 4 && |mem| >= ReadWidth(t, word)
  {
    if t.size >= word then at + t.size <= |frame| && forall k | 0 <= k < t.size :: frame[at + k] == Data(mem[k])
    else match t.kind
      case SInt8 => Widened(frame, at, mem, 1, word, true)
      case UInt8 => Widened(frame, at, mem, 1, word, false)
      case SInt16 => Widened(frame, at, mem, 2, word, true)
      case UInt16 => Widened(frame, at, mem, 2, word, false)
      case SInt32 => Widened(frame, at, mem, 4, word, true)
      case UInt32 => Widened(frame, at, mem, 4, word, false)
      case Struct => at + word <= |frame| && forall k | 0 <= k < word :: frame[at + k] == Data(mem[k])
      case _ => true
  }

  lemma {:induction false} ZerosBehind(n: nat, k: nat)
    requires k < n
    ensures ToBytes(0, n)[k] == 0 && ToBytes(-1, n)[k] == 255
    decreases n
  {
    if k > 0 {
      ZerosBehind(n - 1, k - 1);
    }
  }

  /** Storing an unsigned value in more bytes appends zeros. */
  lemma {:induction false} UnsignedWidens(bs: seq<Byte>, n: nat, k: nat)
    requires |bs| <= n && k < n
    ensures ToBytes(Unsigned(bs), n)[k] == if k < |bs| then bs[k] else 0
    decreases n
  {
    if bs == [] {
      ZerosBehind(n, k);
    } else if k > 0 {
      UnsignedWidens(bs[1..], n - 1, k - 1);
    }
  }

  /** Storing a signed one appends copies of its sign. */
  lemma {:induction false} SignedWidens(bs: seq<Byte>, n: nat, k: nat)
    requires 0 < |bs| <= n && k < n
    ensures ToBytes(Signed(bs), n)[k] == if k < |bs| then bs[k] else if bs[|bs| - 1] >= 128 then 255 else 0
    decreases n
  {
    if k > 0 {
      if |bs| == 1 {
        ZerosBehind(n - 1, k - 1);
      } else {
        SignedWidens(bs[1..], n - 1, k - 1);
      }
    }
  }

  lemma PromotionIsWide(mem: seq<Byte>, n: nat, word: nat, signed: bool)
    requires 0 < n <= |mem| && n <= word
    ensures ToBytes(if signed then Signed(mem[..n]) else Unsigned(mem[..n]), word) == Wide(mem, n, word, signed)
  {
    var bytes := ToBytes(if signed then Signed(mem[..n]) else Unsigned(mem[..n]), word);
    forall k | 0 <= k < word
      ensures bytes[k] == Wide(mem, n, word, signed)[k]
    {
      if signed {
        SignedWidens(mem[..n], word, k);
      } else {
        UnsignedWidens(mem[..n], word, k);
      }
    }
  }

  /** What the writer puts into a slot is the argument as the callee expects it. */
  lemma ContentsArePassed(frame: seq<Cell>, at: nat, t: CType, mem: seq<Byte>, word: nat)
    requires word >= 4 && |mem| >= ReadWidth(t, word)
    requires Contents(t, mem, word).Some? ==> Holds(frame, at, Contents(t, mem, word).value)
    ensures Passed(frame, at, t, mem, word)
  {
    if t.size < word {
      match t.kind
      case SInt8 => PromotionIsWide(mem, 1, word, true);
      case UInt8 => PromotionIsWide(mem, 1, word, false);
      case SInt16 => PromotionIsWide(mem, 2, word, true);
      case UInt16 => PromotionIsWide(mem, 2, word, false);
      case SInt32 => PromotionIsWide(mem, 4, word, true);
      case UInt32 => PromotionIsWide(mem, 4, word, false);
      case _ =>
    }
  }

  ghost predicate AllData(frame: seq<Cell>, at: nat, n: nat) {
    at + n <= |frame| && forall k | at <= k < at + n :: frame[k].Data?
  }

  function Read(frame: seq<Cell>, at: nat, n: nat): seq<Byte>
    requires AllData(frame, at, n)
  {
    seq(n, k requires 0 <= k < n => frame[at + k].value)
  }

  lemma HeldIsRead(frame: seq<Cell>, at: nat, bytes: seq<Byte>)
    requires Holds(frame, at, bytes)
    ensures AllData(frame, at, |bytes|) && Read(frame, at, |bytes|) == bytes
  {
    forall k | at <= k < at + |bytes|
      ensures frame[k] == Data(bytes[k - at])
    {
      assert frame[at + (k - at)] == Data(bytes[k - at]);
    }
  }

  /** The callee reads back the value the argument has in memory. */
  lemma ReadsBack(frame: seq<Cell>, at: nat, mem: seq<Byte>, n: nat, word: nat, signed: bool)
    requires 0 < n <= |mem| && n <= word && Widened(frame, at, mem, n, word, signed)
    ensures AllData(frame, at, word)
    ensures if signed then Signed(Read(frame, at, word)) == Signed(mem[..n])
            else Unsigned(Read(frame, at, word)) == Unsigned(mem[..n])
  {
    HeldIsRead(frame, at, Wide(mem, n, word, signed));
    PromotionIsWide(mem, n, word, signed);
    Ranges(mem[..n], word);
    if signed {
      StoredSigned(Signed(mem[..n]), word);
    } else {
      StoredUnsigned(Unsigned(mem[..n]), word);
    }
  }

  /** Positions at words, each behind its predecessor as closely as can be. */
  ghost predicate OneAfterAnother(p: seq<nat>, args: seq<CType>, start: nat, word: nat)
    requires word > 0
  {
    && |p| == |args| && (p != [] ==> p[0] == start)
    && (forall i | 0 <= i < |p| :: p[i] % word == 0)
    && forall i, j | 0 <= i && j == i + 1 < |p| :: p[i] + args[i].size <= p[j] < p[i] + args[i].size + word
  }

  // ---------------------------------------------------------------- the two loops

  /** A descriptor as it is once laid out. */
  ghost predicate Describes(t: CType, d: FfiType, g: Sizes)
    requires d.Acyclic() && Sane(g)
  {
    t.kind == d.kind && d.LayoutOf(g) == Some(Layout(t.size, t.alignment))
  }

  /** The guard on one descriptor. */
  method PrepareType(d: FfiType, ghost graph: set<FfiType>, ghost g: Sizes) returns (r: Option<CType>)
    requires Closed(graph) && d in graph && Sane(g) && AllLaidOut(graph, g, Now(graph))
    modifies graph
    ensures Sane(Now(graph)) && AllFates(graph, g, Now(graph))
    ensures r.Some? <==> d.LayoutOf(g).Some?
    ensures r.Some? ==> AllLaidOut(graph, g, Now(graph)) && Describes(r.value, d, g)
  {
    var ok := PrepareFrom(d, graph, g);
    r := if ok then Some(CType(d.kind, d.size, d.alignment)) else None;
  }

  /** What the loop over the arguments has found, and the space for it. */
  ghost predicate Found(args: seq<CType>, bytes: nat, argTypes: seq<FfiType>, g: Sizes, start: nat)
    requires Sane(g) && forall d | d in argTypes :: d.Acyclic()
  {
    && |args| <= |argTypes| && AllPrepared(args) && bytes == Reserved(args, start, 4)
    && forall i | 0 <= i < |args| :: Describes(args[i], argTypes[i], g)
  }

  lemma FoundNext(args: seq<CType>, bytes: nat, t: CType, argTypes: seq<FfiType>, g: Sizes, start: nat)
    requires Sane(g) && (forall d | d in argTypes :: d.Acyclic()) && Found(args, bytes, argTypes, g, start)
    requires |args| < |argTypes| && Describes(t, argTypes[|args|], g)
    ensures Found(args + [t], RoundUp(bytes, t.alignment) + RoundUp(t.size, 4), argTypes, g, start)
  {
    assert (args + [t])[..|args|] == args;
    assert Prepared(t);
  }

  /** The loop over the arguments: each is prepared, and space is made for it. */
  method PrepareArgs(argTypes: seq<FfiType>, start: nat, ghost graph: set<FfiType>, ghost g: Sizes)
    returns (r: Option<(seq<CType>, nat)>)
    requires Closed(graph) && Sane(g) && AllLaidOut(graph, g, Now(graph)) && forall d | d in argTypes :: d in graph
    modifies graph
    ensures Sane(Now(graph)) && AllFates(graph, g, Now(graph))
    ensures r.Some? <==> forall d | d in argTypes :: d.LayoutOf(g).Some?
    ensures r.Some? ==>
              && AllLaidOut(graph, g, Now(graph)) && |r.value.0| == |argTypes|
              && Found(r.value.0, r.value.1, argTypes, g, start)
  {
    WordIsPow2();
    var bytes := start;
    var args: seq<CType> := [];
    FatesAreSane(graph, g);
    for i := 0 to |argTypes|
      invariant Sane(Now(graph)) && AllFates(graph, g, Now(graph)) && AllLaidOut(graph, g, Now(graph))
      invariant |args| == i && Found(args, bytes, argTypes, g, start)
    {
      var arg := PrepareType(argTypes[i], graph, g);
      if arg.None? {
        return None;
      }
      assert Prepared(arg.value);
      FoundNext(args, bytes, arg.value, argTypes, g, start);
      bytes := ReserveOne(bytes, arg.value, 4);
      args := args + [arg.value];
    }
    r := Some((args, bytes));
  }

  /** `ffi_prep_cif` on 32-bit x86, on descriptors in any state: fails exactly
      when a type has no layout; otherwise the bytes are the reservation for the
      laid out types. */
  method PrepCif(target: Target, rtype: FfiType, argTypes: seq<FfiType>, ghost graph: set<FfiType>)
    returns (cif: Option<Cif>)
    requires target != X86Win64
    requires Closed(graph) && Sane(Now(graph)) && rtype in graph && forall d | d in argTypes :: d in graph
    modifies graph
    ensures Sane(Now(graph)) && AllFates(graph, old(Now(graph)), Now(graph))
    ensures cif.Some? <==>
              && rtype.LayoutOf(old(Now(graph))).Some?
              && forall d | d in argTypes :: d.LayoutOf(old(Now(graph))).Some?
    ensures cif.Some? ==>
              && Describes(cif.value.rtype, rtype, old(Now(graph))) && |cif.value.args| == |argTypes|
              && (forall i | 0 <= i < |argTypes| :: Describes(cif.value.args[i], argTypes[i], old(Now(graph))))
              && AllPrepared(cif.value.args)
              && cif.value.bytes == Reserved(cif.value.args, if rtype.kind == Struct then 4 else 0, 4)
              && cif.value.flags == ReturnFlag(target, cif.value.rtype.kind, cif.value.rtype.size)
  {
    ghost var g := Now(graph);
    var ret := PrepareType(rtype, graph, g);
    if ret.None? {
      return None;
    }
    var bytes := 0;
    if rtype.kind == Struct {
      WordIsPow2();
      bytes := AlignTo(4, 4);
    }
    var rest := PrepareArgs(argTypes, bytes, graph, g);
    if rest.None? {
      return None;
    }
    cif := Some(Cif(ret.value, rest.value.0, rest.value.1, ReturnFlag(target, ret.value.kind, ret.value.size)));
  }

  lemma WordIsPow2()
    ensures IsPow2(4) && IsPow2(8)
  {
    assert Pow2(0) == 1;
    assert Pow2(1) == 2;
    assert Pow2(2) == 4;
    assert Pow2(3) == 8;
  }

  method CopyTo(stack: array<Cell>, at: nat, bytes: seq<Byte>)
    requires at + |bytes| <= stack.Length
    modifies stack
    ensures forall k | 0 <= k < |bytes| :: stack[at + k] == Data(bytes[k])
    ensures forall k | 0 <= k < stack.Length && !(at <= k < at + |bytes|) :: stack[k] == old(stack[k])
  {
    for n := 0 to |bytes|
      invariant forall k | 0 <= k < n :: stack[at + k] == Data(bytes[k])
      invariant forall k | 0 <= k < stack.Length && !(at <= k < at + n) :: stack[k] == old(stack[k])
    {
      stack[at + n] := Data(bytes[n]);
    }
  }

  method StorePointer(stack: array<Cell>, at: nat, address: nat, word: nat)
    requires at + word <= stack.Length
    modifies stack
    ensures forall k | 0 <= k < word :: stack[at + k] == PointerTo(address, k)
    ensures forall k | 0 <= k < stack.Length && !(at <= k < at + word) :: stack[k] == old(stack[k])
  {
    for n := 0 to word
      invariant forall k | 0 <= k < n :: stack[at + k] == PointerTo(address, k)
      invariant forall k | 0 <= k < stack.Length && !(at <= k < at + n) :: stack[k] == old(stack[k])
    {
      stack[at + n] := PointerTo(address, n);
    }
  }

  /** The argument types and the storage of one call. */
  ghost predicate Readable(args: seq<CType>, avalue: seq<nat>, memory: Memory, word: nat) {
    && |avalue| == |args|
    && forall i | 0 <= i < |args| :: avalue[i] in memory && |memory[avalue[i]]| >= ReadWidth(args[i], word)
  }

  /** Argument `i` is in its slot, promoted where it is shorter than a word. */
  ghost predicate InSlot(frame: seq<Cell>, args: seq<CType>, avalue: seq<nat>, memory: Memory, i: nat, start: nat)
    requires Readable(args, avalue, memory, 4) && i < |args|
  {
    var contents := Contents(args[i], memory[avalue[i]], 4);
    contents.Some? ==> Holds(frame, Slot(args, i, start, 4), contents.value)
  }

  /** Writing one argument: the slot is filled, nothing else changes. */
  method PrepArg(stack: array<Cell>, argp: nat, t: CType, mem: seq<Byte>) returns (z: nat)
    requires |mem| >= ReadWidth(t, 4)
    requires argp + t.size <= stack.Length && argp + 4 <= stack.Length
    modifies stack
    ensures z == if t.size < 4 then 4 else t.size
    ensures Passed(stack[..], argp, t, mem, 4)
    ensures Contents(t, mem, 4).Some? ==> Holds(stack[..], argp, Contents(t, mem, 4).value)
    ensures forall k | 0 <= k < stack.Length && !(argp <= k < argp + z) :: stack[k] == old(stack[k])
  {
    z := t.size;
    if z < 4 {
      z := 4;
      match t.kind {
        case SInt8 => CopyTo(stack, argp, ToBytes(Signed(mem[..1]), 4));
        case UInt8 => CopyTo(stack, argp, ToBytes(Unsigned(mem[..1]), 4));
        case SInt16 => CopyTo(stack, argp, ToBytes(Signed(mem[..2]), 4));
        case UInt16 => CopyTo(stack, argp, ToBytes(Unsigned(mem[..2]), 4));
        case SInt32 => CopyTo(stack, argp, ToBytes(Signed(mem[..4]), 4));
        case UInt32 => CopyTo(stack, argp, ToBytes(Unsigned(mem[..4]), 4));
        case Struct => CopyTo(stack, argp, mem[..4]);
        case _ =>
      }
    } else {
      CopyTo(stack, argp, mem[..z]);
    }
    ContentsArePassed(stack[..], argp, t, mem, 4);
  }

  /** The frame holds the hidden pointer, if there is one, and the first `n` arguments. */
  ghost predicate Filled(frame: seq<Cell>, args: seq<CType>, rvalue: nat, avalue: seq<nat>, memory: Memory,
                         n: nat, start: nat)
    requires Readable(args, avalue, memory, 4) && n <= |args|
  {
    && HoldsPointer(frame, 0, rvalue, start)
    && forall i | 0 <= i < n :: InSlot(frame, args, avalue, memory, i, start)
  }

  /** A write into slot `n` adds an argument and leaves the slots before it alone. */
  lemma FilledNext(before: seq<Cell>, after: seq<Cell>, args: seq<CType>, rvalue: nat, avalue: seq<nat>, memory: Memory,
                   n: nat, start: nat)
    requires |before| == |after| && n < |args| && Readable(args, avalue, memory, 4)
    requires forall k | 0 <= k < Slot(args, n, start, 4) && k < |before| :: before[k] == after[k]
    requires AllPrepared(args) && Filled(before, args, rvalue, avalue, memory, n, start)
    requires InSlot(after, args, avalue, memory, n, start)
    ensures Filled(after, args, rvalue, avalue, memory, n + 1, start)
  {
    SlotsInOrderFromStart(args, n, start);
    forall j | 0 <= j < n
      ensures InSlot(after, args, avalue, memory, j, start)
    {
      SlotsInOrder(args, j, n, start, 4);
      assert Prepared(args[j]);
      assert InSlot(before, args, avalue, memory, j, start);
    }
  }

  lemma {:induction false} SlotsInOrderFromStart(args: seq<CType>, i: nat, start: nat)
    requires i <= |args|
    ensures start <= Slot(args, i, start, 4)
  {
    if i > 0 {
      SlotsInOrderFromStart(args, i - 1, start);
    }
  }

  /** One turn: the position is aligned if it has to be, and the argument written. */
  method WriteArg(stack: array<Cell>, args: seq<CType>, ghost rvalue: nat, avalue: seq<nat>, memory: Memory,
                  ghost start: nat, i: nat, at: nat)
    returns (argp: nat)
    requires AllPrepared(args) && Readable(args, avalue, memory, 4) && i < |args|
    requires Multiple(start, 4) && Slot(args, |args|, start, 4) <= stack.Length
    requires RoundUp(at, 4) == Slot(args, i, start, 4) && Filled(stack[..], args, rvalue, avalue, memory, i, start)
    modifies stack
    ensures RoundUp(argp, 4) == Slot(args, i + 1, start, 4)
    ensures Filled(stack[..], args, rvalue, avalue, memory, i + 1, start)
  {
    WordIsPow2();
    argp := at;
    NothingToAlign(argp, 4);
    if And(4 - 1, argp) != 0 {
      argp := AlignTo(argp, 4);
    }
    assert Prepared(args[i]);
    SlotsInOrder(args, i, |args|, start, 4);
    NextSlot(args, i, argp, start);
    ghost var before := stack[..];
    var z := PrepArg(stack, argp, args[i], memory[avalue[i]]);
    FilledNext(before, stack[..], args, rvalue, avalue, memory, i, start);
    argp := argp + z;
  }

  /** The loop of `ffi_prep_args` over the arguments. */
  method WriteArgs(stack: array<Cell>, args: seq<CType>, ghost rvalue: nat, avalue: seq<nat>, memory: Memory,
                   start: nat)
    requires AllPrepared(args) && Readable(args, avalue, memory, 4)
    requires Multiple(start, 4) && Slot(args, |args|, start, 4) <= stack.Length
    requires Filled(stack[..], args, rvalue, avalue, memory, 0, start)
    modifies stack
    ensures Filled(stack[..], args, rvalue, avalue, memory, |args|, start)
  {
    var argp := start;
    NothingToRound(start);
    for i := 0 to |args|
      invariant RoundUp(argp, 4) == Slot(args, i, start, 4)
      invariant Filled(stack[..], args, rvalue, avalue, memory, i, start)
    {
      argp := WriteArg(stack, args, rvalue, avalue, memory, start, i, argp);
    }
  }

  lemma NothingToRound(v: nat)
    requires Multiple(v, 4)
    ensures RoundUp(v, 4) == v
  {
    RoundUpIsLeastMultiple(v, 4);
    LeastIsUnique(RoundUp(v, 4), v, v, 4);
  }

  /** An unaligned end still rounds up to the next slot. */
  lemma NextSlot(args: seq<CType>, i: nat, argp: nat, start: nat)
    requires i < |args| && args[i].size > 0 && argp == Slot(args, i, start, 4) && Multiple(start, 4)
    ensures RoundUp(argp + (if args[i].size < 4 then 4 else args[i].size), 4) == Slot(args, i + 1, start, 4)
  {
    SlotAligned(args, i, start, 4);
    var z := if args[i].size < 4 then 4 else args[i].size;
    RoundUpIsLeastMultiple(z, 4);
    RoundUpIsLeastMultiple(argp + z, 4);
    MultipleSum(argp, RoundUp(z, 4), 4);
    LeastIsUnique(RoundUp(argp + z, 4), argp + RoundUp(z, 4), argp + z, 4);
  }

  /** The frame as the callee finds it: `start` bytes of hidden pointer, and then
      every argument. */
  ghost predicate Framed(frame: seq<Cell>, start: nat, args: seq<CType>, rvalue: nat, avalue: seq<nat>, memory: Memory)
    requires Readable(args, avalue, memory, 4)
  {
    HoldsPointer(frame, 0, rvalue, start) && exists p :: ArgumentsAt(frame, p, args, avalue, memory, start)
  }

  ghost predicate ArgumentsAt(
      frame: seq<Cell>, p: seq<nat>, args: seq<CType>, avalue: seq<nat>, memory: Memory, start: nat)
    requires Readable(args, avalue, memory, 4)
  {
    && OneAfterAnother(p, args, start, 4)
    && forall i | 0 <= i < |args| :: Passed(frame, p[i], args[i], memory[avalue[i]], 4)
  }

  lemma SlotPassed(frame: seq<Cell>, args: seq<CType>, avalue: seq<nat>, memory: Memory, i: nat, start: nat)
    requires Readable(args, avalue, memory, 4) && i < |args| && Multiple(start, 4)
    requires InSlot(frame, args, avalue, memory, i, start)
    ensures Slot(args, i, start, 4) % 4 == 0
    ensures Passed(frame, Slot(args, i, start, 4), args[i], memory[avalue[i]], 4)
  {
    SlotAligned(args, i, start, 4);
    MultipleIsRemainderZero(Slot(args, i, start, 4), 4);
    ContentsArePassed(frame, Slot(args, i, start, 4), args[i], memory[avalue[i]], 4);
  }

  lemma FilledIsFramed(frame: seq<Cell>, start: nat, args: seq<CType>, rvalue: nat, avalue: seq<nat>, memory: Memory)
    requires Readable(args, avalue, memory, 4) && AllPrepared(args) && Multiple(start, 4)
    requires Filled(frame, args, rvalue, avalue, memory, |args|, start)
    ensures Framed(frame, start, args, rvalue, avalue, memory)
  {
    var p := seq(|args|, i requires 0 <= i < |args| => Slot(args, i, start, 4));
    forall i | 0 <= i < |args|
      ensures p[i] % 4 == 0 && Passed(frame, p[i], args[i], memory[avalue[i]], 4)
    {
      SlotPassed(frame, args, avalue, memory, i, start);
    }
    SlotsFollow(p, args, start);
    assert ArgumentsAt(frame, p, args, avalue, memory, start);
  }

  lemma SlotsFollow(p: seq<nat>, args: seq<CType>, start: nat)
    requires |p| == |args| && forall i | 0 <= i < |p| :: p[i] == Slot(args, i, start, 4) && p[i] % 4 == 0
    ensures OneAfterAnother(p, args, start, 4)
  {
    forall i, j | 0 <= i && j == i + 1 < |p|
      ensures p[i] + args[i].size <= p[j] < p[i] + args[i].size + 4
    {
      assert p[j] == p[i] + RoundUp(args[i].size, 4);
    }
  }

  /** `ffi_prep_args`: fills a frame of exactly the reserved size, and nothing
      is written outside it. The stack grows from a word-aligned address. */
  method PrepArgs(stack: array<Cell>, target: Target, rtype: CType, args: seq<CType>,
                  rvalue: nat, avalue: seq<nat>, memory: Memory)
    requires target != X86Win64 && AllPrepared(args) && Readable(args, avalue, memory, 4)
    requires stack.Length == Reserved(args, if rtype.kind == Struct then 4 else 0, 4)
    modifies stack
    ensures var hidden := rtype.kind == Struct && (target == X86 || rtype.size !in {1, 2, 4, 8});
            Framed(stack[..], if hidden then 4 else 0, args, rvalue, avalue, memory)
  {
    var argp := 0;
    ghost var reserved := if rtype.kind == Struct then 4 else 0;
    SlotFits(args, 0, reserved, reserved, 4);
    if ReturnFlag(target, rtype.kind, rtype.size) == Same(Struct) {
      StorePointer(stack, argp, rvalue, 4);
      argp := argp + 4;
    }
    SlotFits(args, |args|, argp, reserved, 4);
    WriteArgs(stack, args, rvalue, avalue, memory, argp);
    FilledIsFramed(stack[..], argp, args, rvalue, avalue, memory);
  }

  /** The storage of every argument is as large as its laid out type asks for. */
  ghost predicate Supplied(argTypes: seq<FfiType>, g: Sizes, avalue: seq<nat>, memory: Memory)
    requires Sane(g) && forall d | d in argTypes :: d.Acyclic()
  {
    && |avalue| == |argTypes|
    && forall i | 0 <= i < |argTypes| && argTypes[i].LayoutOf(g).Some? ::
         var l := argTypes[i].LayoutOf(g).value;
         avalue[i] in memory && |memory[avalue[i]]| >= ReadWidth(CType(argTypes[i].kind, l.size, l.alignment), 4)
  }

  /** Both loops in sequence: whenever the types can be laid out, the frame that
      is reserved for them holds the hidden pointer and every argument. */
  method BuildFrame(target: Target, rtype: FfiType, argTypes: seq<FfiType>, ghost graph: set<FfiType>,
                    rvalue: nat, avalue: seq<nat>, memory: Memory)
    returns (cif: Option<Cif>, stack: array<Cell>)
    requires target != X86Win64
    requires Closed(graph) && Sane(Now(graph)) && rtype in graph && forall d | d in argTypes :: d in graph
    requires Supplied(argTypes, Now(graph), avalue, memory)
    modifies graph
    ensures cif.Some? <==>
              && rtype.LayoutOf(old(Now(graph))).Some?
              && forall d | d in argTypes :: d.LayoutOf(old(Now(graph))).Some?
    ensures cif.Some? ==>
              && Readable(cif.value.args, avalue, memory, 4) && stack.Length == cif.value.bytes
              && (forall i | 0 <= i < |argTypes| :: Describes(cif.value.args[i], argTypes[i], old(Now(graph))))
              && (cif.value.flags == Same(Struct) <==>
                    rtype.kind == Struct && (target == X86 || cif.value.rtype.size !in {1, 2, 4, 8}))
              && Framed(stack[..], if cif.value.flags == Same(Struct) then 4 else 0,
                        cif.value.args, rvalue, avalue, memory)
  {
    ghost var g := Now(graph);
    cif := PrepCif(target, rtype, argTypes, graph);
    if cif.None? {
      stack := new Cell[0](_ => Data(0));
      return;
    }
    var c := cif.value;
    assert forall i | 0 <= i < |argTypes| :: Describes(c.args[i], argTypes[i], g) && argTypes[i].LayoutOf(g).Some?;
    stack := new Cell[c.bytes](_ => Data(0));
    PrepArgs(stack, target, c.rtype, c.args, rvalue, avalue, memory);
  }
}

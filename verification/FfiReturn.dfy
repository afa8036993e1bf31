/** How the result of a native call gets from the registers into the caller's
    storage: `ffi_prep_cif_machdep` chooses a flag for the return type, and the
    assembly code compares the flag's number with constants of its own. */
module FfiReturn {
  import opened FfiLayout
  import opened FfiFrame

  type Bytes4 = bs: seq<Byte> | |bs| == 4 witness [0, 0, 0, 0]
  type Bytes8 = bs: seq<Byte> | |bs| == 8 witness [0, 0, 0, 0, 0, 0, 0, 0]

  /** What a function leaves in the registers. The top of the floating point
      stack is given by what it is when stored as a float and as a double. */
  datatype Registers64 = Registers64(rax: Bytes8, xmm0: Bytes8)
  datatype Registers32 = Registers32(eax: Bytes4, edx: Bytes4, float: Bytes4, double: Bytes8)

  /** The numbers of the types. */
  function Code(kind: Kind): (n: nat)
    ensures n <= 14
  {
    match kind
    case Void => 0
    case Int => 1
    case Float => 2
    case Double => 3
    case LongDouble => 4
    case UInt8 => 5
    case SInt8 => 6
    case UInt16 => 7
    case SInt16 => 8
    case UInt32 => 9
    case SInt32 => 10
    case UInt64 => 11
    case SInt64 => 12
    case Struct => 13
    case Pointer => 14
  }

  /** The number of a flag as the C code knows it. */
  function FlagCode(flag: Flag): nat {
    match flag
    case Same(kind) => Code(kind)
    case SmallStruct1B => 15
    case SmallStruct2B => 16
    case SmallStruct4B => 17
  }

  // ---------------------------------------------------------------- the assembly code

  /** Puts these bytes at the start of the storage and keeps the rest. */
  method Put(rvalue: array<Byte>, bytes: seq<Byte>)
    requires |bytes| <= rvalue.Length
    modifies rvalue
    ensures rvalue[..] == bytes + old(rvalue[..])[|bytes|..]
  {
    forall k | 0 <= k < |bytes| {
      rvalue[k] := bytes[k];
    }
  }

  /** The end of `ffi_call_win64`. Its constants for small structs are those of
      the C code with 1 and 4 bytes exchanged. */
  method Store64(flags: nat, rvalue: array<Byte>, r: Registers64)
    requires rvalue.Length >= 8
    modifies rvalue
    ensures rvalue[..] == Stored64(flags, r) + old(rvalue[..])[|Stored64(flags, r)|..]
  {
    if flags == 15 {
      Put(rvalue, r.rax[..4]);
    } else if flags == 16 {
      Put(rvalue, r.rax[..2]);
    } else if flags == 17 {
      Put(rvalue, r.rax[..1]);
    } else if flags == 5 {
      Put(rvalue, Wide(r.rax, 1, 8, false));
    } else if flags == 6 {
      Put(rvalue, Wide(r.rax, 1, 8, true));
    } else if flags == 7 {
      Put(rvalue, Wide(r.rax, 2, 8, false));
    } else if flags == 8 {
      Put(rvalue, Wide(r.rax, 2, 8, true));
    } else if flags == 9 {
      Put(rvalue, Wide(r.rax, 4, 8, false));
    } else if flags == 10 {
      Put(rvalue, Wide(r.rax, 4, 8, true));
    } else if flags == 2 {
      Put(rvalue, r.xmm0[..4]);
    } else if flags == 3 {
      Put(rvalue, r.xmm0);
    } else if flags == 12 {
      Put(rvalue, r.rax);
    }
  }

  function Stored64(flags: nat, r: Registers64): (bs: seq<Byte>)
    ensures |bs| <= 8
  {
    if flags in {15, 16, 17} then r.rax[..if flags == 15 then 4 else if flags == 16 then 2 else 1]
    else if 5 <= flags <= 10 then Wide(r.rax, if flags <= 6 then 1 else if flags <= 8 then 2 else 4, 8, flags % 2 == 0)
    else if flags in {2, 3} then r.xmm0[..if flags == 2 then 4 else 8]
    else if flags == 12 then r.rax
    else []
  }

  /** The end of `ffi_call_SYSV` and `ffi_call_STDCALL`. All floating point
      results are stored as floats. */
  method Store32(flags: nat, rvalue: array<Byte>, r: Registers32)
    requires rvalue.Length >= 8
    modifies rvalue
    ensures rvalue[..] == Stored32(flags, r) + old(rvalue[..])[|Stored32(flags, r)|..]
  {
    if flags == 1 {
      Put(rvalue, r.eax);
    } else if flags == 2 {
      Put(rvalue, r.float);
    } else if flags == 3 {
      Put(rvalue, r.float);
    } else if flags == 4 {
      Put(rvalue, r.float);
    } else {
      if flags == 12 {
        Put(rvalue, r.eax + r.edx);
      }
      if flags == 6 {
        Put(rvalue, r.eax[..1]);
      } else if flags == 8 {
        Put(rvalue, r.eax[..2]);
      }
    }
  }

  function Stored32(flags: nat, r: Registers32): (bs: seq<Byte>)
    ensures |bs| <= 8
  {
    if flags == 1 then r.eax
    else if flags in {2, 3, 4} then r.float
    else if flags == 12 then r.eax + r.edx
    else if flags in {6, 8} then r.eax[..if flags == 6 then 1 else 2]
    else []
  }

  // ---------------------------------------------------------------- what the caller finds

  function Width(kind: Kind, word: nat): nat {
    match kind
    case UInt8 | SInt8 => 1
    case UInt16 | SInt16 => 2
    case Int | UInt32 | SInt32 | Float => 4
    case UInt64 | SInt64 | Double | LongDouble => 8
    case Pointer => word
    case Void | Struct => 0
  }

  predicate IsSigned(kind: Kind) {
    kind in {Int, SInt8, SInt16, SInt32, SInt64}
  }

  /** The result is there, and nothing behind it has changed: an integer widened
      to the 8 bytes of a word, a floating point number, or a struct that
      travels in a register. One that does not is written by the callee. */
  ghost predicate Delivered64(kind: Kind, size: nat, r: Registers64, before: seq<Byte>, after: seq<Byte>)
    requires |before| >= 8
  {
    match kind
    case Void => after == before
    case Float => after == r.xmm0[..4] + before[4..]
    case Double | LongDouble => after == r.xmm0 + before[8..]
    case Struct => after == if size in {1, 2, 4, 8} then r.rax[..size] + before[size..] else before
    case _ => after == Wide(r.rax, Width(kind, 8), 8, IsSigned(kind)) + before[8..]
  }

  /** Of an integer shorter than a word, the whole register. */
  ghost predicate Delivered32(kind: Kind, size: nat, r: Registers32, before: seq<Byte>, after: seq<Byte>)
    requires |before| >= 8
  {
    match kind
    case Void => after == before
    case Float => after == r.float + before[4..]
    case Double | LongDouble => after == r.double + before[8..]
    case Struct =>
      after == if size in {1, 2, 4} then r.eax[..size] + before[size..]
               else if size == 8 then r.eax + r.edx + before[8..] else before
    case UInt64 | SInt64 => after == r.eax + r.edx + before[8..]
    case _ => after == r.eax + before[4..]
  }

  /** Calls whose result does not arrive whole: on Win64 a struct of 1 byte takes
      three more with it and one of 4 bytes loses three; of a long double the
      wrong register is stored. */
  predicate Lost64(kind: Kind, size: nat) {
    kind == LongDouble || (kind == Struct && (size == 1 || size == 4))
  }

  /** On Win32 a double arrives as a float, and a struct of 1 or 2 bytes not at all. */
  predicate Lost32(kind: Kind, size: nat) {
    kind == Double || kind == LongDouble || (kind == Struct && (size == 1 || size == 2))
  }

  /** What is in the storage after a call. */
  function After64(kind: Kind, size: nat, r: Registers64, before: seq<Byte>): seq<Byte>
    requires |before| >= 8
  {
    var bytes := Stored64(FlagCode(ReturnFlag(X86Win64, kind, size)), r);
    bytes + before[|bytes|..]
  }

  function After32(kind: Kind, size: nat, r: Registers32, before: seq<Byte>): seq<Byte>
    requires |before| >= 8
  {
    var bytes := Stored32(FlagCode(ReturnFlag(X86Win32, kind, size)), r);
    bytes + before[|bytes|..]
  }

  predicate IsInteger(kind: Kind) {
    kind !in {Void, Float, Double, LongDouble, Struct}
  }

  lemma Number64(kind: Kind, size: nat)
    ensures var n := FlagCode(ReturnFlag(X86Win64, kind, size));
            if IsInteger(kind) then n == if Width(kind, 8) == 8 then 12 else if kind == Int then 10 else Code(kind)
            else if kind != Struct then n == if kind == LongDouble then 12 else Code(kind)
            else n == if size == 1 then 15 else if size == 2 then 16 else if size == 4 then 17
                      else if size == 8 then 12 else 13
  {}

  lemma IntegerStored64(kind: Kind, r: Registers64)
    requires IsInteger(kind)
    ensures Stored64(if Width(kind, 8) == 8 then 12 else if kind == Int then 10 else Code(kind), r)
         == Wide(r.rax, Width(kind, 8), 8, IsSigned(kind))
  {
    if Width(kind, 8) == 8 {
      assert Wide(r.rax, 8, 8, IsSigned(kind)) == r.rax;
    }
  }

  lemma IntegerArrives64(kind: Kind, size: nat, r: Registers64, before: seq<Byte>)
    requires |before| >= 8 && IsInteger(kind)
    ensures Delivered64(kind, size, r, before, After64(kind, size, r, before))
  {
    Number64(kind, size);
    IntegerStored64(kind, r);
  }

  lemma Arrives64(kind: Kind, size: nat, r: Registers64, before: seq<Byte>)
    requires |before| >= 8 && !Lost64(kind, size)
    ensures Delivered64(kind, size, r, before, After64(kind, size, r, before))
  {
    if IsInteger(kind) {
      IntegerArrives64(kind, size, r, before);
    } else {
      OtherArrives64(kind, size, r, before);
    }
  }

  lemma OtherArrives64(kind: Kind, size: nat, r: Registers64, before: seq<Byte>)
    requires |before| >= 8 && !Lost64(kind, size) && kind in {Void, Float, Double, Struct}
    ensures Delivered64(kind, size, r, before, After64(kind, size, r, before))
  {
    Number64(kind, size);
  }

  lemma GetsLost64(kind: Kind, size: nat, r: Registers64, before: seq<Byte>)
    requires Lost64(kind, size) && before == [0, 0, 0, 0, 0, 0, 0, 0]
    requires r.rax == [1, 2, 3, 4, 5, 6, 7, 8] && r.xmm0 == [9, 9, 9, 9, 9, 9, 9, 9]
    ensures !Delivered64(kind, size, r, before, After64(kind, size, r, before))
  {
    Number64(kind, size);
    var after := After64(kind, size, r, before);
    if kind == LongDouble {
      assert after[0] == 1 && (r.xmm0 + before[8..])[0] == 9;
    } else if size == 1 {
      assert after[1] == 2 && (r.rax[..1] + before[1..])[1] == 0;
    } else {
      assert after[1] == 0 && (r.rax[..4] + before[4..])[1] == 2;
    }
  }

  /** A return type is delivered from all registers into any storage, exactly if
      it is none of those. */
  lemma DeliveredIff64(kind: Kind, size: nat)
    ensures (forall r, before | |before| >= 8 :: Delivered64(kind, size, r, before, After64(kind, size, r, before)))
       <==> !Lost64(kind, size)
  {
    if Lost64(kind, size) {
      var rax: Bytes8, xmm0: Bytes8 := [1, 2, 3, 4, 5, 6, 7, 8], [9, 9, 9, 9, 9, 9, 9, 9];
      GetsLost64(kind, size, Registers64(rax, xmm0), [0, 0, 0, 0, 0, 0, 0, 0]);
    } else {
      forall r, before | |before| >= 8
        ensures Delivered64(kind, size, r, before, After64(kind, size, r, before))
      {
        Arrives64(kind, size, r, before);
      }
    }
  }

  lemma Arrives32(kind: Kind, size: nat, r: Registers32, before: seq<Byte>)
    requires |before| >= 8 && !Lost32(kind, size)
    ensures Delivered32(kind, size, r, before, After32(kind, size, r, before))
  {}

  lemma GetsLost32(kind: Kind, size: nat, r: Registers32, before: seq<Byte>)
    requires Lost32(kind, size) && before == [0, 0, 0, 0, 0, 0, 0, 0]
    requires r.eax == [1, 2, 3, 4] && r.float == [5, 5, 5, 5] && r.double == [9, 9, 9, 9, 9, 9, 9, 9]
    ensures !Delivered32(kind, size, r, before, After32(kind, size, r, before))
  {
    var after := After32(kind, size, r, before);
    if kind == Struct {
      assert after[0] == 0 && (r.eax[..size] + before[size..])[0] == 1;
    } else {
      assert after[0] == 5 && (r.double + before[8..])[0] == 9;
    }
  }

  lemma DeliveredIff32(kind: Kind, size: nat)
    ensures (forall r, before | |before| >= 8 :: Delivered32(kind, size, r, before, After32(kind, size, r, before)))
       <==> !Lost32(kind, size)
  {
    if Lost32(kind, size) {
      var eax: Bytes4, float: Bytes4, double: Bytes8 := [1, 2, 3, 4], [5, 5, 5, 5], [9, 9, 9, 9, 9, 9, 9, 9];
      GetsLost32(kind, size, Registers32(eax, eax, float, double), [0, 0, 0, 0, 0, 0, 0, 0]);
    } else {
      forall r, before | |before| >= 8
        ensures Delivered32(kind, size, r, before, After32(kind, size, r, before))
      {
        Arrives32(kind, size, r, before);
      }
    }
  }

  /** The end of a call: the flag of the return type and what the code does with it. */
  method ReturnFrom64(kind: Kind, size: nat, rvalue: array<Byte>, r: Registers64)
    requires rvalue.Length >= 8
    modifies rvalue
    ensures rvalue[..] == After64(kind, size, r, old(rvalue[..]))
    ensures !Lost64(kind, size) ==> Delivered64(kind, size, r, old(rvalue[..]), rvalue[..])
  {
    Store64(FlagCode(ReturnFlag(X86Win64, kind, size)), rvalue, r);
    DeliveredIff64(kind, size);
  }

  method ReturnFrom32(kind: Kind, size: nat, rvalue: array<Byte>, r: Registers32)
    requires rvalue.Length >= 8
    modifies rvalue
    ensures rvalue[..] == After32(kind, size, r, old(rvalue[..]))
    ensures !Lost32(kind, size) ==> Delivered32(kind, size, r, old(rvalue[..]), rvalue[..])
  {
    Store32(FlagCode(ReturnFlag(X86Win32, kind, size)), rvalue, r);
    DeliveredIff32(kind, size);
  }

  /** So an integer read from the result as a word of 8 bytes is the one returned. */
  lemma IntegerReadsBack(kind: Kind, r: Registers64)
    requires IsInteger(kind)
    ensures IsSigned(kind) ==>
              Signed(Wide(r.rax, Width(kind, 8), 8, true)) == Signed(r.rax[..Width(kind, 8)])
    ensures !IsSigned(kind) ==>
              Unsigned(Wide(r.rax, Width(kind, 8), 8, false)) == Unsigned(r.rax[..Width(kind, 8)])
  {
    var n := Width(kind, 8);
    PromotionIsWide(r.rax, n, 8, IsSigned(kind));
    Ranges(r.rax[..n], 8);
    if IsSigned(kind) {
      StoredSigned(Signed(r.rax[..n]), 8);
    } else {
      StoredUnsigned(Unsigned(r.rax[..n]), 8);
    }
  }

  /** Off Windows the flags are those of Win32, but that short integers and all
      structs keep their type. */
  lemma FlagsOffWindows(kind: Kind, size: nat)
    ensures ReturnFlag(X86, kind, size)
         == if kind in {UInt8, SInt8, UInt16, SInt16, Struct} then Same(kind) else ReturnFlag(X86Win32, kind, size)
  {}
}

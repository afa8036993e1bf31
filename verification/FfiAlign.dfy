/** The bit arithmetic libffi lays out types and frames with. The macro
    `ALIGN(v, a)` is `((v - 1) | (a - 1)) + 1` on machine words; here it is
    taken over two's complement integers of unlimited width, and `InWord` says
    that a word of any width computes the same value modulo its size. */
module FfiAlign {
  import opened Arithmetic
  import opened Bits

  /** The macro ALIGN. */
  function Align(v: int, a: int): int {
    Or(v - 1, a - 1) + 1
  }

  // ---------------------------------------------------------------- the macro

  /** For a power of two, ALIGN is the least multiple at or above the value;
      a zero value stays zero although `v - 1` then wraps. */
  lemma {:induction false} AlignIsLeastMultiple(v: nat, a: int)
    requires IsPow2(a)
    ensures LeastMultiple(Align(v, a), v, a)
  {
    var k: nat :| a == Pow2(k);
    OrMask(v - 1, k);
    ToWordIsRemainder(k, v - 1);
    DivMod(v - 1, a);
    var q := (v - 1) / a;
    Distribute(q, -1, a);
    DivMul(a, Align(v, a), q + 1, 0);
    MultipleIsRemainderZero(Align(v, a), a);
  }

  /** An alignment of zero, which an unfinished aggregate has, erases the value. */
  lemma {:induction false} AlignToZero(v: int)
    ensures Align(v, 0) == 0
  {
    OrOnes(v - 1);
  }

  /** What ALIGN is for: the least multiple of `a` at or above `v`. */
  function RoundUp(v: nat, a: nat): (r: nat)
    ensures a > 0 ==> v <= r < v + a
    decreases v
  {
    if v == 0 || a == 0 then 0 else if v <= a then a else a + RoundUp(v - a, a)
  }

  lemma {:induction false} RoundUpIsLeastMultiple(v: nat, a: nat)
    requires a > 0
    ensures LeastMultiple(RoundUp(v, a), v, a)
    decreases v
  {
    if v > a {
      RoundUpIsLeastMultiple(v - a, a);
    }
  }

  lemma {:induction false} AlignIsRoundUp(v: nat, a: nat)
    requires a == 0 || IsPow2(a)
    ensures Align(v, a) == RoundUp(v, a)
  {
    if a == 0 {
      AlignToZero(v);
    } else {
      AlignIsLeastMultiple(v, a);
      RoundUpIsLeastMultiple(v, a);
      LeastIsUnique(Align(v, a), RoundUp(v, a), v, a);
    }
  }

  /** The macro as the code uses it. */
  method AlignTo(v: nat, a: nat) returns (r: nat)
    requires a == 0 || IsPow2(a)
    ensures r == RoundUp(v, a)
  {
    AlignIsRoundUp(v, a);
    r := Or(v - 1, a - 1) + 1;
  }

  /** The other way the code rounds up: `(v + a - 1) & ~(a - 1)`. */
  lemma {:induction false} MaskedIsRoundUp(v: nat, a: nat)
    requires IsPow2(a)
    ensures And(v + a - 1, Complement(a - 1)) == RoundUp(v, a)
  {
    var k: nat :| a == Pow2(k);
    AndComplement(v + a - 1, k);
    ToWordIsRemainder(k, v + a - 1);
    RoundedDown(v, a);
  }

  lemma {:induction false} RoundedDown(v: nat, a: nat)
    requires a > 0
    ensures v + a - 1 - (v + a - 1) % a == RoundUp(v, a)
  {
    var x := v + a - 1;
    var r := x - x % a;
    DivMod(x, a);
    DivMul(a, r, x / a, 0);
    MultipleIsRemainderZero(r, a);
    RoundUpIsLeastMultiple(v, a);
    LeastIsUnique(RoundUp(v, a), r, v, a);
  }

  // ---------------------------------------------------------------- words

  /** ALIGN as a word of `w` bits computes it: the operands are words, the
      subtractions and the addition wrap. */
  function WordAlign(w: nat, v: int, a: int): nat {
    WordSucc(w, WordOr(w, ToWord(w, v - 1), ToWord(w, a - 1)))
  }

  function WordSucc(w: nat, x: int): nat {
    ToWord(w, x + 1)
  }

  lemma {:induction false} AddOneInWord(w: nat, x: int)
    ensures WordSucc(w, ToWord(w, x)) == WordSucc(w, x)
  {
    if w > 0 {
      AddOneInWord(w - 1, x / 2);
      Truncated(w - 1, x / 2);
    }
  }

  /** A machine word computes ALIGN modulo its size: the low bits are the
      remainder by `ToWordIsRemainder`. */
  lemma {:induction false} InWord(w: nat, v: int, a: int)
    ensures WordAlign(w, v, a) == ToWord(w, Align(v, a))
  {
    WordOrIgnoresHighBits(w, v - 1, a - 1);
    OrTruncates(w, v - 1, a - 1);
    AddOneInWord(w, Or(v - 1, a - 1));
  }

  /** So it is exact whenever the aligned value still fits the word. */
  lemma {:induction false} WordAlignIsLeastMultiple(w: nat, v: nat, a: int)
    requires IsPow2(a) && Align(v, a) < Pow2(w)
    ensures LeastMultiple(WordAlign(w, v, a), v, a)
  {
    AlignIsLeastMultiple(v, a);
    InWord(w, v, a);
    FitsWord(w, Align(v, a));
  }
}

/** Bit operations on two's complement integers of unlimited width, and what a
    machine word keeps of them. Everything is defined bit by bit, so that proofs
    are linear. */
module Bits {
  import opened Arithmetic

  function Pow2(k: nat): (r: nat)
    ensures r >= 1
  {
    if k == 0 then 1 else 2 * Pow2(k - 1)
  }

  ghost predicate IsPow2(a: int) {
    exists k: nat :: a == Pow2(k)
  }

  function Magnitude(x: int): nat {
    if x < 0 then -x - 1 else x
  }

  /** Bitwise or of two's complement integers. */
  function Or(x: int, y: int): int
    decreases Magnitude(x) + Magnitude(y)
  {
    if (x == 0 || x == -1) && (y == 0 || y == -1) then (if x == 0 then y else x)
    else 2 * Or(x / 2, y / 2) + (if x % 2 == 1 || y % 2 == 1 then 1 else 0)
  }

  /** Bitwise and of two's complement integers. */
  function And(x: int, y: int): int
    decreases Magnitude(x) + Magnitude(y)
  {
    if (x == 0 || x == -1) && (y == 0 || y == -1) then (if x == 0 then x else y)
    else 2 * And(x / 2, y / 2) + (if x % 2 == 1 && y % 2 == 1 then 1 else 0)
  }

  /** Bitwise not. */
  function Complement(x: int): int {
    -x - 1
  }

  /** The low `w` bits. */
  function ToWord(w: nat, x: int): nat {
    if w == 0 then 0 else 2 * ToWord(w - 1, x / 2) + x % 2
  }

  lemma {:induction false} ToWordIsRemainder(w: nat, x: int)
    ensures ToWord(w, x) == x % Pow2(w)
  {
    if w > 0 {
      ToWordIsRemainder(w - 1, x / 2);
      HalveDivMod(x, Pow2(w - 1));
    }
  }

  /** Or-ing with `2^k - 1` fills the low `k` bits. */
  lemma {:induction false} OrMask(x: int, k: nat)
    ensures Or(x, Pow2(k) - 1) == x - ToWord(k, x) + Pow2(k) - 1
    decreases k, Magnitude(x)
  {
    if k == 0 {
      if x != 0 && x != -1 {
        OrMask(x / 2, 0);
      }
    } else {
      OrMask(x / 2, k - 1);
    }
  }

  /** And-ing with `2^k - 1` keeps the low `k` bits, the remainder. */
  lemma {:induction false} AndMask(x: int, k: nat)
    ensures And(Pow2(k) - 1, x) == ToWord(k, x)
    decreases k, Magnitude(x)
  {
    if k == 0 {
      if x != 0 && x != -1 {
        AndMask(x / 2, 0);
      }
    } else {
      AndMask(x / 2, k - 1);
    }
  }

  /** And-ing with the complement of `2^k - 1` drops the low `k` bits. */
  lemma {:induction false} AndComplement(x: int, k: nat)
    ensures And(x, Complement(Pow2(k) - 1)) == x - ToWord(k, x)
    decreases k, Magnitude(x)
  {
    if k == 0 {
      if x != 0 && x != -1 {
        AndComplement(x / 2, 0);
      }
    } else {
      AndComplement(x / 2, k - 1);
    }
  }

  lemma {:induction false} OrOnes(x: int)
    ensures Or(x, -1) == -1
    decreases Magnitude(x)
  {
    if x != 0 && x != -1 {
      OrOnes(x / 2);
    }
  }

  /** Bitwise or of the low `w` bits. */
  function WordOr(w: nat, x: int, y: int): nat {
    if w == 0 then 0
    else 2 * WordOr(w - 1, x / 2, y / 2) + (if x % 2 == 1 || y % 2 == 1 then 1 else 0)
  }

  lemma {:induction false} OrTruncates(w: nat, x: int, y: int)
    ensures WordOr(w, x, y) == ToWord(w, Or(x, y))
  {
    if w > 0 {
      OrTruncates(w - 1, x / 2, y / 2);
      OrStep(x, y);
    }
  }

  lemma OrStep(x: int, y: int)
    ensures Or(x, y) / 2 == Or(x / 2, y / 2)
    ensures Or(x, y) % 2 == if x % 2 == 1 || y % 2 == 1 then 1 else 0
  {}

  lemma {:induction false} WordOrIgnoresHighBits(w: nat, x: int, y: int)
    ensures WordOr(w, ToWord(w, x), ToWord(w, y)) == WordOr(w, x, y)
  {
    if w > 0 {
      WordOrIgnoresHighBits(w - 1, x / 2, y / 2);
    }
  }

  lemma {:induction false} Truncated(w: nat, x: int)
    ensures ToWord(w, ToWord(w, x)) == ToWord(w, x)
  {
    if w > 0 {
      Truncated(w - 1, x / 2);
    }
  }

  lemma {:induction false} FitsWord(w: nat, x: nat)
    requires x < Pow2(w)
    ensures ToWord(w, x) == x
  {
    if w > 0 {
      FitsWord(w - 1, x / 2);
    }
  }

  // ---------------------------------------------------------------- shifts and fields

  /** `x << k` without wrap-around. */
  function Shl(x: int, k: nat): int {
    if k == 0 then x else 2 * Shl(x, k - 1)
  }

  /** The signed `x >> k`. */
  function Shr(x: int, k: nat): int
    decreases k
  {
    if k == 0 then x else Shr(x / 2, k - 1)
  }

  /** The `m` bits of `x` from bit `k` on. */
  function Field(x: int, k: nat, m: nat): nat {
    ToWord(m, Shr(x, k))
  }

  lemma {:induction false} WordBound(w: nat, x: int)
    ensures ToWord(w, x) < Pow2(w)
  {
    if w > 0 {
      WordBound(w - 1, x / 2);
    }
  }

  lemma {:induction false} ShlIsProduct(x: int, k: nat)
    ensures Shl(x, k) == x * Pow2(k)
    decreases k
  {
    if k > 0 {
      ShlIsProduct(x, k - 1);
      Doubled(x, Pow2(k - 1));
    }
  }

  lemma {:induction false} ShrIsQuotient(x: int, k: nat)
    ensures Shr(x, k) == x / Pow2(k)
    decreases k
  {
    if k > 0 {
      ShrIsQuotient(x / 2, k - 1);
      HalveDivMod(x, Pow2(k - 1));
    }
  }

  /** Masking out a field and shifting it down. */
  lemma {:induction false} MaskedField(v: int, y: int, k: nat)
    ensures Shr(And(v, Shl(y, k)), k) == And(Shr(v, k), y)
    decreases k
  {
    if k > 0 {
      MaskedField(v / 2, y, k - 1);
      AndStep(v, Shl(y, k));
    }
  }

  lemma AndStep(x: int, y: int)
    ensures And(x, y) / 2 == And(x / 2, y / 2)
  {}

  lemma {:induction false} AndOnes(x: int)
    ensures And(x, -1) == x
    decreases Magnitude(x)
  {
    if x != 0 && x != -1 {
      AndOnes(x / 2);
    }
  }

  lemma {:induction false} AndCommutes(x: int, y: int)
    ensures And(x, y) == And(y, x)
    decreases Magnitude(x) + Magnitude(y)
  {
    if !((x == 0 || x == -1) && (y == 0 || y == -1)) {
      AndCommutes(x / 2, y / 2);
    }
  }

  /** Or-ing something below bit `k` with something from bit `k` on adds them. */
  lemma {:induction false} OrDisjoint(a: nat, x: int, k: nat)
    requires a < Pow2(k)
    ensures Or(a, Shl(x, k)) == a + Shl(x, k)
  {
    if k == 0 {
      OrZero(x);
    } else {
      OrDisjoint(a / 2, x, k - 1);
      OrStep(a, Shl(x, k));
    }
  }

  lemma {:induction false} OrZero(x: int)
    ensures Or(0, x) == x
    decreases Magnitude(x)
  {
    if x != 0 && x != -1 {
      OrZero(x / 2);
    }
  }

  /** The two parts of such a sum. */
  lemma {:induction false} PartsOfSum(a: nat, x: int, k: nat)
    requires a < Pow2(k)
    ensures ToWord(k, a + Shl(x, k)) == a && Shr(a + Shl(x, k), k) == x
  {
    if k > 0 {
      PartsOfSum(a / 2, x, k - 1);
    }
  }

  /** A number is the sum of its low bits and the rest. */
  lemma {:induction false} SumOfParts(x: int, k: nat)
    ensures x == ToWord(k, x) + Shl(Shr(x, k), k)
    decreases k
  {
    if k > 0 {
      SumOfParts(x / 2, k - 1);
    }
  }

  lemma {:induction false} WordAndField(x: int, k: nat, m: nat)
    ensures ToWord(k + m, x) == ToWord(k, x) + Shl(Field(x, k, m), k)
    ensures Shr(ToWord(k + m, x), k) == Field(x, k, m)
    decreases k
  {
    if k > 0 {
      WordAndField(x / 2, k - 1, m);
    }
  }

  lemma {:induction false} LowerBits(j: nat, k: nat, x: int)
    requires j <= k
    ensures ToWord(j, ToWord(k, x)) == ToWord(j, x)
  {
    if j > 0 {
      LowerBits(j - 1, k - 1, x / 2);
    }
  }

  lemma {:induction false} Pow2Monotone(i: nat, j: nat)
    requires i < j
    ensures Pow2(i) < Pow2(j)
    decreases j
  {
    if i < j - 1 {
      Pow2Monotone(i, j - 1);
    }
  }

  // ---------------------------------------------------------------- signed words

  lemma {:induction false} ShlSum(x: int, y: int, k: nat)
    ensures Shl(x + y, k) == Shl(x, k) + Shl(y, k)
  {
    if k > 0 {
      ShlSum(x, y, k - 1);
    }
  }

  lemma {:induction false} ShlOfPow2(m: nat, k: nat)
    ensures Shl(Pow2(m), k) == Pow2(m + k)
  {
    if k > 0 {
      ShlOfPow2(m, k - 1);
    }
  }

  lemma {:induction false} ShlMonotone(x: int, y: int, k: nat)
    requires x < y
    ensures Shl(x, k) < Shl(y, k)
  {
    if k > 0 {
      ShlMonotone(x, y, k - 1);
    }
  }

  lemma {:induction false} ShlOfZero(k: nat)
    ensures Shl(0, k) == 0
  {
    if k > 0 {
      ShlOfZero(k - 1);
    }
  }

  lemma {:induction false} WordOfShl(x: int, k: nat, m: nat)
    ensures ToWord(k + m, Shl(x, k)) == Shl(ToWord(m, x), k)
    decreases k
  {
    if k > 0 {
      WordOfShl(x, k - 1, m);
    }
  }

  lemma {:induction false} WordOfNegative(w: nat, x: int)
    requires -(Pow2(w) as int) <= x < 0
    ensures ToWord(w, x) == x + Pow2(w)
  {
    if w > 0 {
      WordOfNegative(w - 1, x / 2);
    }
  }

  lemma {:induction false} ShrBound(x: int, k: nat, j: nat)
    requires -(Pow2(k + j) as int) <= x < Pow2(k + j)
    ensures -(Pow2(j) as int) <= Shr(x, k) < Pow2(j)
    decreases k
  {
    if k > 0 {
      ShrBound(x / 2, k - 1, j);
    }
  }

  /** The value of the low `w` bits as a signed number. */
  function SignedWord(w: nat, x: int): int
    requires w > 0
  {
    if ToWord(w, x) < Pow2(w - 1) then ToWord(w, x) else ToWord(w, x) - Pow2(w)
  }

  lemma {:induction false} SignedInRange(w: nat, x: int)
    requires w > 0 && -(Pow2(w - 1) as int) <= x < Pow2(w - 1)
    ensures SignedWord(w, x) == x
  {
    if x >= 0 {
      FitsWord(w, x);
    } else {
      WordOfNegative(w, x);
    }
  }

  lemma SignedBound(w: nat, x: int)
    requires w > 0
    ensures -(Pow2(w - 1) as int) <= SignedWord(w, x) < Pow2(w - 1)
    ensures ToWord(w, SignedWord(w, x)) == ToWord(w, x)
  {
    WordBound(w, x);
    if ToWord(w, x) < Pow2(w - 1) {
      Truncated(w, x);
    } else {
      WordOfNegative(w, SignedWord(w, x));
    }
  }

  /** Shifting into the top of a word keeps the sign. */
  lemma SignedOfShl(x: int, k: nat, m: nat)
    requires m > 0
    ensures SignedWord(k + m, Shl(x, k)) == Shl(SignedWord(m, x), k)
  {
    var w := ToWord(m, x);
    WordOfShl(x, k, m);
    ShlOfPow2(m - 1, k);
    ShlOfPow2(m, k);
    if w < Pow2(m - 1) {
      ShlMonotone(w, Pow2(m - 1), k);
    } else {
      ShlSum(w - Pow2(m), Pow2(m), k);
      if w > Pow2(m - 1) {
        ShlMonotone(Pow2(m - 1), w, k);
      }
    }
  }
}

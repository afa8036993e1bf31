/** Division, remainders and multiples of natural numbers, stated so that proofs
    about layouts and memory pages stay linear. */
module Arithmetic {

  /** `r` is a sum of `a`s; `MultipleIsRemainderZero` gives the arithmetic form. */
  ghost predicate Multiple(r: nat, a: nat)
    requires a > 0
    decreases r
  {
    r == 0 || (r >= a && Multiple(r - a, a))
  }

  ghost predicate LeastMultiple(r: int, v: int, a: int) {
    a > 0 && 0 <= r && Multiple(r, a) && v <= r < v + a
  }

  lemma OnlyZeroMultiple(d: int, a: int)
    requires -a < d * a < a
    ensures d == 0
  {
    if d >= 1 {
      AtLeastOnce(d, a);
    } else if d <= -1 {
      AtLeastOnce(-d, a);
    }
  }

  lemma AtLeastOnce(d: int, a: int)
    requires d >= 1 && a > 0
    ensures d * a >= a
  {}

  lemma Distribute(x: int, y: int, a: int)
    ensures (x - y) * a == x * a - y * a
  {}

  lemma DivMod(x: int, a: int)
    requires a > 0
    ensures x == (x / a) * a + x % a && 0 <= x % a < a
  {}

  /** Quotient and remainder are unique. */
  lemma DivMul(a: int, x: int, q: int, r: int)
    requires 0 <= r < a && x == q * a + r
    ensures x / a == q && x % a == r
  {
    DivMod(x, a);
    var q', r' := x / a, x % a;
    Distribute(q', q, a);
    OnlyZeroMultiple(q' - q, a);
  }

  lemma HalveDivMod(x: int, p: int)
    requires p > 0
    ensures (x / 2) / p == x / (2 * p)
    ensures x % (2 * p) == 2 * ((x / 2) % p) + x % 2
  {
    var q, r := (x / 2) / p, (x / 2) % p;
    DivMod(x / 2, p);
    Doubled(q, p);
    DivMul(2 * p, x, q, 2 * r + x % 2);
  }

  lemma Doubled(q: int, p: int)
    ensures q * (2 * p) == 2 * (q * p)
  {}

  lemma {:induction false} MultipleIsRemainderZero(r: nat, a: nat)
    requires a > 0
    ensures Multiple(r, a) <==> r % a == 0
    decreases r
  {
    if r >= a {
      MultipleIsRemainderZero(r - a, a);
      SubtractOnce(r, a);
    } else {
      DivMul(a, r, 0, r);
    }
  }

  lemma SubtractOnce(r: nat, a: nat)
    requires a > 0
    ensures (r - a) % a == r % a
  {
    DivMod(r, a);
    Distribute(r / a, 1, a);
    DivMul(a, r - a, r / a - 1, r % a);
  }

  lemma {:induction false} MultipleSum(r: nat, s: nat, a: nat)
    requires a > 0 && Multiple(r, a) && Multiple(s, a)
    ensures Multiple(r + s, a)
    decreases r
  {
    if r > 0 {
      MultipleSum(r - a, s, a);
    }
  }

  lemma {:induction false} MultipleOfMultiple(r: nat, a: nat, b: nat)
    requires a > 0 && b > 0 && Multiple(b, a) && Multiple(r, b)
    ensures Multiple(r, a)
    decreases r
  {
    if r > 0 {
      MultipleOfMultiple(r - b, a, b);
      MultipleSum(r - b, b, a);
    }
  }

  lemma {:induction false} MultiplesApart(r: nat, s: nat, a: nat)
    requires a > 0 && Multiple(r, a) && Multiple(s, a) && r < s
    ensures r + a <= s
    decreases r
  {
    if r > 0 {
      MultiplesApart(r - a, s - a, a);
    }
  }

  lemma LeastIsUnique(r: int, s: nat, v: int, a: int)
    requires LeastMultiple(r, v, a) && Multiple(s, a) && v <= s
    ensures r <= s
    ensures s < v + a ==> r == s
  {
    if s < r {
      MultiplesApart(s, r, a);
    } else if r < s {
      MultiplesApart(r, s, a);
    }
  }
}
